# Models and proofs for futils

Dafny models of the parts of the C++ library futils that carry the most state
and branching, with proofs of what they keep over every input and every run.

| files | component |
|---|---|
| `Common` | definitions that several parts share |
| `JsonValue`, `Escape` | numbers of the JSON constructor, string escaping and unescaping |
| `JsonMachine`, `JsonSplit` | the resumable JSON parser as a step machine, its termination, and independence of how the text is cut |
| `JsonGrammar`, `JsonAccept`, `JsonSound`, `JsonReport` | the grammar, that the parser accepts exactly it, and what it reports on every text |
| `JsonShape`, `JsonParser` | the shape of the value stack, and the parser object refining the machine |
| `JsonPrinter`, `JsonLayout`, `JsonRoundTrip`, `JsonEndToEnd` | the printer object, the layout of its text, and the print and parse round trip |
| `CancelableLock` | the interruptible socket lock, as interleaved atomic steps |
| `MultiLock` | locking several mutexes without deadlock, as interleaved steps |
| `X64`, `X64Machine` | instruction encoder and decoder, and a machine that runs bytes |
| `X64Coroutine`, `X64Switch`, `X64Life`, `X64Generator` | the stack-switching code, whole coroutine lives, generator and relocator |
| `LocText`, `LocScript`, `LocWriter` | the indented writer with its source map |
| `Ring` | the ring queue and the scheduler step over two of them |
| `StreamReader` | the buffered stream reader and its buffer contracts |
| `Leb128`, `BitFlags` | variable-length integers, bit fields |
| `StunMessage`, `Stun`, `StunNat` | STUN messages, NAT discovery, and the networks it tells apart |

Conventions. Integers are unbounded and every wrap-around of the source is
written out. Text is a sequence of characters that stand for unsigned bytes.
Objects that the source updates in place are classes whose methods are proved
against functions of their old state; protocols between threads are step
machines over all interleavings. Handlers, clocks and peers are parameters. The
reader of the JSON parser has a flag of its own for the end of the text, as the
`Reader` concept allows.

Where a property does not hold of the code, the exact condition is proved: the
print and parse round trip (`RoundTrip`, `PrintAndParse`), the error on a complete
text that is not accepted (`CompleteText`, `CutLiteral`), the source map
(`SourceMap`, `SourceMapFails`), the instruction encoding (`DecodeEncode`), the suspend argument
off Windows (`SuspendReturns`) and the rule that keeps cancellation safe (`RunSafe`,
`RuleNeeded` and `RuleFails`).

Where code and documentation disagree the model follows the code. The comments
of the coroutine prologue and its `StackBottom` record name the host slots in the
other order than the pushes fill them. An unexpected character behind an array
element ends in the state for an invalid state, because a `break` is missing. The
ring's stored size is not updated by `steal`.

## Model

| member | source | states |
|---|---|---|
| `JsonValue.DecimalOfDigits` | src/include/json/stringer.h:390-402 | printing a number in decimal and reading the digits back gives the number |
| `JsonValue.PushDigitsExact` | src/include/number/parse.h:27-73 | the 64-bit accumulator holds the value of the digits if and only if that value is below 2^64 |
| `JsonValue.PushDigitsRange` | src/include/number/parse.h:33-52 | without overflow the accumulator stays below 2^64, also where its last addition wraps around |
| `JsonValue.ParseDigits` | src/include/number/parse.h:27-73 | the digit loop stops at the first character that is no digit and has accumulated the digits before it |
| `JsonValue.IntegerTokenIs` | src/include/json/constructor.h:175-221 | which value an integer token becomes: none, an integer, or a floating-point number when it does not fit |
| `JsonValue.IntegerRoundTrip` | src/include/json/constructor.h:175-221 | a 64-bit signed integer printed and read back is the same integer if and only if it is not the least one |
| `JsonValue.KnownNumbers` | src/include/json/constructor.h:175-221 | 1024 and -17 are printed and read as everyone writes them, and digits are those of section 6 of RFC 8259 |
| `JsonValue.EmplaceLookup` | src/include/json/constructor.h:275-284 | a key that is there keeps its value, a new one gets the given value, all other keys and the order are unchanged |
| `Escape.EscapeStr` | src/include/escape/escape.h:121-251 | the escaping loop writes the escaped text of the whole string |
| `Escape.UnescapeStr` | src/include/escape/escape.h:269-391 | the unescaping loop succeeds exactly when every escape is readable, and then gives the unescaped text |
| `Escape.UnescapeChar` | src/include/escape/escape.h:60-89 | the escape of one character reads back as that character whatever follows it |
| `Escape.UnescapeEscaped` | src/include/escape/escape.h:121-391 | unescaping an escaped string gives the string back, with HTML characters escaped or not |
| `Escape.EscapedClean` | src/include/escape/escape.h:60-108 | with HTML escaping no angle bracket is left, with `\\u` escaping only printable ASCII |
| `Escape.EscapedPlain` | src/include/json/constructor.h:121-146 | escaped text without a backslash is the string itself, so the printer and the constructor that skips unescaping agree |
| `Escape.StandardEscapes` | src/include/escape/escape.h:42-58 | the eight two-character escapes of section 7 of RFC 8259 stand for its characters |
| `Escape.EscapedExactly` | src/include/escape/escape.h:60-108 | exactly which characters are written as escapes, for each print mode |
| `Escape.KnownUnicode` | src/include/escape/escape.h:269-391 | escapes of one and of two units give the UTF-8 bytes of their characters |
| `Escape.Completed` | src/include/escape/escape.h:269-391 | a text cut short in a letter that can be read with something behind it can be read with noughts behind it, or none |
| `JsonMachine.StepDescends` | src/include/json/parser.h:777-870 | every step of the parser lowers a measure made of the unread characters and a rank of the state, although one character may be put back |
| `JsonMachine.RunHalts` | src/include/json/parser.h:955-972 | every call of `parse` on a finite buffer comes to a halt |
| `JsonMachine.StepsBounded` | src/include/json/parser.h:777-972 | the number of steps of a call is at most linear in the characters available |
| `JsonMachine.BodyIs` | src/include/json/constructor.h:121-173 | the range given to the string constructors is the text between the quotes |
| `JsonMachine.WhiteSpace` | src/include/json/parser.h:407-420 | white space is that of section 2 of RFC 8259 |
| `JsonSplit.StepReceive` | src/include/json/parser.h:777-870 | a step that can be taken now is the same step when more text has arrived |
| `JsonSplit.RunReceive` | src/include/json/parser.h:955-972 | running, receiving more text and running again ends where running on all of it ends |
| `JsonSplit.SplitIndependence` | src/include/json/parser.h:407-972 | a text fed in any pieces leaves the same outcome, position, nest stack and value stack as the text fed whole |
| `JsonAccept.RunSpaces` | src/include/json/parser.h:407-418 | any white space is skipped and the state behind it is entered |
| `JsonAccept.RunString` | src/include/json/parser.h:555-588 | a string of the grammar is read to its closing quote and its value pushed |
| `JsonAccept.RunNumber` | src/include/json/parser.h:440-553 | a number of the grammar followed by a character that ends it is read exactly, is an integer token if and only if it has no fraction and no exponent, and its value is made from exactly its text |
| `JsonAccept.RunLiteral` | src/include/json/parser.h:809-844 | `true`, `false` and `null` are read and push their value |
| `JsonAccept.RunElems` | src/include/json/parser.h:590-661 | the elements of an array, with or without one trailing comma, are read and collected in order |
| `JsonAccept.RunMembers` | src/include/json/parser.h:663-775 | the members of an object are read and collected in order, without a trailing comma |
| `JsonAccept.RunValue` | src/include/json/parser.h:362-775 | every text of the grammar is read to its end and its value is pushed |
| `JsonSound.ReadNumber` | src/include/json/parser.h:440-553 | where the parser gets through a number, the text it went over is a number of the grammar |
| `JsonSound.ReadValue` | src/include/json/parser.h:362-775 | from any position where a value may start, the parser either never ends or has read a text of the grammar with its value |
| `JsonSound.Completeness` | src/include/json/parser.h:362-972 | every accepted text is read to exactly its end with an empty nest stack and its value alone on the value stack |
| `JsonSound.Soundness` | src/include/json/parser.h:362-972 | whenever the parser reports the end, what it consumed is a text of the grammar and the stack holds its value |
| `JsonSound.ExactLanguage` | src/include/json/parser.h:362-972 | the parser reports the end if and only if the buffer starts with a text of the grammar whose escapes can all be read: sections 2 to 7 of RFC 8259, one trailing comma in arrays, and strings in which a backslash takes any next byte; a string such as one with an incomplete `u` escape is scanned but has no value and is refused |
| `JsonReport.CompleteText` | src/include/json/parser.h:924-953 | on a complete text the parser reports the end if and only if the text starts with an accepted one, asks for more if and only if the text is cut off in a literal behind its first letter and something too short, and reports an error on every other text |
| `JsonReport.LiteralOpenIs` | src/include/json/parser.h:809-835 | being behind the first letter of a literal is a property of the text: some continuation is accepted, and every accepted one goes on with the rest of the literal |
| `JsonReport.CutLiteral` | src/include/json/parser.h:809-812 | on the complete text `tr` the parser asks for more, and on `t`, `[` and the empty text it reports an error |
| `JsonReport.ErrorIsFinal` | src/include/json/parser.h:924-953 | an error on a text that may go on means that no continuation starts with an accepted text |
| `JsonReport.MoreIsAskedFor` | src/include/json/parser.h:945-951 | as long as more text can help, the parser asks for it |
| `JsonReport.CloseAll` | src/include/json/parser.h:252-972 | a finished value followed by the missing brackets ends the whole value |
| `JsonShape.RightKindBelow` | src/include/json/constructor.h:266-284 | when an element or a field is added, the array, or the object and its key, are at their places on the value stack |
| `JsonShape.StepShape` | src/include/json/parser.h:873-912 | every step keeps the value stack as the nest stack and the state prescribe |
| `JsonShape.StackShape` | src/include/json/parser.h:252-972 | in every history of steps and arriving text every configuration has that shape |
| `JsonParser.Reader.PopNext` | src/include/json/parser.h:1259-1261 | the next byte and an advance, or a zero and no advance at the end |
| `JsonParser.Reader.Consume` | src/include/json/parser.h:1268-1279 | the rest of a literal is consumed if it is there, and nothing otherwise |
| `JsonParser.Reader.InitInteger` | src/include/json/constructor.h:175-221 | an integer token pushes the value of its text, or fails and pushes nothing |
| `JsonParser.FinishIs` | src/include/json/parser.h:1290-1296 | the range of a number ends before the character that was put back, so the value is made from exactly its text |
| `JsonParser.Reader.AddArrayElement` | src/include/json/constructor.h:266-273 | the top value becomes the last element of the array below it |
| `JsonParser.Reader.AddObjectField` | src/include/json/constructor.h:275-284 | the top value is put into the object below, under the key between them, unless the key is there |
| `JsonParser.Reader.PopState` | src/include/json/parser.h:1353-1360 | the last pushed state, or `start` from an empty stack |
| `JsonParser.Parser.constructor` | src/include/json/parser.h:336-345 | a new parser is the machine in its initial configuration |
| `JsonParser.Parser.GetNext` | src/include/json/parser.h:341-344 | the put-back character or the next one; at the end of a piece a zero and no change |
| `JsonParser.Parser.MaySkipSpace` | src/include/json/parser.h:407-418 | only white space is skipped, all of it, and the first other character is put back |
| `JsonParser.Parser.NextStart` | src/include/json/parser.h:362-405 | one machine step from `start` |
| `JsonParser.Parser.ParseNumberToken` | src/include/json/parser.h:440-553 | one machine step in every number state, with the push-back of the character behind the number |
| `JsonParser.Parser.ParseStringToken` | src/include/json/parser.h:555-588 | one machine step in every string state; on a phantom zero at the end of a piece nothing changes |
| `JsonParser.Parser.ParseArrayState` | src/include/json/parser.h:590-661 | from every array state the parser settles where the machine does, and the measure falls |
| `JsonParser.Parser.ParseObjectState` | src/include/json/parser.h:663-775 | the same for every object state, with the count of readable characters that may be one too low |
| `JsonParser.Parser.LiteralState` | src/include/json/parser.h:809-844 | a literal is read as one machine step or asked for again |
| `JsonParser.Parser.MayEof` | src/include/json/parser.h:420-438 | at the end of the text the parser settles where the machine does, numbers included |
| `JsonParser.Parser.NextImpl` | src/include/json/parser.h:777-870 | the loops of `next_impl` settle exactly where the machine settles |
| `JsonParser.Parser.EnterNest` | src/include/json/parser.h:873-884 | entering a nested value is the machine step, and refused elsewhere |
| `JsonParser.Parser.LeaveNest` | src/include/json/parser.h:886-912 | leaving a nested value is the machine step, and an error at the outermost level |
| `JsonParser.Parser.Next` | src/include/json/parser.h:924-953 | `next` settles the machine and reports end, nesting, or what `parse` reports in that configuration |
| `JsonParser.Parser.Parse` | src/include/json/parser.h:955-972 | `parse` reports the outcome of the whole machine run and leaves its configuration, with the state failed after a success |
| `JsonParser.Parser.Receive` | src/include/json/parser.h:234-239 | arriving text extends the buffer and nothing else |
| `JsonPrinter.Stringer.WriteIndent` | src/include/json/stringer.h:211-228 | the indentation of the current depth, or nothing right behind a colon |
| `JsonPrinter.Stringer.EndBlock` | src/include/json/stringer.h:253-262 | a closing bracket on a line of its own when the block had elements, one level up |
| `JsonPrinter.Stringer.StringValue` | src/include/json/stringer.h:450-472 | the quoted escaped string behind the indentation |
| `JsonPrinter.Stringer.Number` | src/include/json/stringer.h:390-402 | the decimal digits behind the indentation |
| `JsonPrinter.Stringer.Array` | src/include/json/stringer.h:61-132 | brackets, commas, line breaks and elements as the grammar tree of the array prescribes, and the depth as before |
| `JsonPrinter.Stringer.Object` | src/include/json/stringer.h:61-132 | the same for keys, colons and values of an object |
| `JsonPrinter.Stringer.Value` | src/include/json/to_string.h:37-93 | the recursive printer appends the text of a grammar tree of the value |
| `JsonRoundTrip.TreeOk` | src/include/json/to_string.h:37-93 | what is printed is a text of the grammar |
| `JsonRoundTrip.TreeValue` | src/include/json/to_string.h:37-93 | the grammar value of the printed text is the printed value, but for least integers |
| `JsonRoundTrip.RereadSame` | src/include/json/constructor.h:175-221 | reading back changes a value if and only if it holds the least 64-bit integer |
| `JsonRoundTrip.ReadsPrinted` | src/include/json/parser.h:362-972 | the parser reads printed text to its end whatever follows, and leaves the reread value |
| `JsonRoundTrip.RoundTrip` | src/include/json/to_string.h:37-93 | parsing the printed text leaves exactly the printed value if and only if it does not hold the least 64-bit integer |
| `JsonRoundTrip.BareNumber` | src/include/json/parser.h:420-438 | a number that ends with the text never ends well: it is tagged `number`, which the constructor rejects |
| `JsonEndToEnd.ParsePieces` | src/include/json/parser.h:955-972 | the parser object called after each piece builds the values of the whole text, and reports the end, an error or a request for more as the text alone decides, complete or not |
| `JsonEndToEnd.ParseEach` | src/include/json/parser.h:955-972 | the calls report the outcome, and build the values, of the machine on the whole text |
| `JsonEndToEnd.Print` | src/include/json/to_string.h:23-94 | the printer object writes the text of the round trip, in the layout below |
| `JsonLayout.Layout` | src/include/json/stringer.h:200-262 | in every printed text each line break outside strings is followed by one indentation for each bracket open there, one fewer before a closing bracket, and every element and closing bracket begins a line; no line break without indentation; a space behind a colon exactly if asked for; and no white space when none is asked for |
| `JsonEndToEnd.PrintAndParse` | src/include/json/to_string.h:23-94 | printed text that arrives in any pieces is parsed to the printed value, if and only if it holds no least integer |
| `CancelableLock.StepRoles` | src/include/fnet/sock_internal.h:76-133 | at most one operation holds the lock, at most one interrupt is in it, and the lock word says so |
| `CancelableLock.StepTickets` | src/include/fnet/sock_internal.h:76-133 | a counter value that is a ticket belongs to the operation that holds the lock, or to one between the two accesses of its `unlock` |
| `CancelableLock.RunSafe` | src/include/fnet/sock_internal.h:76-133 | every interleaving of every number of agents keeps the invariant, as long as no `try_lock` wins while an uncancelled ticket is between the two accesses of its `unlock` |
| `CancelableLock.CancelSafety` | src/include/fnet/sock_internal.h:76-133 | the log of every run is a sequence of operations with growing tickets, each cancelled at most once and only before it is freed |
| `CancelableLock.CancelWhileHolding` | src/include/fnet/sock_internal.h:99-112 | while a cancel callback runs, the operation with that ticket holds the lock and its `unlock` cannot succeed |
| `CancelableLock.InterruptCancels` | src/include/fnet/sock_internal.h:99-112 | an `interrupt` of a held lock runs the callback, and logs its begin and end, if and only if its code is the current ticket, which then belongs to the holder; the lock is held again afterwards |
| `CancelableLock.InterruptAlwaysCancels` | src/include/fnet/sock_internal.h:99-133 | the same in every interleaving with other agents, when nobody is between the two accesses of `unlock` |
| `CancelableLock.OperationRuns` | src/include/fnet/sock_internal.h:76-133 | an operation on a free lock takes it with a new ticket and gives it back |
| `CancelableLock.FailedCalls` | src/include/fnet/sock_internal.h:76-112 | a `try_lock` of a lock that is not free and an `interrupt` of one that is not held change nothing |
| `CancelableLock.CancelOnce` | src/include/fnet/sock_internal.h:99-112 | no ticket is cancelled twice, and none after its operation was freed |
| `CancelableLock.UnlockNeverFails` | src/include/fnet/sock_internal.h:123-133 | the holder never finds the lock unlocked, so `unlock` never returns its error |
| `CancelableLock.InterruptEnds` | src/include/fnet/sock_internal.h:99-133 | whoever interrupts gives the lock back in at most four steps of its own, so the retry loop of `unlock` is not stuck |
| `CancelableLock.RuleNeeded` | src/include/fnet/sock_internal.h:114-133 | the rule is exact: in every reachable state where it forbids a `try_lock`, one winning there lets the old ticket cancel during the new operation |
| `CancelableLock.RuleFails` | src/include/fnet/sock_internal.h:114-133 | such a state and such a run, step by step: the first operation between the two accesses of its `unlock`, then a second `try_lock` and an interrupt with the first ticket |
| `CancelableLock.OneCallRule` | src/include/fnet/sock_internal.h:114-122 | the one-socket-one-call rule of the source keeps to that rule |
| `MultiLock.StepValid` | src/include/helper/lock.h:23-57 | every step keeps each mutex with exactly the thread whose phase says it holds it |
| `MultiLock.RunValid` | src/include/helper/lock.h:23-71 | the same over every run of any number of threads |
| `MultiLock.MutualExclusion` | src/include/helper/lock.h:61-71 | a thread whose `lock` returned holds all mutexes, and no other thread is inside |
| `MultiLock.BlocksEmptyHanded` | src/include/helper/lock.h:42-51 | a thread that blocks, whose attempt failed or that has released holds no mutex |
| `MultiLock.NoSelfDeadlock` | src/include/helper/lock.h:23-40 | `try_lock` is only called on mutexes the thread does not hold, `unlock` only on ones it does |
| `MultiLock.NoDeadlock` | src/include/helper/lock.h:53-57 | in no reachable state is every unfinished thread blocked |
| `MultiLock.SoloLock` | src/include/helper/lock.h:42-57 | a thread that runs alone, with no mutex held by others, takes all of them in as many steps as there are |
| `MultiLock.SoloUnlock` | src/include/helper/lock.h:60-67 | a thread that has them all and runs alone has given all of them back one step after as many |
| `MultiLock.SoloRetry` | src/include/helper/lock.h:24-57 | a thread that finds a mutex taken gives back what it holds and then waits for the next one in the circle |
| `MultiLock.CycleIsMod` | src/include/helper/lock.h:25-30 | the next mutex is the next index modulo the number of mutexes |
| `X64.DecodeEncode` | src/include/jit/x64.h:33-172 | a decoder after the processor manual reads an emitted instruction and its length back, whatever follows, if and only if a load base is one of the first eight registers and a store base does not end in 4 or 5 |
| `X64.DecodeEncodeAll` | src/include/jit/x64.h:33-172 | the bytes of a list of such instructions decode to that list |
| `X64.WordRoundTrip` | src/include/jit/x64.h:108-113 | an immediate written in little-endian order reads back |
| `X64.KnownMoves` | src/include/jit/x64.h:72-81 | the bytes of a move between registers, low and high, are those of the processor manual |
| `X64.KnownStores` | src/include/jit/x64.h:72-85 | the same for a store |
| `X64.KnownLoads` | src/include/jit/x64.h:87-106 | the same for a load, also from the stack pointer |
| `X64.KnownStack` | src/include/jit/x64.h:115-172 | the same for push, pop, call and return |
| `X64.KnownImmediate` | src/include/jit/x64.h:108-113 | the same for an immediate |
| `X64.SameShapeSize` | src/include/jit/x64_coroutine.h:137-178 | immediates do not change the size of code |
| `X64.PatchBlock` | src/include/jit/x64_coroutine.h:137-178 | overwriting one block of assembled code by one of its size changes that block alone |
| `X64Machine.RunStraight` | src/include/jit/x64.h:72-172 | a machine that decodes bytes at its instruction pointer has, on the bytes of a list, the effect of the list |
| `X64Machine.RunReturn` | src/include/jit/x64.h:146-148 | the same for a list that ends in a return |
| `X64Machine.RunCall` | src/include/jit/x64.h:167-172 | the same for a list that ends in a call, which pushes the address behind it |
| `X64Coroutine.SaveHostActs` | src/include/jit/x64_coroutine.h:48-60 | the host RSP and RBP are put into their slots |
| `X64Coroutine.LoadFrameActs` | src/include/jit/x64_coroutine.h:66-79 | stack pointers and address of the parked frame are loaded, the argument is in RAX |
| `X64Coroutine.SaveFrameActs` | src/include/jit/x64_coroutine.h:95-123 | the running frame is parked in its three slots |
| `X64Coroutine.LoadHostActs` | src/include/jit/x64_coroutine.h:83-92 | the stack pointers of the host are restored |
| `X64Coroutine.ResetFrameActs` | src/include/jit/x64_coroutine.h:102-113 | the stack pointers of the next start are parked |
| `X64Switch.Enter` | src/include/jit/x64_coroutine.h:34-81 | fifteen steps from the entry: the parked frame runs, with the argument in RAX and the host parked |
| `X64Switch.Suspend` | src/include/jit/x64_coroutine.h:193-203 | fifteen steps from the suspend routine: the host runs behind its call, and the coroutine is parked at the resume routine |
| `X64Switch.Resume` | src/include/jit/x64_coroutine.h:204-204 | the resume routine returns from the suspend call |
| `X64Switch.Start` | src/include/jit/x64_coroutine.h:208-230 | six steps from the initial address: the trampoline is called with suspend routine, argument, function and stack bottom |
| `X64Switch.Finish` | src/include/jit/x64_coroutine.h:231-235 | sixteen steps behind the call: the host runs behind its call and the next entry starts anew |
| `X64Life.EnterContinues` | src/include/jit/x64_coroutine.h:34-81 | in every state of a life an entry runs without fault to where the coroutine goes on, with the new argument |
| `X64Life.SuspendReturns` | src/include/jit/x64_coroutine.h:193-203 | a suspension returns to the host with its stack pointers; the suspend argument is in RAX if and only if the branch is the Windows one or RAX already held it |
| `X64Life.EndReturns` | src/include/jit/x64_coroutine.h:231-235 | the end of the routine returns to the host with the result in RAX |
| `X64Life.NextInv` | src/include/jit/x64_coroutine.h:34-243 | every entry, suspension, end and every work of either side that respects the slots keeps the invariant |
| `X64Life.EveryCallReturns` | src/include/jit/x64_coroutine.h:34-243 | in every life each call of the entry comes back behind itself with the RSP and RBP it was made with |
| `X64Life.EverySuspensionResumes` | src/include/jit/x64_coroutine.h:34-243 | in every life each suspension that is entered again comes back behind itself with its RSP and RBP and the new argument in RAX |
| `X64Generator.Writer.WriteNum` | src/include/jit/x64.h:108-113 | a 64-bit number is written in little-endian order |
| `X64Generator.Writer.Emit` | src/include/jit/x64.h:72-172 | each emitter writes the bytes of its instruction |
| `X64Generator.RelocateOnlyImmediates` | src/include/jit/x64_coroutine.h:137-178 | a relocation keeps all bytes outside its range and changes only immediates inside |
| `X64Generator.Relocate` | src/include/jit/x64_coroutine.h:137-178 | each kind of relocation writes its instructions or its stack slot, and the asserted end offset is met |
| `X64Generator.RelocationsFit` | src/include/jit/x64_coroutine.h:190-243 | the five relocations of a program rewrite exactly the bytes of their ranges |
| `X64Generator.WriteCoroutine` | src/include/jit/x64_coroutine.h:190-243 | the unlinked program is appended, the first frame put into its slots, and the offsets of all five relocations are right |
| `X64Generator.Install` | src/include/jit/x64_coroutine.h:137-243 | writing and then relocating gives the program linked for its address |
| `X64Generator.InstalledIsReady` | src/include/jit/x64_coroutine.h:34-243 | a machine with the installed bytes and stack satisfies the invariant of a coroutine that was not entered yet |
| `LocText.KeptPosition` | src/include/code/loc_writer.h:185-258 | a recorded position keeps its place in the text without indentation when the writer goes on |
| `LocText.HereIsEnd` | src/include/code/loc_writer.h:88-99 | the end of a scope is recorded at the end of the text if and only if no line with content was just ended |
| `LocText.MergePlain` | src/include/code/loc_writer.h:222-258 | merging concatenates the texts without indentation |
| `LocText.MergeKeeps` | src/include/code/loc_writer.h:222-258 | merging keeps `line_count_` one more than the number of ended lines, and the ended lines and entries of this writer |
| `LocText.MergedPosition` | src/include/code/loc_writer.h:245-257 | a position of the other writer, shifted, has the same distance from the start of the other text |
| `LocText.MergedInside` | src/include/code/loc_writer.h:245-257 | a position inside a line of the other writer is, shifted, inside that line of the merged one |
| `LocText.WritesKeepLevels` | src/include/code/loc_writer.h:47-54 | writing and ending lines keep every indentation level; an opened line has the current one |
| `LocText.BareLevel` | src/include/code/loc_writer.h:112-122 | a line written without indentation has level zero, and the level is as before afterwards |
| `LocText.ShallowerLevels` | src/include/code/loc_writer.h:129-148 | ending an indentation moves only an open line without content |
| `LocText.MergedLevels` | src/include/code/loc_writer.h:222-244 | merged lines are deeper by the current level, unless never indented or joined to a line with content |
| `LocScript.ScriptText` | src/include/code/loc_writer.h:68-258 | for every nesting of writes, indents, scopes and merges the text without indentation is what was written, in order |
| `LocScript.EntriesRight` | src/include/code/loc_writer.h:68-258 | every entry of every nesting of scopes, indents and merges begins where the nesting says, and ends there if and only if its own scope does not end right after the end of a line with content |
| `LocScript.SourceMap` | src/include/code/loc_writer.h:68-258 | the whole source map lies exactly where the nesting says, if and only if no scope ends right after the end of a line with content |
| `LocScript.SourceMapFails` | src/include/code/loc_writer.h:93-98 | a scope around one written line is recorded one character behind the end of the text |
| `LocScript.EntryText` | src/include/code/loc_writer.h:68-258 | every entry, however nested or merged, selects the text written in its scope, if and only if its own end is in a line |
| `LocScript.LocatedText` | src/include/code/loc_writer.h:88-99 | a scope whose own end is in a line selects exactly the text written in it, whatever is written or merged later |
| `LocWriter.DisplayedText` | src/include/code/loc_writer.h:318-384 | two positions on one line cut the same text out of the indented text as out of the line |
| `LocWriter.EntryDisplayed` | src/include/code/loc_writer.h:318-384 | every entry on one line, also one that came from a merged writer: its offsets cut exactly the text of its scope out of `to_string`, for every indentation string |
| `LocWriter.DisplayConcat` | src/include/code/loc_writer.h:318-330 | the indented text of two parts is the two texts in order |
| `LocWriter.DisplayDeeper` | src/include/code/loc_writer.h:318-330 | a line one level deeper has exactly one more indentation in front, and none at level zero |
| `LocWriter.Writer.constructor` | src/include/code/loc_writer.h:57-57 | a new writer is the empty document |
| `LocWriter.Writer.Reset` | src/include/code/loc_writer.h:59-64 | everything but the flag for unindented lines is emptied |
| `LocWriter.Writer.MaybeInitLine` | src/include/code/loc_writer.h:47-54 | a line is opened when there is none to write on |
| `LocWriter.Writer.Write` | src/include/code/loc_writer.h:68-79 | the text is appended to the open line |
| `LocWriter.Writer.EndLine` | src/include/code/loc_writer.h:101-105 | the open line is ended and counted |
| `LocWriter.Writer.WriteBareLine` | src/include/code/loc_writer.h:112-122 | a whole line without indentation, after which the indentation is as before |
| `LocWriter.Writer.OpenScope` | src/include/code/loc_writer.h:88-92 | a scope starts at the position that is written next |
| `LocWriter.Writer.CloseScope` | src/include/code/loc_writer.h:93-98 | the entry from the start to the recorded end is appended |
| `LocWriter.Writer.OpenIndent` | src/include/code/loc_writer.h:137-138 | lines begun from here on are deeper by the given steps; lines already begun stay |
| `LocWriter.Writer.CloseIndent` | src/include/code/loc_writer.h:129-148 | the indentation goes back, not below zero, and an open empty line moves with it |
| `LocWriter.Writer.MergeCopy` | src/include/code/loc_writer.h:222-258 | both loops of the merge give the merged document |
| `LocWriter.Writer.MergeMove` | src/include/code/loc_writer.h:185-220 | the same, and the other writer is reset |
| `LocWriter.Writer.ToString` | src/include/code/loc_writer.h:318-330 | the loops give the indented text |
| `LocWriter.Writer.OffsetOf` | src/include/code/loc_writer.h:364-384 | the index of the position in the indented text, zero behind the last line, clamped behind the end of a line |
| `Ring.RingQue.SetQue` | src/include/coro/ring.h:44-56 | an empty ring over the new buffer |
| `Ring.RingQue.FullOrEmpty` | src/include/coro/ring.h:68-74 | the flag tells a full ring from an empty one: `block` and `empty` are exact |
| `Ring.RingQue.Push` | src/include/coro/ring.h:58-66 | appends to the queue if and only if there is room, over the wrap-around |
| `Ring.RingQue.Pop` | src/include/coro/ring.h:76-85 | takes the oldest element, or returns nothing from an empty ring |
| `Ring.RingQue.Steal` | src/include/coro/ring.h:87-99 | moves the oldest elements in order, as many as asked for and there, and leaves the stored size alone |
| `Ring.RingQue.Size` | src/include/coro/ring.h:105-107 | `size` is the number of stored elements plus those stolen since the buffer was set |
| `Ring.RunsInOrder` | src/include/coro/ring.h:26-99 | over every run of a bounded queue what left and what is there is what entered, in order |
| `Ring.Drive` | src/include/coro/ring.h:44-99 | any list of pushes, pops and steals on a ring gives the contents and the elements of the bounded queue |
| `Ring.Platform.FetchTasks` | src/include/coro/coro_platform.h:43-51 | the longest prefix of idle tasks without a missing one that fits is moved to the running ring, in order |
| `Ring.FetchKeepsTasks` | src/include/coro/coro_platform.h:43-51 | both rings together hold the same tasks in the same order as before |
| `StreamReader.Reader.Enlarge` | src/include/binary/contract.h:20-55 | a handler that meets the contract keeps the buffered bytes and appends the next ones |
| `StreamReader.Reader.ReadBest` | src/include/binary/reader.h:100-109 | the next bytes of the stream, as many as have come, at most the number asked for |
| `StreamReader.Reader.ReadExact` | src/include/binary/reader.h:111-119 | exactly the number asked for when so many have come, or the position is unchanged |
| `StreamReader.Reader.Skip` | src/include/binary/reader.h:280-283 | the position moves as a read would move it |
| `StreamReader.Reader.LoadStream` | src/include/binary/reader.h:288-291 | more may be buffered, the position stays, and the answer says if there is enough |
| `StreamReader.Reader.Top` | src/include/binary/reader.h:491-494 | the next byte of the stream, or zero |
| `StreamReader.Reader.Discard` | src/include/binary/reader.h:265-271 | the buffer is shortened in place by what the handler chooses at this call and the position in the stream is unchanged; refused beyond the offset or without a stream |
| `StreamReader.Reader.MoveDown` | src/include/binary/contract.h:82-96 | the overlapping copy moves the rest of the buffer down |
| `StreamReader.Reader.ReadUntilEof` | src/include/binary/reader.h:471-489 | what is collected is the stream from the position on, all of it when the handler always gives something; read bytes are discarded exactly if asked for |
| `StreamReader.StepReturns` | src/include/binary/reader.h:83-291 | what each operation on a stream may return: exactly or at most the number asked for, something while there is something when the handler always gives something, and the same bytes skipped as read |
| `StreamReader.ExactRead` | src/include/binary/reader.h:83-119 | a read of exactly some bytes is refused, and a load reports too few, if and only if the bytes there and those that the one call of the handler brings are fewer or the stream ends before; otherwise these bytes are given |
| `StreamReader.ExactAtEnd` | src/include/binary/reader.h:83-119 | with a handler that brings what is missing, or all bytes there, only the end of the stream refuses |
| `StreamReader.BestRead` | src/include/binary/reader.h:100-109 | how many bytes a read or a skip goes over |
| `StreamReader.PeekRead` | src/include/binary/reader.h:491-494 | a peek gives the next byte if and only if there is one to be had |
| `StreamReader.StepCalls` | src/include/binary/reader.h:83-89 | the handler is called exactly when the buffer cannot meet the request, and only discards drop bytes |
| `StreamReader.ForgetsAll` | src/include/binary/reader.h:258-271 | a handler that drops what it is asked to forgets all that was read |
| `StreamReader.GenerousIsMemory` | src/include/binary/reader.h:83-291 | with a handler that brings what is missing, every list of reads, skips, loads and peeks returns what it returns on the same bytes in memory |
| `StreamReader.EagerProgress` | src/include/binary/reader.h:83-109 | with such a handler a read gives nothing only at the end of the stream |
| `StreamReader.Transparent` | src/include/binary/reader.h:83-291 | the bytes that a run of operations goes over are one consecutive slice of the stream |
| `StreamReader.DiscardsInvisible` | src/include/binary/reader.h:258-271 | without its discards a run returns the same from every other operation and ends at the same position |
| `StreamReader.Reader.PerformAll` | src/include/binary/reader.h:83-291 | any list of reads, skips, loads, peeks and discards returns, operation by operation, what the stream without a buffer returns, ends where that ends, discards are invisible, and with a handler that brings what is missing the stream cannot be told from memory |
| `Leb128.ReadUint` | src/include/binary/leb128.h:15-36 | reads up to the first byte without the continuation bit, never more than the width needs, and gives the value modulo the width |
| `Leb128.WriteUint` | src/include/binary/leb128.h:39-53 | writes the shortest encoding, or as much as there is room for and reports it |
| `Leb128.LenUint` | src/include/binary/leb128.h:56-65 | the length is the number of bytes written |
| `Leb128.UintRoundTrip` | src/include/binary/leb128.h:15-53 | reading what was written gives the number and goes over exactly its bytes, whatever follows |
| `Leb128.EncodeMinimal` | src/include/binary/leb128.h:39-65 | no bytes that stand for the number are fewer |
| `Leb128.ReadInt` | src/include/binary/leb128.h:68-96 | the same reader with the sign extended from the last byte when there is room above it |
| `Leb128.WriteInt` | src/include/binary/leb128.h:99-124 | the loop of logical shifts and shifted-in ones writes the shortest signed encoding |
| `Leb128.IntRoundTrip` | src/include/binary/leb128.h:68-124 | reading what was written gives the signed number and goes over exactly its bytes, whatever follows |
| `Leb128.EncodeIntMinimal` | src/include/binary/leb128.h:99-124 | no signed bytes that stand for the number are fewer |
| `Leb128.KnownBytes` | src/include/binary/leb128.h:43-124 | the examples of the DWARF standard, byte by byte |
| `Leb128.ReadWithin` | src/include/binary/leb128.h:18-37 | a number is read if and only if one of the first five bytes, or ten for 64 bits, is without the continuation bit |
| `BitFlags.IsSeparated` | src/include/binary/flags.h:20-41 | false if and only if the ones of the word form a single, possibly empty, run |
| `BitFlags.IsFlagMasks` | src/include/binary/flags.h:48-51 | true if and only if the ones of every mask form a single run |
| `BitFlags.Flags.constructor` | src/include/binary/flags.h:74-100 | the masks made from the widths meet the static check that none is separated, and all fields are zero |
| `BitFlags.LowestBit` | src/include/binary/flags.h:56-60 | a word and its negation have exactly the lowest one in common |
| `BitFlags.MaskShift` | src/include/binary/flags.h:56-66 | the place of the lowest one, or zero |
| `BitFlags.OneBitMask` | src/include/binary/flags.h:69-72 | a mask is a single bit if and only if its field has width one |
| `BitFlags.InitMasks` | src/include/binary/flags.h:181-197 | the masks are runs of the given widths from the highest bit down |
| `BitFlags.MasksDisjoint` | src/include/binary/flags.h:181-197 | no bit belongs to two fields |
| `BitFlags.MasksCover` | src/include/binary/flags.h:181-197 | every used bit belongs to a field |
| `BitFlags.LimitOfMask` | src/include/binary/flags.h:113-117 | the limit of a field is the largest number of its width |
| `BitFlags.Flags.SetValue` | src/include/binary/flags.h:120-139 | within the limit the field reads back and all other fields and bits are unchanged; beyond it nothing changes |
| `BitFlags.Flags.GetValue` | src/include/binary/flags.h:142-152 | the number in the bits of the field |
| `StunMessage.UnpackPacked` | src/include/fnet/stun.h:125-177 | a packed address, plain or with the exclusive or, is unpacked whatever follows |
| `StunMessage.AttributesBack` | src/include/fnet/stun.h:60-91 | written attributes are read back one by one |
| `StunMessage.HandleResponse` | src/include/fnet/stun.h:340-385 | the attribute loop finds what the first address attribute says, and each failure of header, length and type |
| `StunMessage.ResponseGivesAddress` | src/include/fnet/stun.h:340-385 | a response whose first address attribute is packed gives that address, whatever stands around it |
| `StunMessage.RequestBack` | src/include/fnet/stun.h:178-202 | a server reads in the bytes of a request exactly the change that the client asked for |
| `StunMessage.XorBit` | src/include/fnet/stun.h:137-148 | the exclusive or, bit by bit |
| `StunMessage.KnownResponse` | src/include/fnet/stun.h:340-385 | a response with the sample address attribute of RFC 5769, byte by byte, means 192.0.2.1, port 32853 |
| `StunMessage.UnpackOdd` | src/include/fnet/stun.h:152-177 | a first byte that is not zero is not refused: no family is read, and port and address follow that byte |
| `Stun.Context.MakeRequest` | src/include/fnet/stun.h:288-337 | a round trip exactly when the decision diagram asks for another test and none is awaited, with the bytes of the request for that test; no change elsewhere |
| `Stun.Context.HearNothing` | src/include/fnet/stun.h:388-414 | a missing answer is taken as the decision diagram says, and rejected when none is awaited |
| `Stun.Context.HearMessage` | src/include/fnet/stun.h:417-466 | the bytes of a reply are taken as the decision diagram says, whatever was in the address they are read over; an unusable one ends the first two tests and leaves the others waiting |
| `Stun.AnswersFollow` | src/include/fnet/stun.h:388-466 | in every sequence of calls, an awaited missing reply adds a silent answer, an awaited usable reply one with its address, and nothing else adds any |
| `Stun.UnusableReplies` | src/include/fnet/stun.h:340-385 | which failure a reply gives, from its bytes alone |
| `Stun.ShortAddress` | src/include/fnet/stun.h:358-381 | a first address attribute that is too short makes the reply unusable, whatever comes after it |
| `Stun.SecondSilent` | src/include/fnet/stun.h:401-404 | no answer to test I the second time ends the discovery without a kind |
| `Stun.ResultCounts` | src/include/fnet/stun.h:288-467 | in every sequence of calls there are at most four round trips, and `done` comes once if the diagram knows the kind of NAT and never otherwise |
| `Stun.RefusedAfterEnd` | src/include/fnet/stun.h:288-467 | after `done`, after a disconnection, and after an unusable reply to the first or second test every call is refused |
| `Stun.Discover` | src/include/fnet/stun.h:288-467 | over every sequence of calls and message bytes the client returns and sends what following the diagram of section 10.1 of RFC 3489 returns and sends, and finds the kind of NAT that the diagram gives on the answers these calls brought |
| `StunNat.SameIsEqual` | src/include/fnet/stun.h:107-123 | address records compare equal if and only if they stand for the same address and port |
| `StunNat.SameAddresses` | src/include/fnet/stun.h:107-123 | two records of a known family compare equal if and only if family, port and the 4 or 16 address bytes agree |
| `StunNat.NatFound` | src/include/fnet/stun.h:288-467 | for every network given by its mapping and its filter, every server and every choice of where test I is repeated, the diagram ends with the kind that mapping and filter define in section 5 of RFC 3489 |
| `StunNat.FindKind` | src/include/fnet/stun.h:288-467 | the client object, talking to a server through such a network, finds that kind |
| `StunNat.SymmetricNeedsSecond` | src/include/fnet/stun.h:317-322 | a symmetric NAT is never found when test I is repeated at the same endpoint |

## Left out

- JSON: a fixed-capacity state or value stack with its overflow error, the stack observers, `skip_space`, undefined values, and the older one-shot parser; they add easy members or rest on code outside this model.
- JSON numbers with fraction or exponent, and integers that do not fit, are kept as their text: floating-point conversion is not part of this model.
- Escape.EscapeStr: does not model the replacement of bytes that are not valid UTF-8, nor the hexadecimal, octal and 32-bit escapes and the upper-case flag; with `\u` escapes it is stated for ASCII text, because UTF conversion is not part of this model.
- Escape.UnescapeStr: models the default flags, without 32-bit escapes; UTF-8 output and the replacement of unpaired surrogates are small definitions of this model, because the UTF conversion code is not part of it.
- JsonParser.Reader.PopNext: bytes are unsigned; a reader whose characters are signed gives values above the 24 bits that `prev_char` can hold for bytes from 0x80 on.
- JsonPrinter.Stringer.Number: prints integers as integers; the options that print them as strings or floating-point numbers are not modelled.
- CancelableLock.RunSafe: memory orders, wrap-around of the 64-bit ticket counter and fairness are not modelled; codes given to `interrupt` are tickets that were returned, because an arbitrary code may hit the counter before its ticket is given out, and `unlock` is called by the holder.
- MultiLock.NoDeadlock: is a safety statement; threads may undo each other's attempts for ever, as in the source.
- X64Machine.RunStraight: covers the eight instructions the coroutine code uses; code is executable and not writable, as the source makes it before running it, so stores never change code.
- X64Generator.Writer.Emit: the emitters for arithmetic, comparisons and jumps are not modelled, nor a code buffer that cannot grow.
- LocWriter: `write_unformatted`, which rests on line splitting outside this model, `adjust_with_indent`, and the counters that only add sizes.
- Ring.RingQue.Size: wrap-around of the size counter is not modelled. The wrapper that locks around every call is left out.
- StreamReader: direct reads and writes, `reset` beyond the buffer, cloning, moving and the storage of the handlers.
- Leb128.ReadInt: 8- and 16-bit types, whose all-ones test is made after promotion, and `len_leb128_int`, which returns a truth value, are not modelled.
- BitFlags.Flags.SetValue: fields have at least one bit; the enumeration wrappers are left out. Setting a single bit returns nothing in the source.
- Stun: the reported error code, and how the caller chooses transaction numbers and destinations.
- Stun.Context.HearMessage: tests II and III read a reply over a local address that has no initial value, which shows when the first byte of the attribute is not zero; the model takes that value as a parameter and is stated for every value of it.
- Sockets, files, name resolution, console, environment, graphics, HTML, error formatting and the storage of variants: input and output, or thin wrappers.
