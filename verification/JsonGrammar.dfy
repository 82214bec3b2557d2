/**
 The language the reader accepts, as syntax trees with a text and a value.

 The grammar is that of sections 2 to 7 of RFC 8259, widened in two places: an
 array may end in one comma (`EClose` after `TComma`), and a string body is any
 text in which a backslash takes the next character along.
 */
module JsonGrammar {
  import opened Common
  import opened JsonValue
  import opened JsonMachine

  datatype Exponent = NoExp | Exp(e: char, sign: string, digits: string)

  /** A number in its parts; an empty `frac` stands for no fraction. */
  datatype Num = Num(neg: bool, ip: string, frac: string, exp: Exponent)

  datatype Syntax =
    | SNull
    | STrue
    | SFalse
    | SStr(body: string)
    | SNum(num: Num)
    | SArr(elems: Elems)
    | SObj(fields: Members)

  /** What follows an opening bracket or a comma: white space and the closing
      bracket, or an element. */
  datatype Elems = EClose(ws: string) | EItem(ws: string, v: Syntax, ws2: string, tail: ElemTail)

  datatype ElemTail = TClose | TComma(rest: Elems)

  /** What follows an opening brace. */
  datatype Members = MEmpty(ws: string) | MFields(ws: string, first: Field)

  /** A key, its value, and what comes after. */
  datatype Field = Field(key: string, ws: string, ws2: string, v: Syntax, ws3: string, tail: FieldTail)

  datatype FieldTail = FClose | FComma(ws: string, next: Field)

  // ----- texts -----

  function ExpText(x: Exponent): string {
    match x case NoExp => "" case Exp(e, sign, digits) => [e] + (sign + digits)
  }

  function FracText(frac: string): string { if frac == "" then "" else "." + frac }

  function SignText(neg: bool): string { if neg then "-" else "" }

  function NumText(n: Num): string { SignText(n.neg) + (n.ip + FracText(n.frac) + ExpText(n.exp)) }

  function Quoted(body: string): string { "\"" + body + "\"" }

  function Text(t: Syntax): string {
    match t
    case SNull => "null"
    case STrue => "true"
    case SFalse => "false"
    case SStr(body) => Quoted(body)
    case SNum(n) => NumText(n)
    case SArr(elems) => "[" + ElemsText(elems)
    case SObj(fields) => "{" + MembersText(fields)
  }

  function ElemsText(e: Elems): string {
    match e
    case EClose(ws) => ws + "]"
    case EItem(ws, v, ws2, tail) => ws + (Text(v) + (ws2 + ElemTailText(tail)))
  }

  function ElemTailText(t: ElemTail): string {
    match t case TClose => "]" case TComma(rest) => "," + ElemsText(rest)
  }

  function MembersText(m: Members): string {
    match m
    case MEmpty(ws) => ws + "}"
    case MFields(ws, f) => ws + FieldText(f)
  }

  function FieldText(f: Field): string {
    Quoted(f.key) + (f.ws + (":" + (f.ws2 + (Text(f.v) + (f.ws3 + FieldTailText(f.tail))))))
  }

  function FieldTailText(t: FieldTail): string {
    match t case FClose => "}" case FComma(ws, next) => "," + (ws + FieldText(next))
  }

  // ----- well-formed trees -----

  predicate Spaces(s: string) { forall i | 0 <= i < |s| :: IsSpace(s[i]) }

  /** No quote but after a backslash, and no backslash at the end. */
  predicate BodyOk(s: string) {
    if s == "" then true
    else if s[0] == '\\' then |s| >= 2 && BodyOk(s[2..])
    else s[0] != '\"' && BodyOk(s[1..])
  }

  predicate IsSign(s: string) { s == "" || s == "+" || s == "-" }

  /** Section 6 of RFC 8259. */
  predicate NumOk(n: Num) {
    && AllDigits(n.ip) && n.ip != "" && (n.ip[0] == '0' ==> n.ip == "0")
    && AllDigits(n.frac)
    && (n.exp.Exp? ==>
          && (n.exp.e == 'e' || n.exp.e == 'E')
          && IsSign(n.exp.sign)
          && AllDigits(n.exp.digits) && n.exp.digits != "")
  }

  predicate Ok(t: Syntax) {
    match t
    case SStr(body) => BodyOk(body)
    case SNum(n) => NumOk(n)
    case SArr(elems) => ElemsOk(elems)
    case SObj(fields) => MembersOk(fields)
    case _ => true
  }

  predicate ElemsOk(e: Elems) {
    match e
    case EClose(ws) => Spaces(ws)
    case EItem(ws, v, ws2, tail) => Spaces(ws) && Ok(v) && Spaces(ws2) && ElemTailOk(tail)
  }

  predicate ElemTailOk(t: ElemTail) {
    match t case TClose => true case TComma(rest) => ElemsOk(rest)
  }

  predicate MembersOk(m: Members) {
    match m
    case MEmpty(ws) => Spaces(ws)
    case MFields(ws, f) => Spaces(ws) && FieldOk(f)
  }

  predicate FieldOk(f: Field) {
    BodyOk(f.key) && Spaces(f.ws) && Spaces(f.ws2) && Ok(f.v) && Spaces(f.ws3) && FieldTailOk(f.tail)
  }

  predicate FieldTailOk(t: FieldTail) {
    match t case FClose => true case FComma(ws, next) => Spaces(ws) && FieldOk(next)
  }

  /** The number cannot go on with `c`. A lone zero also ends before a digit. */
  predicate NumEnds(n: Num, c: char) {
    if n.exp.Exp? then !IsDigit(c)
    else if n.frac != "" then !IsDigit(c) && c != 'e' && c != 'E'
    else if n.ip == "0" then c != '.' && c != 'e' && c != 'E'
    else !IsDigit(c) && c != '.' && c != 'e' && c != 'E'
  }

  // ----- values -----

  predicate IsInteger(n: Num) { n.frac == "" && n.exp.NoExp? }

  function NumValue(n: Num): Json
    requires NumOk(n)
  {
    if IsInteger(n) then IntegerValue(n.neg, n.ip) else Float(NumText(n))
  }

  function BodyValue(body: string): Option<string> { StringValue('\\' in body, body) }

  /** The value of a tree; none if one of its strings has a bad escape. */
  function Value(t: Syntax): Option<Json>
    requires Ok(t)
  {
    match t
    case SNull => Some(Null)
    case STrue => Some(Bool(true))
    case SFalse => Some(Bool(false))
    case SStr(body) => (match BodyValue(body) case None => None case Some(s) => Some(Str(s)))
    case SNum(n) => Some(NumValue(n))
    case SArr(elems) => (match ElemsValue(elems, []) case None => None case Some(items) => Some(Arr(items)))
    case SObj(fields) => (match MembersValue(fields) case None => None case Some(fs) => Some(Obj(fs)))
  }

  function ElemsValue(e: Elems, acc: seq<Json>): Option<seq<Json>>
    requires ElemsOk(e)
  {
    match e
    case EClose(_) => Some(acc)
    case EItem(_, v, _, tail) =>
      match Value(v)
      case None => None
      case Some(x) => ElemTailValue(tail, acc + [x])
  }

  function ElemTailValue(t: ElemTail, acc: seq<Json>): Option<seq<Json>>
    requires ElemTailOk(t)
  {
    match t case TClose => Some(acc) case TComma(rest) => ElemsValue(rest, acc)
  }

  function MembersValue(m: Members): Option<seq<Entry>>
    requires MembersOk(m)
  {
    match m case MEmpty(_) => Some([]) case MFields(_, f) => FieldValue(f, [])
  }

  function FieldValue(f: Field, acc: seq<Entry>): Option<seq<Entry>>
    requires FieldOk(f)
  {
    match BodyValue(f.key)
    case None => None
    case Some(k) =>
      match Value(f.v)
      case None => None
      case Some(x) => FieldTailValue(f.tail, Emplace(acc, k, x))
  }

  function FieldTailValue(t: FieldTail, acc: seq<Entry>): Option<seq<Entry>>
    requires FieldTailOk(t)
  {
    match t case FClose => Some(acc) case FComma(_, next) => FieldValue(next, acc)
  }
}
