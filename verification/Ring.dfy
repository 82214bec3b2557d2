/**
 The ring buffer of coroutine tasks and the scheduler step that moves tasks from
 the idle ring to the running one.
 */
module Ring {
  import opened Common

  lemma Assoc<T>(a: seq<T>, b: seq<T>, c: seq<T>)
    ensures a + (b + c) == a + b + c
  {
  }

  class RingQue<T> {
    const none: T   // what an emptied slot holds and a failed `pop` returns
    var que: array?<T>
    var capacity: nat
    var top: nat
    var end: nat
    var storedSize: nat
    var blockByPop: bool
    ghost var stolen: nat

    ghost predicate Valid()
      reads this, que
    {
      && (que == null ==> capacity == 0)
      && (que != null ==> capacity == que.Length)
      && (if capacity == 0 then top == 0 && end == 0 && !blockByPop else top < capacity && end < capacity)
      && (blockByPop ==> top == end)
      && storedSize == |Contents()| + stolen
    }

    /** The stored elements, oldest first. */
    ghost function Contents(): seq<T>
      requires que == null ==> capacity == 0
      requires que != null ==> capacity == que.Length
      requires top <= capacity && end <= capacity
      reads this, que
    {
      if capacity == 0 || (top == end && !blockByPop) then []
      else if top < end then que[top..end]
      else que[top..] + que[..end]
    }

    constructor (none: T)
      ensures Valid() && Contents() == [] && this.none == none && que == null && stolen == 0
    {
      this.none := none;
      que, capacity, top, end, storedSize, blockByPop, stolen := null, 0, 0, 0, 0, false, 0;
    }

    method SetQue(place: array?<T>) returns (prev: array?<T>)
      modifies this
      ensures Valid() && Contents() == [] && que == place && prev == old(que) && stolen == 0
      ensures capacity == if place == null then 0 else place.Length
    {
      prev := que;
      que, capacity := place, if place == null then 0 else place.Length;
      storedSize, top, end, blockByPop, stolen := 0, 0, 0, false, 0;
    }

    predicate Block()
      reads this
    {
      capacity == 0 || (top == end && blockByPop)
    }

    predicate Empty()
      reads this
    {
      capacity == 0 || (top == end && !blockByPop)
    }

    /** The flags tell a full ring from an empty one when both ends meet. */
    lemma FullOrEmpty()
      requires Valid()
      ensures Block() <==> |Contents()| == capacity
      ensures Empty() <==> |Contents()| == 0
      ensures |Contents()| <= capacity
    {
    }

    method IncrTop()
      requires capacity > 0 && top < capacity
      modifies this`top
      ensures top == if old(top) + 1 == capacity then 0 else old(top) + 1
    {
      top := top + 1;
      if top == capacity { top := 0; }
    }

    method Push(p: T) returns (ok: bool)
      requires Valid()
      modifies this, que
      ensures Valid() && que == old(que) && capacity == old(capacity) && stolen == old(stolen)
      ensures ok == (old(|Contents()|) < capacity)
      ensures Contents() == if ok then old(Contents()) + [p] else old(Contents())
    {
      FullOrEmpty();
      if Block() { return false; }
      que[end] := p;
      end := end + 1;
      if end == capacity { end := 0; }
      if top == end { blockByPop := true; }
      storedSize := storedSize + 1;
      ok := true;
    }

    /** Takes the oldest element out of its slot. */
    method TakeTop() returns (got: T)
      requires Valid() && !Empty()
      modifies this`top, this`blockByPop, que
      ensures que == old(que) && capacity == old(capacity) && top <= capacity && end <= capacity
      ensures old(Contents()) == [got] + Contents()
      ensures top < capacity && !blockByPop
    {
      ghost var q, t := que[..], top;
      got := que[top];
      que[top] := none;
      IncrTop();
      blockByPop := false;
      assert forall i | 0 <= i < capacity && i != t :: que[i] == q[i];
    }

    method Pop() returns (got: T)
      requires Valid()
      modifies this, que
      ensures Valid() && que == old(que) && capacity == old(capacity) && stolen == old(stolen)
      ensures old(Contents()) == [] ==> got == none && Contents() == []
      ensures old(Contents()) != [] ==> old(Contents()) == [got] + Contents()
    {
      FullOrEmpty();
      if Empty() { return none; }
      got := TakeTop();
      storedSize := storedSize - 1;
    }

    /** Takes one element and leaves the stored size alone. */
    method StealTop() returns (got: T)
      requires Valid() && Contents() != []
      modifies this, que
      ensures Valid() && que == old(que) && capacity == old(capacity)
      ensures old(Contents()) == [got] + Contents()
      ensures storedSize == old(storedSize) && stolen == old(stolen) + 1
    {
      FullOrEmpty();
      got := TakeTop();
      stolen := stolen + 1;
    }

    /** Takes up to `l` elements, oldest first. The stored size is not updated. */
    method Steal(dest: array?<T>, l: nat) returns (n: nat)
      requires Valid() && (dest != null ==> dest != que && l <= dest.Length)
      modifies this, que, dest
      ensures Valid() && que == old(que) && capacity == old(capacity)
      ensures n == if dest == null then 0 else Min(l, old(|Contents()|))
      ensures old(Contents()) == (if dest == null then [] else dest[..n]) + Contents()
      ensures dest != null ==> dest[n..] == old(dest[n..])
      ensures storedSize == old(storedSize) && stolen == old(stolen) + n
    {
      hide RingQue.Contents;
      n := 0;
      if dest == null { return; }
      FullOrEmpty();
      ghost var taken: seq<T> := [];
      while n < l && !Empty()
        invariant Valid() && que == old(que) && capacity == old(capacity) && dest != que
        invariant n == |taken| <= l && old(Contents()) == taken + Contents()
        invariant forall i | 0 <= i < n :: dest[i] == taken[i]
        invariant forall i | n <= i < dest.Length :: dest[i] == old(dest[i])
        invariant storedSize == old(storedSize) && stolen == old(stolen) + n
        invariant Empty() <==> |Contents()| == 0
      {
        dest[n] := StealTop();
        Assoc(taken, [dest[n]], Contents());
        taken := taken + [dest[n]];
        n := n + 1;
        FullOrEmpty();
      }
      assert dest[..n] == taken && dest[n..] == old(dest[n..]);
    }

    /** `size` is exact as long as nothing was stolen since the buffer was set. */
    method Size() returns (n: nat)
      requires Valid()
      ensures n == |Contents()| + stolen
    {
      n := storedSize;
    }
  }

  // ---------------------------------------------------------------------
  // Every run of a bounded queue
  // ---------------------------------------------------------------------

  datatype Op<T> = Pushing(value: T) | Popping | Stealing(count: nat)

  /** A bounded first-in first-out queue: what it holds, what went in and what came out. */
  datatype Fifo<T> = Fifo(items: seq<T>, entered: seq<T>, left: seq<T>)

  function Apply<T>(capacity: nat, f: Fifo<T>, op: Op<T>): Fifo<T> {
    match op
    case Pushing(v) => if |f.items| < capacity then f.(items := f.items + [v], entered := f.entered + [v]) else f
    case Popping => if f.items == [] then f else f.(items := f.items[1..], left := f.left + [f.items[0]])
    case Stealing(n) =>
      var k := Min(n, |f.items|);
      f.(items := f.items[k..], left := f.left + f.items[..k])
  }

  function ApplyAll<T>(capacity: nat, f: Fifo<T>, ops: seq<Op<T>>): Fifo<T>
    decreases |ops|
  {
    if ops == [] then f else ApplyAll(capacity, Apply(capacity, f, ops[0]), ops[1..])
  }

  /** In every run, what left and what is still there is what entered, in the same order, never more than the capacity. */
  lemma {:induction false} RunsInOrder<T>(capacity: nat, f: Fifo<T>, ops: seq<Op<T>>)
    requires f.left + f.items == f.entered && |f.items| <= capacity
    ensures var g := ApplyAll(capacity, f, ops); g.left + g.items == g.entered && |g.items| <= capacity
    decreases |ops|
  {
    if ops != [] {
      RunsInOrder(capacity, Apply(capacity, f, ops[0]), ops[1..]);
    }
  }

  /** Any list of operations on a ring does what the bounded queue does: same contents, same elements out. */
  method Drive<T>(r: RingQue<T>, ops: seq<Op<T>>) returns (out: seq<T>)
    requires r.Valid()
    modifies r, r.que
    ensures r.Valid() && r.capacity == old(r.capacity)
    ensures var f := ApplyAll(r.capacity, Fifo(old(r.Contents()), old(r.Contents()), []), ops);
            r.Contents() == f.items && out == f.left && out + r.Contents() == f.entered
  {
    hide RingQue.Contents, Apply;
    ghost var start := Fifo(r.Contents(), r.Contents(), []);
    ghost var f := start;
    r.FullOrEmpty();
    RunsInOrder(r.capacity, start, ops);
    out := [];
    for i := 0 to |ops|
      invariant r.Valid() && r.que == old(r.que) && r.capacity == old(r.capacity)
      invariant r.Contents() == f.items && out == f.left
      invariant ApplyAll(r.capacity, start, ops) == ApplyAll(r.capacity, f, ops[i..])
    {
      assert ops[i..][1..] == ops[i + 1..];
      var more := DriveOne(r, ops[i], f);
      out := out + more;
      f := Apply(r.capacity, f, ops[i]);
    }
    assert ops[|ops|..] == [];
  }

  method DriveOne<T>(r: RingQue<T>, op: Op<T>, ghost f: Fifo<T>) returns (out: seq<T>)
    requires r.Valid() && r.Contents() == f.items
    modifies r, r.que
    ensures r.Valid() && r.que == old(r.que) && r.capacity == old(r.capacity)
    ensures var g := Apply(r.capacity, f, op); r.Contents() == g.items && g.left == f.left + out
  {
    hide RingQue.Contents;
    out := [];
    match op
    case Pushing(v) => var _ := r.Push(v);
    case Popping =>
      r.FullOrEmpty();
      if !r.Empty() {
        var got := r.Pop();
        out := [got];
      }
    case Stealing(n) =>
      var dest := new T[n](_ => r.none);
      var k := r.Steal(dest, n);
      out := dest[..k];
  }

  // ---------------------------------------------------------------------
  // Fetching tasks
  // ---------------------------------------------------------------------

  datatype Task = NoTask | Task(id: nat)

  /** How many tasks are moved: the idle ones up to the first missing one, as far as there is room. */
  function Fetched(idle: seq<Task>, room: nat): (k: nat)
    ensures k <= room && k <= |idle|
    ensures forall i | 0 <= i < k :: idle[i] != NoTask
    ensures k == room || k == |idle| || idle[k] == NoTask
  {
    if idle == [] || room == 0 || idle[0] == NoTask then 0 else 1 + Fetched(idle[1..], room - 1)
  }

  /** How many slots of the idle ring are used up: a missing task that stops the move is consumed too. */
  function Consumed(idle: seq<Task>, room: nat): (k: nat)
    ensures k <= |idle|
  {
    var k := Fetched(idle, room);
    if k < room && k < |idle| then k + 1 else k
  }

  function RealTasks(s: seq<Task>): seq<Task> {
    if s == [] then [] else (if s[0] == NoTask then [] else [s[0]]) + RealTasks(s[1..])
  }

  lemma {:induction false} RealTasksConcat(a: seq<Task>, b: seq<Task>)
    ensures RealTasks(a + b) == RealTasks(a) + RealTasks(b)
  {
    if a == [] {
      assert a + b == b;
    } else {
      RealTasksConcat(a[1..], b);
      assert (a + b)[1..] == a[1..] + b;
    }
  }

  /** No task is lost, duplicated or overtaken: both rings together hold the same tasks in the same order. */
  lemma FetchKeepsTasks(running: seq<Task>, idle: seq<Task>, room: nat)
    ensures RealTasks(running + idle[..Fetched(idle, room)] + idle[Consumed(idle, room)..]) == RealTasks(running + idle)
  {
    hide Fetched;
    var k, c := Fetched(idle, room), Consumed(idle, room);
    RealTasksConcat(running + idle[..k], idle[c..]);
    RealTasksConcat(running + idle[..k], idle[k..]);
    assert running + idle[..k] + idle[k..] == running + idle;
    if c == k + 1 {
      assert idle[k..][1..] == idle[c..];
      assert RealTasks(idle[k..]) == [] + RealTasks(idle[c..]);
    }
  }

  /** The first `k` tasks are moved, and then as many as the rest gives. */
  ghost predicate FetchedAtLeast(was: seq<Task>, k: nat, room: nat)
    requires k <= |was| && k <= room
  {
    Fetched(was, room) == k + Fetched(was[k..], room - k)
  }

  lemma FetchedNext(was: seq<Task>, k: nat, room: nat)
    requires k < |was| && k < room && was[k] != NoTask && FetchedAtLeast(was, k, room)
    ensures FetchedAtLeast(was, k + 1, room) && was[..k + 1] == was[..k] + [was[k]] && was[k..][1..] == was[k + 1..]
  {
    assert was[k..][1..] == was[k + 1..];
  }

  lemma FetchedStop(was: seq<Task>, k: nat, room: nat)
    requires k <= |was| && k <= room && FetchedAtLeast(was, k, room)
    requires k == room || k == |was| || was[k] == NoTask
    ensures Fetched(was, room) == k && Consumed(was, room) == if k < room && k < |was| then k + 1 else k
  {
  }

  class Platform {
    const running: RingQue<Task>
    const idle: RingQue<Task>

    ghost predicate Valid()
      reads this, running, idle, running.que, idle.que
    {
      && running != idle && running.Valid() && idle.Valid()
      && running.none == NoTask && idle.none == NoTask
      && (running.que != null ==> running.que != idle.que)
    }

    constructor (running: RingQue<Task>, idle: RingQue<Task>)
      requires running != idle && running.Valid() && idle.Valid()
      requires running.none == NoTask && idle.none == NoTask && (running.que != null ==> running.que != idle.que)
      ensures Valid() && this.running == running && this.idle == idle
    {
      this.running, this.idle := running, idle;
    }

    /** One turn of the loop: the oldest idle task is moved, or a missing one is taken away and the loop ends. */
    method FetchOne() returns (moved: bool)
      requires Valid() && |running.Contents()| < running.capacity
      modifies running, idle, running.que, idle.que
      ensures Valid() && running.que == old(running.que) && idle.que == old(idle.que) && running.capacity == old(running.capacity)
      ensures
        var was := old(idle.Contents());
        && moved == (was != [] && was[0] != NoTask)
        && idle.Contents() == (if was == [] then [] else was[1..])
        && running.Contents() == old(running.Contents()) + (if moved then [was[0]] else [])
    {
      hide RingQue.Contents;
      var task := idle.Pop();
      if task == NoTask { return false; }
      moved := running.Push(task);
    }

    method FetchTasks()
      requires Valid()
      modifies running, idle, running.que, idle.que
      ensures Valid()
      ensures var was, room := old(idle.Contents()), old(running.capacity - |running.Contents()|);
              && 0 <= room
              && running.Contents() == old(running.Contents()) + was[..Fetched(was, room)]
              && idle.Contents() == was[Consumed(was, room)..]
    {
      hide RingQue.Contents, Fetched, Consumed;
      running.FullOrEmpty();
      ghost var r0, was, room := running.Contents(), idle.Contents(), running.capacity - |running.Contents()|;
      ghost var k := 0;
      assert was[0..] == was;
      while !running.Block()
        invariant Valid() && running.que == old(running.que) && idle.que == old(idle.que)
        invariant 0 <= k <= |was| && k <= room && (running.Block() <==> k == room) && running.capacity == |r0| + room
        invariant running.Contents() == r0 + was[..k] && idle.Contents() == was[k..]
        invariant FetchedAtLeast(was, k, room)
        decreases room - k
      {
        var moved := FetchOne();
        if !moved {
          FetchedStop(was, k, room);
          return;
        }
        running.FullOrEmpty();
        FetchedNext(was, k, room);
        Assoc(r0, was[..k], [was[k]]);
        k := k + 1;
      }
      FetchedStop(was, k, room);
    }
  }
}
