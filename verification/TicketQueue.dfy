/** The lock-free bounded queue as a transition system.

    Any number of threads run `push`, `pop`, `is_empty` and `size` over one ring of cells.  A step is one
    atomic action of one thread: an atomic load, a compare-exchange, a plain read or write of a cell's data,
    or an atomic store of a cell's sequence number.  A value a thread has read may be stale by the time the
    thread acts on it: between two steps of a thread the schedule may run any steps of any other threads. */
module TicketQueue {
  import opened Wrappers

  datatype Cell<+T> = Cell(seqNo: nat, data: T)

  datatype Outcome<+T> =
    | Pushed(ok: bool)
    | Popped(item: Option<T>)
    | Emptiness(empty: bool)
    | Count(n: int)

  /** Program counter and local variables of one thread. */
  datatype Local<+T> =
    | Idle
    | PushLoadTail(item: T)
    | PushLoadSeq(item: T, pos: nat)
    | PushCas(item: T, pos: nat)
    | PushWrite(item: T, pos: nat)
    | PushPublish(item: T, pos: nat)
    | PopLoadHead
    | PopLoadSeq(pos: nat)
    | PopCas(pos: nat)
    | PopRead(pos: nat)
    | PopRelease(pos: nat, item: T)
    | EmptyLoadHead
    | EmptyLoadTail(h: nat)
    | SizeLoadHead
    | SizeLoadTail(h: nat)
    | Returned(outcome: Outcome<T>)
  {
    /** Between its compare-exchange on the tail and its store of the sequence number. */
    predicate HoldsPush() { PushWrite? || PushPublish? }

    /** Between its compare-exchange on the head and its store of the sequence number. */
    predicate HoldsPop() { PopRead? || PopRelease? }

    predicate Holds() { HoldsPush() || HoldsPop() }

    predicate AtRest() { Idle? || Returned? }
  }

  /** What the scheduler decides when it runs a thread: the next call of a thread at rest, and whether a
      weak compare-exchange fails although the counter has the expected value. */
  datatype Choice<+T> = CallPush(x: T) | CallPop | CallIsEmpty | CallSize | Continue(spurious: bool)

  /** The shared memory, the threads, and the bookkeeping the proofs speak of:
      `round[i]` is the push ticket cell `i` serves, `log[t]` the item of push ticket `t`, `pushers[t]` and
      `poppers[t]` the threads that won ticket `t`, and `done[t]` what the finished pop of ticket `t` returned. */
  datatype State<T> = State(
    cap: nat, head: nat, tail: nat, cells: seq<Cell<T>>, threads: map<nat, Local<T>>,
    round: seq<nat>, log: seq<T>, pushers: seq<nat>, poppers: seq<nat>, done: map<nat, T>)

  function At<T>(s: State<T>, t: nat): Local<T> {
    if t in s.threads then s.threads[t] else Idle
  }

  function Goto<T>(s: State<T>, t: nat, l: Local<T>): State<T> {
    s.(threads := s.threads[t := l])
  }

  /** The constructor: `blank` is the default-constructed item every cell starts with. */
  function Init<T>(cap: nat, blank: T): State<T> {
    State(cap, 0, 0, seq(cap, i requires 0 <= i => Cell(i, blank)), map[],
          seq(cap, i requires 0 <= i => i), [], [], [], map[])
  }

  ghost predicate Ring<T>(s: State<T>) {
    0 < s.cap == |s.cells| == |s.round|
  }

  function Slot<T>(s: State<T>, pos: nat): nat
    requires Ring(s)
  {
    pos % s.cap
  }

  /** One atomic action of thread `t`. */
  function Step<T>(s: State<T>, t: nat, c: Choice<T>): (s': State<T>)
    requires Ring(s)
    ensures Ring(s') && s'.cap == s.cap
  {
    match At(s, t)
    case Idle => Call(s, t, c)
    case Returned(_) => Call(s, t, c)
    case PushLoadTail(x) => Goto(s, t, PushLoadSeq(x, s.tail))
    case PushLoadSeq(x, pos) =>
      var dif := s.cells[Slot(s, pos)].seqNo - pos;
      Goto(s, t, if dif == 0 then PushCas(x, pos) else if dif < 0 then Returned(Pushed(false)) else PushLoadTail(x))
    case PushCas(x, pos) =>
      if s.tail == pos && c != Continue(true) then
        Goto(s, t, PushWrite(x, pos)).(tail := pos + 1, log := s.log + [x], pushers := s.pushers + [t])
      else
        Goto(s, t, PushLoadSeq(x, s.tail))
    case PushWrite(x, pos) =>
      var i := Slot(s, pos);
      Goto(s, t, PushPublish(x, pos)).(cells := s.cells[i := s.cells[i].(data := x)])
    case PushPublish(x, pos) =>
      var i := Slot(s, pos);
      Goto(s, t, Returned(Pushed(true))).(cells := s.cells[i := s.cells[i].(seqNo := pos + 1)])
    case PopLoadHead => Goto(s, t, PopLoadSeq(s.head))
    case PopLoadSeq(pos) =>
      var dif := s.cells[Slot(s, pos)].seqNo - (pos + 1);
      Goto(s, t, if dif == 0 then PopCas(pos) else if dif < 0 then Returned(Popped(None)) else PopLoadHead)
    case PopCas(pos) =>
      if s.head == pos && c != Continue(true) then
        Goto(s, t, PopRead(pos)).(head := pos + 1, poppers := s.poppers + [t])
      else
        Goto(s, t, PopLoadSeq(s.head))
    case PopRead(pos) =>
      Goto(s, t, PopRelease(pos, s.cells[Slot(s, pos)].data))
    case PopRelease(pos, x) =>
      var i := Slot(s, pos);
      Goto(s, t, Returned(Popped(Some(x)))).(
        cells := s.cells[i := s.cells[i].(seqNo := pos + s.cap)],
        round := s.round[i := pos + s.cap], done := s.done[pos := x])
    case EmptyLoadHead => Goto(s, t, EmptyLoadTail(s.head))
    case EmptyLoadTail(h) => Goto(s, t, Returned(Emptiness(s.tail - h == 0)))
    case SizeLoadHead => Goto(s, t, SizeLoadTail(s.head))
    case SizeLoadTail(h) => Goto(s, t, Returned(Count(s.tail - h)))
  }

  function Call<T>(s: State<T>, t: nat, c: Choice<T>): State<T> {
    match c
    case CallPush(x) => Goto(s, t, PushLoadTail(x))
    case CallPop => Goto(s, t, PopLoadHead)
    case CallIsEmpty => Goto(s, t, EmptyLoadHead)
    case CallSize => Goto(s, t, SizeLoadHead)
    case Continue(_) => s
  }

  /** The state after a whole schedule of steps. */
  function Run<T>(s: State<T>, sched: seq<(nat, Choice<T>)>): (s': State<T>)
    requires Ring(s)
    ensures Ring(s') && s'.cap == s.cap
  {
    if sched == [] then s
    else
      var last := |sched| - 1;
      Step(Run(s, sched[..last]), sched[last].0, sched[last].1)
  }

  /** The queue the ring stands for: pushed and not yet popped, in ticket order. */
  function Contents<T>(s: State<T>): seq<T> {
    if s.head <= |s.log| then s.log[s.head..] else []
  }

  /** A step moves one thread, and advances at most one of the two counters, by one. */
  lemma StepFrame<T>(s: State<T>, t: nat, c: Choice<T>)
    requires Ring(s)
    ensures var s' := Step(s, t, c);
            && (forall u: nat | u != t :: At(s', u) == At(s, u))
            && (s'.head, s'.tail) in {(s.head, s.tail), (s.head + 1, s.tail), (s.head, s.tail + 1)}
            && s.log <= s'.log
  {
    match At(s, t)
    case PushCas(_, _) =>
    case PopCas(_) =>
    case _ => assert Step(s, t, c).head == s.head && Step(s, t, c).tail == s.tail && Step(s, t, c).log == s.log;
  }
}
