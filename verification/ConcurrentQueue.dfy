/** The queue object: a ring of cells and two counters, updated in place.

    `Act` is one atomic action of one thread, so a schedule of calls to it is any interleaving; `Push` and
    `Pop` are the two loops run by one thread while no other operation is in flight. */
module ConcurrentQueues {
  import opened Wrappers
  import opened TicketQueue
  import opened TicketQueueInvariant
  import opened TicketQueueTheorems

  class ConcurrentQueue<T> {
    const cap: nat
    var buffer: array<Cell<T>>
    var head: nat
    var tail: nat
    var threads: map<nat, Local<T>>
    ghost var round: seq<nat>
    ghost var log: seq<T>
    ghost var pushers: seq<nat>
    ghost var poppers: seq<nat>
    ghost var done: map<nat, T>

    ghost function Snapshot(): State<T>
      reads this, buffer
    {
      State(cap, head, tail, buffer[..], threads, round, log, pushers, poppers, done)
    }

    ghost predicate Valid()
      reads this, buffer
    {
      0 < cap == buffer.Length == |round|
    }

    constructor (capacity: nat, blank: T)
      requires 0 < capacity
      ensures Valid() && fresh(buffer) && Snapshot() == Init(capacity, blank)
    {
      cap := capacity;
      head, tail, threads := 0, 0, map[];
      round := seq(capacity, i requires 0 <= i => i);
      log, pushers, poppers, done := [], [], [], map[];
      var cells := new Cell<T>[capacity](_ => Cell(0, blank));
      buffer := cells;
      new;
      for i := 0 to capacity
        invariant cells == buffer && cells.Length == capacity && head == tail == 0 && threads == map[]
        invariant round == seq(capacity, i requires 0 <= i => i)
        invariant log == [] && pushers == poppers == [] && done == map[]
        invariant forall j | 0 <= j < capacity :: cells[j] == Cell(if j < i then j else 0, blank)
      {
        cells[i] := Cell(i, blank);
      }
      assert buffer[..] == Init(capacity, blank).cells;
    }

    /** One atomic action of thread `t`. */
    method Act(t: nat, c: Choice<T>)
      requires Valid()
      modifies this, buffer
      ensures Valid() && buffer == old(buffer)
      ensures Snapshot() == Step(old(Snapshot()), t, c)
    {
      var l := if t in threads then threads[t] else Idle;
      match l {
        case Idle => Begin(t, c);
        case Returned(_) => Begin(t, c);
        case PushLoadTail(_) => ActPush(t, l, c);
        case PushLoadSeq(_, _) => ActPush(t, l, c);
        case PushCas(_, _) => ActPush(t, l, c);
        case PushWrite(_, _) => ActPush(t, l, c);
        case PushPublish(_, _) => ActPush(t, l, c);
        case PopLoadHead => ActPop(t, l, c);
        case PopLoadSeq(_) => ActPop(t, l, c);
        case PopCas(_) => ActPop(t, l, c);
        case PopRead(_) => ActPop(t, l, c);
        case PopRelease(_, _) => ActPop(t, l, c);
        case EmptyLoadHead => threads := threads[t := EmptyLoadTail(head)];
        case EmptyLoadTail(h) => threads := threads[t := Returned(Emptiness(tail - h == 0))];
        case SizeLoadHead => threads := threads[t := SizeLoadTail(head)];
        case SizeLoadTail(h) => threads := threads[t := Returned(Count(tail - h))];
      }
    }

    method Begin(t: nat, c: Choice<T>)
      requires Valid()
      modifies this`threads
      ensures Snapshot() == Call(old(Snapshot()), t, c)
    {
      match c {
        case CallPush(x) => threads := threads[t := PushLoadTail(x)];
        case CallPop => threads := threads[t := PopLoadHead];
        case CallIsEmpty => threads := threads[t := EmptyLoadHead];
        case CallSize => threads := threads[t := SizeLoadHead];
        case Continue(_) =>
      }
    }

    method ActPush(t: nat, l: Local<T>, c: Choice<T>)
      requires Valid() && t in threads && threads[t] == l
      requires l.PushLoadTail? || l.PushLoadSeq? || l.PushCas? || l.HoldsPush()
      modifies this, buffer
      ensures Valid() && buffer == old(buffer)
      ensures Snapshot() == Step(old(Snapshot()), t, c)
    {
      match l {
        case PushLoadTail(x) =>
          threads := threads[t := PushLoadSeq(x, tail)];
        case PushLoadSeq(x, pos) =>
          var dif := buffer[pos % cap].seqNo - pos;
          if dif == 0 {
            threads := threads[t := PushCas(x, pos)];
          } else if dif < 0 {
            threads := threads[t := Returned(Pushed(false))];
          } else {
            threads := threads[t := PushLoadTail(x)];
          }
        case PushCas(x, pos) =>
          if tail == pos && !(c.Continue? && c.spurious) {
            tail := pos + 1;
            log, pushers := log + [x], pushers + [t];
            threads := threads[t := PushWrite(x, pos)];
          } else {
            threads := threads[t := PushLoadSeq(x, tail)];
          }
        case PushWrite(x, pos) =>
          var i := pos % cap;
          buffer[i] := buffer[i].(data := x);
          threads := threads[t := PushPublish(x, pos)];
        case PushPublish(x, pos) =>
          var i := pos % cap;
          buffer[i] := buffer[i].(seqNo := pos + 1);
          threads := threads[t := Returned(Pushed(true))];
      }
    }

    method ActPop(t: nat, l: Local<T>, c: Choice<T>)
      requires Valid() && t in threads && threads[t] == l
      requires l.PopLoadHead? || l.PopLoadSeq? || l.PopCas? || l.HoldsPop()
      modifies this, buffer
      ensures Valid() && buffer == old(buffer)
      ensures Snapshot() == Step(old(Snapshot()), t, c)
    {
      match l {
        case PopLoadHead =>
          threads := threads[t := PopLoadSeq(head)];
        case PopLoadSeq(pos) =>
          var dif := buffer[pos % cap].seqNo - (pos + 1);
          if dif == 0 {
            threads := threads[t := PopCas(pos)];
          } else if dif < 0 {
            threads := threads[t := Returned(Popped(None))];
          } else {
            threads := threads[t := PopLoadHead];
          }
        case PopCas(pos) =>
          if head == pos && !(c.Continue? && c.spurious) {
            head := pos + 1;
            poppers := poppers + [t];
            threads := threads[t := PopRead(pos)];
          } else {
            threads := threads[t := PopLoadSeq(head)];
          }
        case PopRead(pos) =>
          threads := threads[t := PopRelease(pos, buffer[pos % cap].data)];
        case PopRelease(pos, x) =>
          var i := pos % cap;
          buffer[i] := buffer[i].(seqNo := pos + cap);
          round, done := round[i := pos + cap], done[pos := x];
          threads := threads[t := Returned(Popped(Some(x)))];
      }
    }

    /** Any interleaving of any operations: what the object does is what the transition system does. */
    method Serve(sched: seq<(nat, Choice<T>)>)
      requires Valid()
      modifies this, buffer
      ensures Valid() && buffer == old(buffer)
      ensures Snapshot() == Run(old(Snapshot()), sched)
    {
      for n := 0 to |sched|
        invariant Valid() && buffer == old(buffer)
        invariant Snapshot() == Run(old(Snapshot()), sched[..n])
      {
        assert sched[..n + 1][..n] == sched[..n];
        Act(sched[n].0, sched[n].1);
      }
      assert sched[..|sched|] == sched;
    }

    /** No operation is in flight. */
    ghost predicate Alone()
      reads this, buffer
    {
      Valid() && Inv(Snapshot()) && Quiet(Snapshot())
    }

    /** Thread `t` is at `l`, and every other thread is at rest. */
    ghost predicate InCall(t: nat, l: Local<T>)
      reads this, buffer
    {
      && Valid() && Inv(Snapshot()) && At(Snapshot(), t) == l
      && forall u: nat | u != t :: At(Snapshot(), u).AtRest()
    }

    /** One step of thread `t`, all others at rest. */
    method ActAlone(t: nat, c: Choice<T>)
      requires InCall(t, At(Snapshot(), t))
      modifies this, buffer
      ensures buffer == old(buffer) && InCall(t, At(Snapshot(), t))
      ensures Snapshot() == Step(old(Snapshot()), t, c)
    {
      StepInv(Snapshot(), t, c);
      StepFrame(Snapshot(), t, c);
      Act(t, c);
    }

    method BeginPush(t: nat, item: T)
      requires Alone()
      modifies this, buffer
      ensures buffer == old(buffer) && tail == old(tail)
      ensures InCall(t, PushLoadSeq(item, tail)) && Contents(Snapshot()) == old(Contents(Snapshot()))
    {
      ActAlone(t, CallPush(item));
      ActAlone(t, Continue(false));
    }

    method TestPush(t: nat, item: T)
      requires InCall(t, PushLoadSeq(item, tail))
      modifies this, buffer
      ensures buffer == old(buffer) && tail == old(tail) && Contents(Snapshot()) == old(Contents(Snapshot()))
      ensures InCall(t, if |Contents(Snapshot())| == cap then Returned(Pushed(false)) else PushCas(item, tail))
    {
      PushTestMeans(Snapshot(), t, Continue(false));
      AloneFalseIsExact(Snapshot(), t, Continue(false));
      ActAlone(t, Continue(false));
    }

    method SwapTail(t: nat, item: T, spurious: bool)
      requires InCall(t, PushCas(item, tail))
      modifies this, buffer
      ensures buffer == old(buffer) && InCall(t, if spurious then PushLoadSeq(item, tail) else PushWrite(item, old(tail)))
      ensures spurious ==> tail == old(tail)
      ensures Contents(Snapshot()) == if spurious then old(Contents(Snapshot())) else old(Contents(Snapshot())) + [item]
    {
      StepRefines(Snapshot(), t, Continue(spurious));
      ActAlone(t, Continue(spurious));
    }

    method FinishPush(t: nat, item: T, pos: nat)
      requires InCall(t, PushWrite(item, pos))
      modifies this, buffer
      ensures buffer == old(buffer) && Alone() && Contents(Snapshot()) == old(Contents(Snapshot()))
    {
      ActAlone(t, Continue(false));
      ActAlone(t, Continue(false));
    }

    /** `push`, while thread `t` is the only one in an operation; `flaky` spurious failures of the weak
        compare-exchange are allowed for.  It fails exactly when the queue is full. */
    method Push(t: nat, item: T, flaky: nat) returns (ok: bool)
      requires Alone()
      modifies this, buffer
      ensures Alone() && buffer == old(buffer)
      ensures ok <==> |old(Contents(Snapshot()))| < cap
      ensures Contents(Snapshot()) == if ok then old(Contents(Snapshot())) + [item] else old(Contents(Snapshot()))
    {
      BeginPush(t, item);
      var failures, won := flaky, false;
      var pos: nat := tail;
      while !won
        invariant buffer == old(buffer) && InCall(t, if won then PushWrite(item, pos) else PushLoadSeq(item, pos))
        invariant !won ==> pos == tail && Contents(Snapshot()) == old(Contents(Snapshot()))
        invariant won ==> |old(Contents(Snapshot()))| < cap && Contents(Snapshot()) == old(Contents(Snapshot())) + [item]
        decreases !won, failures
      {
        TestPush(t, item);
        if threads[t].Returned? { return false; }
        won := failures == 0;
        pos := tail;
        SwapTail(t, item, !won);
        failures := if won then 0 else failures - 1;
      }
      FinishPush(t, item, pos);
      ok := true;
    }

    method BeginPop(t: nat)
      requires Alone()
      modifies this, buffer
      ensures buffer == old(buffer) && head == old(head)
      ensures InCall(t, PopLoadSeq(head)) && Contents(Snapshot()) == old(Contents(Snapshot()))
    {
      ActAlone(t, CallPop);
      ActAlone(t, Continue(false));
    }

    method TestPop(t: nat)
      requires InCall(t, PopLoadSeq(head))
      modifies this, buffer
      ensures buffer == old(buffer) && head == old(head) && Contents(Snapshot()) == old(Contents(Snapshot()))
      ensures InCall(t, if Contents(Snapshot()) == [] then Returned(Popped(None)) else PopCas(head))
    {
      PopTestMeans(Snapshot(), t, Continue(false));
      AloneFalseIsExact(Snapshot(), t, Continue(false));
      ActAlone(t, Continue(false));
    }

    method SwapHead(t: nat, spurious: bool)
      requires InCall(t, PopCas(head)) && Contents(Snapshot()) != []
      modifies this, buffer
      ensures buffer == old(buffer) && InCall(t, if spurious then PopLoadSeq(head) else PopRead(old(head)))
      ensures spurious ==> head == old(head) && Contents(Snapshot()) == old(Contents(Snapshot()))
      ensures !spurious ==> old(head) < |log| && [log[old(head)]] + Contents(Snapshot()) == old(Contents(Snapshot()))
    {
      StepRefines(Snapshot(), t, Continue(spurious));
      ActAlone(t, Continue(spurious));
    }

    method FinishPop(t: nat, pos: nat) returns (item: T)
      requires InCall(t, PopRead(pos))
      modifies this, buffer
      ensures buffer == old(buffer) && Alone() && Contents(Snapshot()) == old(Contents(Snapshot()))
      ensures pos < |old(log)| && item == old(log)[pos]
    {
      assert LocalOk(Snapshot(), t);
      ActAlone(t, Continue(false));
      assert LocalOk(Snapshot(), t);
      item := threads[t].item;
      ActAlone(t, Continue(false));
    }

    /** `pop`, likewise: it hands over the oldest item, and fails exactly when the queue is empty. */
    method Pop(t: nat, flaky: nat) returns (item: Option<T>)
      requires Alone()
      modifies this, buffer
      ensures Alone() && buffer == old(buffer)
      ensures item == None <==> old(Contents(Snapshot())) == []
      ensures (if item.Some? then [item.value] else []) + Contents(Snapshot()) == old(Contents(Snapshot()))
    {
      BeginPop(t);
      var failures, won := flaky, false;
      var pos: nat := head;
      while !won
        invariant buffer == old(buffer) && InCall(t, if won then PopRead(pos) else PopLoadSeq(pos))
        invariant !won ==> pos == head && Contents(Snapshot()) == old(Contents(Snapshot()))
        invariant won ==> pos < |log| && [log[pos]] + Contents(Snapshot()) == old(Contents(Snapshot()))
        decreases !won, failures
      {
        TestPop(t);
        if threads[t].Returned? { return None; }
        won := failures == 0;
        pos := head;
        SwapHead(t, !won);
        failures := if won then 0 else failures - 1;
      }
      var x := FinishPop(t, pos);
      item := Some(x);
    }
  }
}
