/** What the false answers of push and pop are worth: they belong into a legal history of the bounded queue exactly
    when the operation they had to wait for is not in flight. */
module TicketQueueAnswers {
  import opened Wrappers
  import opened BoundedFifo
  import opened TicketQueue
  import opened TicketQueueInvariant
  import opened TicketQueueTheorems

  /** The refusal a step answers with, if it does. */
  function Refusal<T>(s: State<T>, t: nat, c: Choice<T>): seq<Op<T>>
    requires Ring(s)
  {
    if !At(Step(s, t, c), t).Returned? then []
    else if At(s, t).PushLoadSeq? then [Full]
    else if At(s, t).PopLoadSeq? then [Empty]
    else []
  }

  /** The operation that the thread's next ticket has to wait for is in flight: for a push the pop of the ticket one
      ring earlier, for a pop the push of its own ticket. */
  predicate RivalInFlight<T>(s: State<T>, t: nat) {
    match At(s, t)
    case PushLoadSeq(_, pos) => pos >= s.cap && Popping(s, pos - s.cap)
    case PopLoadSeq(pos) => Pushing(s, pos)
    case _ => false
  }

  /** At its load of the sequence number a push's refusal is legal exactly when the queue is full there, and a pop's
      exactly when it is empty there: that is, exactly when no rival is in flight. */
  lemma RefusalLegalIff<T>(s: State<T>, t: nat, c: Choice<T>)
    requires Inv(s) && Refusal(s, t, c) != []
    ensures Contents(Step(s, t, c)) == Contents(s)
    ensures Apply(s.cap, Contents(s), Refusal(s, t, c)[0]) == (if RivalInFlight(s, t) then None else Some(Contents(s)))
    ensures RivalInFlight(s, t) <==> if At(s, t).PushLoadSeq? then s.head != At(s, t).pos - s.cap else s.tail != At(s, t).pos
  {
    var pos := At(s, t).pos;
    if At(s, t).PushLoadSeq? {
      PushTestMeans(s, t, c);
      assert pos - s.cap < s.head ==> TicketOk(s, pos - s.cap);
    } else {
      PopTestMeans(s, t, c);
      if Pushing(s, pos) { assert LocalOk(s, s.pushers[pos]); }
    }
  }

  /** A caller can rule rivals out by letting no other operation run. */
  lemma AloneHasNoRival<T>(s: State<T>, t: nat)
    requires forall u: nat | u != t :: At(s, u).AtRest()
    ensures !RivalInFlight(s, t)
  {
  }

  /** The history of all answers: the successful operations at their compare-exchanges, the refusals at their loads. */
  function History<T>(s: State<T>, sched: seq<(nat, Choice<T>)>): seq<Op<T>>
    requires Ring(s)
  {
    if sched == [] then []
    else
      var last := |sched| - 1;
      var before := Run(s, sched[..last]);
      History(s, sched[..last]) + Visible(before, sched[last].0, sched[last].1) + Refusal(before, sched[last].0, sched[last].1)
  }

  /** No refusal along the schedule has a rival in flight. */
  predicate NoRivals<T>(s: State<T>, sched: seq<(nat, Choice<T>)>)
    requires Ring(s)
  {
    sched == [] ||
    (var last := |sched| - 1;
     var before := Run(s, sched[..last]);
     NoRivals(s, sched[..last]) && (Refusal(before, sched[last].0, sched[last].1) == [] || !RivalInFlight(before, sched[last].0)))
  }

  /** One step of the history. */
  lemma AnswerStep<T>(s: State<T>, ops: seq<Op<T>>, t: nat, c: Choice<T>)
    requires Inv(s) && (Replay(s.cap, ops).Some? ==> Replay(s.cap, ops).value == Contents(s))
    ensures var all := ops + Visible(s, t, c) + Refusal(s, t, c);
            && (Replay(s.cap, all).Some? <==> Replay(s.cap, ops).Some? && (Refusal(s, t, c) == [] || !RivalInFlight(s, t)))
            && (Replay(s.cap, all).Some? ==> Replay(s.cap, all).value == Contents(Step(s, t, c)))
  {
    hide Step, Inv, Contents, RivalInFlight, Replay, Enqueued, Dequeued;
    HeadInLog(s);
    var v, r := Visible(s, t, c), Refusal(s, t, c);
    StepRefines(s, t, c);
    if r != [] { RefusalLegalIff(s, t, c); }
    assert v == [] || r == [];
    if r != [] {
      assert ops + v + r == ops + [r[0]];
      ReplayOne(s.cap, ops, r[0]);
    } else if v != [] {
      assert ops + v + r == ops + [v[0]];
      ReplayOne(s.cap, ops, v[0]);
    } else {
      assert ops + v + r == ops;
    }
  }

  /** The answers of all operations, refusals included, are a legal history of the bounded queue exactly when no
      refusal had a rival in flight. */
  lemma {:induction false} HistoryLegalIff<T>(cap: nat, blank: T, sched: seq<(nat, Choice<T>)>)
    requires 2 <= cap
    ensures var s0 := Init(cap, blank);
            && (Replay(cap, History(s0, sched)).Some? <==> NoRivals(s0, sched))
            && (NoRivals(s0, sched) ==> Replay(cap, History(s0, sched)).value == Contents(Run(s0, sched)))
  {
    var s0 := Init(cap, blank);
    InitInv(cap, blank);
    if sched != [] {
      var last := |sched| - 1;
      HistoryLegalIff(cap, blank, sched[..last]);
      RunInv(s0, sched[..last]);
      AnswerStep(Run(s0, sched[..last]), History(s0, sched[..last]), sched[last].0, sched[last].1);
    }
  }

  // ---------------------------------------------------------------- a refusal that no instant of the call explains

  /** On a ring of two cells: thread 0 wins ticket 0 and stops, thread 1 pushes `b`, thread 2 pops. */
  function StalledPush<T>(a: T, b: T): seq<(nat, Choice<T>)> {
    [(0, CallPush(a)), (0, Continue(false)), (0, Continue(false)), (0, Continue(false)),
     (1, CallPush(b)), (1, Continue(false)), (1, Continue(false)), (1, Continue(false)), (1, Continue(false)), (1, Continue(false)),
     (2, CallPop), (2, Continue(false)), (2, Continue(false))]
  }

  /** Where the three threads are after `i` of these steps. */
  ghost predicate Stalled<T>(s: State<T>, a: T, b: T, i: nat) {
    && Ring(s) && s.cap == 2 && s.head == 0
    && s.log == (if i < 4 then [] else if i < 8 then [a] else [a, b]) && s.tail == |s.log|
    && s.cells[0].seqNo == 0 && s.cells[1].seqNo == (if i < 10 then 1 else 2)
    && At(s, 0) == (if i == 0 then Idle else if i == 1 then PushLoadTail(a) else if i == 2 then PushLoadSeq(a, 0)
                    else if i == 3 then PushCas(a, 0) else PushWrite(a, 0))
    && At(s, 1) == (if i <= 4 then Idle else if i == 5 then PushLoadTail(b) else if i == 6 then PushLoadSeq(b, 1)
                    else if i == 7 then PushCas(b, 1) else if i == 8 then PushWrite(b, 1) else if i == 9 then PushPublish(b, 1)
                    else Returned(Pushed(true)))
    && At(s, 2) == (if i <= 10 then Idle else if i == 11 then PopLoadHead else if i == 12 then PopLoadSeq(0) else Returned(Popped(None)))
  }

  lemma StalledStep<T>(s: State<T>, a: T, b: T, i: nat)
    requires i < 13 && Stalled(s, a, b, i)
    ensures Stalled(Step(s, StalledPush(a, b)[i].0, StalledPush(a, b)[i].1), a, b, i + 1)
  {
    hide Stalled;
    if i < 4 { StalledFirst(s, a, b, i); } else if i < 10 { StalledSecond(s, a, b, i); } else { StalledThird(s, a, b, i); }
  }

  lemma StalledFirst<T>(s: State<T>, a: T, b: T, i: nat)
    requires i < 4 && Stalled(s, a, b, i)
    ensures Stalled(Step(s, 0, if i == 0 then CallPush(a) else Continue(false)), a, b, i + 1)
  {
  }

  lemma StalledSecond<T>(s: State<T>, a: T, b: T, i: nat)
    requires 4 <= i < 10 && Stalled(s, a, b, i)
    ensures Stalled(Step(s, 1, if i == 4 then CallPush(b) else Continue(false)), a, b, i + 1)
  {
  }

  lemma StalledThird<T>(s: State<T>, a: T, b: T, i: nat)
    requires 10 <= i < 13 && Stalled(s, a, b, i)
    ensures Stalled(Step(s, 2, if i == 10 then CallPop else Continue(false)), a, b, i + 1)
  {
  }

  lemma {:induction false} StalledRun<T>(blank: T, a: T, b: T, i: nat)
    requires i <= 13
    ensures Stalled(Run(Init(2, blank), StalledPush(a, b)[..i]), a, b, i)
  {
    if i > 0 {
      StalledRun(blank, a, b, i - 1);
      assert StalledPush(a, b)[..i][..i - 1] == StalledPush(a, b)[..i - 1];
      StalledStep(Run(Init(2, blank), StalledPush(a, b)[..i - 1]), a, b, i - 1);
    }
  }

  /** The push of `b` has returned true before the pop begins, nothing is ever popped, and the queue holds both items
      at every instant of the pop; still the pop answers that there is nothing.  No order of the operations explains it. */
  lemma RefusalUnexplained<T>(blank: T, a: T, b: T)
    ensures var s0, sched := Init(2, blank), StalledPush(a, b);
            && At(Run(s0, sched[..10]), 1) == Returned(Pushed(true)) && At(Run(s0, sched[..10]), 2) == Idle
            && At(Run(s0, sched), 2) == Returned(Popped(None))
            && (forall i | 10 <= i <= 13 :: Run(s0, sched[..i]).head == 0 && Contents(Run(s0, sched[..i])) == [a, b])
  {
    StalledRun(blank, a, b, 10);
    StalledRun(blank, a, b, 13);
    assert StalledPush(a, b)[..13] == StalledPush(a, b);
    forall i | 10 <= i <= 13
      ensures Run(Init(2, blank), StalledPush(a, b)[..i]).head == 0 && Contents(Run(Init(2, blank), StalledPush(a, b)[..i])) == [a, b]
    {
      StalledRun(blank, a, b, i);
    }
  }
}
