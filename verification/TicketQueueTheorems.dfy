/** What the concurrent queue promises, over every schedule of any number of threads. */
module TicketQueueTheorems {
  import opened Wrappers
  import opened BoundedFifo
  import opened TicketQueue
  import opened TicketQueueInvariant

  /** The linearisation point of a push is its compare-exchange on the tail, that of a pop its
      compare-exchange on the head; every other step is invisible. */
  function Visible<T>(s: State<T>, t: nat, c: Choice<T>): seq<Op<T>> {
    if !Wins(s, t, c) then []
    else if At(s, t).PushCas? then [Enqueue(At(s, t).item)]
    else if s.head < |s.log| then [Dequeue(s.log[s.head])]
    else []
  }

  function Linearisation<T>(s: State<T>, sched: seq<(nat, Choice<T>)>): seq<Op<T>>
    requires Ring(s)
  {
    if sched == [] then []
    else
      var last := |sched| - 1;
      Linearisation(s, sched[..last]) + Visible(Run(s, sched[..last]), sched[last].0, sched[last].1)
  }

  lemma WinRefines<T>(s: State<T>, t: nat, c: Choice<T>)
    requires Inv(s) && Wins(s, t, c)
    ensures var s', v := Step(s, t, c), Visible(s, t, c);
            && |v| == 1 && Apply(s.cap, Contents(s), v[0]) == Some(Contents(s')) && (v[0].Enqueue? || v[0].Dequeue?)
            && (v[0].Enqueue? ==> s'.log == s.log + [v[0].x] && s'.head == s.head)
            && (v[0].Dequeue? ==> s'.log == s.log && s'.head == s.head + 1 && v[0].x == s.log[s.head])
  {
    assert LocalOk(s, t);
    if At(s, t).PushCas? {
      TailCell(s, s.tail);
      assert (s.log + [At(s, t).item])[s.head..] == Contents(s) + [At(s, t).item];
    } else {
      HeadCell(s, s.head);
    }
  }

  /** Each step is one legal operation of the bounded queue or none. */
  lemma StepRefines<T>(s: State<T>, t: nat, c: Choice<T>)
    requires Inv(s)
    ensures var s', v := Step(s, t, c), Visible(s, t, c);
            && Inv(s')
            && (v == [] ==> Contents(s') == Contents(s) && s'.log == s.log && s'.head == s.head)
            && (v != [] ==> |v| == 1 && Apply(s.cap, Contents(s), v[0]) == Some(Contents(s')) && (v[0].Enqueue? || v[0].Dequeue?))
            && (v != [] && v[0].Enqueue? ==> s'.log == s.log + [v[0].x] && s'.head == s.head)
            && (v != [] && v[0].Dequeue? ==> s'.log == s.log && s'.head == s.head + 1 && v[0].x == s.log[s.head])
  {
    StepInv(s, t, c);
    if Wins(s, t, c) { WinRefines(s, t, c); } else { NoWinSameCounters(s, t, c); }
  }

  lemma NoWinSameCounters<T>(s: State<T>, t: nat, c: Choice<T>)
    requires Ring(s) && !Wins(s, t, c)
    ensures var s' := Step(s, t, c); s'.log == s.log && s'.head == s.head
  {
  }

  lemma ReplayOne<T>(cap: nat, ops: seq<Op<T>>, op: Op<T>)
    ensures Replay(cap, ops + [op]) == if Replay(cap, ops).None? then None else Apply(cap, Replay(cap, ops).value, op)
    ensures Enqueued(ops + [op]) == Enqueued(ops) + if op.Enqueue? then [op.x] else []
    ensures Dequeued(ops + [op]) == Dequeued(ops) + if op.Dequeue? then [op.x] else []
  {
    assert (ops + [op])[..|ops|] == ops;
  }

  /** What a schedule and its linearisation have in common. */
  ghost predicate Agrees<T>(s: State<T>, ops: seq<Op<T>>) {
    && Inv(s)
    && Replay(s.cap, ops) == Some(Contents(s))
    && Enqueued(ops) == s.log && Dequeued(ops) == s.log[..s.head]
  }

  lemma HeadInLog<T>(s: State<T>)
    requires Inv(s)
    ensures Ring(s) && s.head <= |s.log|
  {
  }

  lemma StepAgrees<T>(s: State<T>, ops: seq<Op<T>>, t: nat, c: Choice<T>)
    requires Agrees(s, ops)
    ensures Agrees(Step(s, t, c), ops + Visible(s, t, c))
  {
    hide Step, Inv, Contents, Visible, Replay, Enqueued, Dequeued;
    StepRefines(s, t, c);
    HeadInLog(s);
    HeadInLog(Step(s, t, c));
    var v := Visible(s, t, c);
    if v == [] {
      assert ops + v == ops;
    } else {
      assert v == [v[0]];
      assert v[0].Dequeue? ==> s.log[..s.head + 1] == s.log[..s.head] + [s.log[s.head]];
      ReplayOne(s.cap, ops, v[0]);
    }
  }

  /** The successful operations are linearisable: those of every schedule, taken at their linearisation points,
      form a legal history of a queue bounded by the capacity; what the false answers are worth is the subject of
      `TicketQueueAnswers`.  What was pushed is the log in ticket order, and each
      finished pop of ticket k returned the k-th item taken, which is the k-th item pushed. */
  lemma {:induction false} Linearisable<T>(cap: nat, blank: T, sched: seq<(nat, Choice<T>)>)
    requires 2 <= cap
    ensures var s, ops := Run(Init(cap, blank), sched), Linearisation(Init(cap, blank), sched);
            && Agrees(s, ops)
            && (forall k | k in s.done :: k < s.head && s.done[k] == Dequeued(ops)[k] == Enqueued(ops)[k])
  {
    var s0 := Init(cap, blank);
    if sched == [] {
      InitInv(cap, blank);
    } else {
      var last := |sched| - 1;
      Linearisable(cap, blank, sched[..last]);
      StepAgrees(Run(s0, sched[..last]), Linearisation(s0, sched[..last]), sched[last].0, sched[last].1);
    }
    DoneFromLog(Run(s0, sched));
  }

  lemma DoneFromLog<T>(s: State<T>)
    requires Inv(s)
    ensures forall k | k in s.done :: k < s.head && s.done[k] == s.log[k]
  {
    forall k | k in s.done ensures k < s.head && s.done[k] == s.log[k] { assert TicketOk(s, k); }
  }

  /** The threads with no operation in flight have returned: then the pops have taken, in ticket order,
      exactly a prefix of what the pushes put in, and every one of those items was handed to a caller. */
  lemma AtRestNothingIsLost<T>(cap: nat, blank: T, sched: seq<(nat, Choice<T>)>)
    requires 2 <= cap
    requires Quiet(Run(Init(cap, blank), sched))
    ensures var s := Run(Init(cap, blank), sched);
            s.head <= |s.log| && (forall k: nat :: k in s.done <==> k < s.head) && (forall k: nat | k < s.head :: s.done[k] == s.log[k])
  {
    InitInv(cap, blank);
    RunInv(Init(cap, blank), sched);
    var s := Run(Init(cap, blank), sched);
    forall k: nat | k < s.head ensures k in s.done && s.done[k] == s.log[k] { assert TicketOk(s, k); }
  }

  ghost predicate Quiet<T>(s: State<T>) {
    forall t: nat :: At(s, t).AtRest()
  }

  /** Mutual exclusion on a cell's data, although the tests that admitted the threads may have been stale. */
  lemma OneOwnerPerCell<T>(s: State<T>, t: nat, u: nat)
    requires Inv(s) && At(s, t).Holds() && At(s, u).Holds()
    requires Slot(s, At(s, t).pos) == Slot(s, At(s, u).pos)
    ensures t == u
  {
    assert LocalOk(s, t) && LocalOk(s, u);
  }

  /** Sequence numbers never decrease, which is what makes a stale test harmless. */
  lemma SequenceMonotone<T>(s: State<T>, t: nat, c: Choice<T>, i: nat)
    requires Inv(s) && i < s.cap
    ensures s.cells[i].seqNo <= Step(s, t, c).cells[i].seqNo
  {
    assert LocalOk(s, t) && CellOk(s, i);
  }

  /** A push returns false exactly when, at its load of the sequence number, the tail is at its position and
      the cell still belongs to the ticket one ring earlier, whose pop has not finished; it starts over only
      because the tail has moved on. */
  lemma PushTestMeans<T>(s: State<T>, t: nat, c: Choice<T>)
    requires Inv(s) && At(s, t).PushLoadSeq?
    ensures var pos, l := At(s, t).pos, At(Step(s, t, c), t);
            && (l == Returned(Pushed(false)) <==> s.tail == pos >= s.cap && s.round[Slot(s, pos)] == pos - s.cap)
            && (l == Returned(Pushed(false)) ==> pos - s.cap !in s.done)
            && (l.PushLoadTail? ==> pos < s.tail)
  {
    assert LocalOk(s, t);
    var pos := At(s, t).pos;
    TailCell(s, pos);
    var i := Slot(s, pos);
    assert CellOk(s, i);
  }

  /** A pop returns nothing exactly when, at its load of the sequence number, the head is at its position and
      the push of that ticket is not claimed or still in flight. */
  lemma PopTestMeans<T>(s: State<T>, t: nat, c: Choice<T>)
    requires Inv(s) && At(s, t).PopLoadSeq?
    ensures var pos, l := At(s, t).pos, At(Step(s, t, c), t);
            && (l == Returned(Popped(None)) <==> s.head == pos && (pos == s.tail || Pushing(s, pos)))
            && (l.PopLoadHead? ==> pos < s.head)
  {
    assert LocalOk(s, t);
    var pos := At(s, t).pos;
    HeadCell(s, pos);
    if Pushing(s, pos) { assert LocalOk(s, s.pushers[pos]); }
  }

  /** With no pop in flight, every ticket taken is finished. */
  lemma AllPopsDone<T>(s: State<T>, t: nat)
    requires Inv(s) && !At(s, t).HoldsPop() && (forall u: nat | u != t :: At(s, u).AtRest())
    ensures forall k: nat | k < s.head :: k in s.done
  {
    forall k: nat | k < s.head ensures k in s.done { assert TicketOk(s, k); }
  }

  /** With no other operation in flight, a false answer means exactly full, or exactly empty. */
  lemma AloneFalseIsExact<T>(s: State<T>, t: nat, c: Choice<T>)
    requires Inv(s) && (forall u: nat | u != t :: At(s, u).AtRest())
    ensures At(s, t).PushLoadSeq? && At(s, t).pos == s.tail ==>
              (At(Step(s, t, c), t) == Returned(Pushed(false)) <==> |Contents(s)| == s.cap)
    ensures At(s, t).PopLoadSeq? && At(s, t).pos == s.head ==>
              (At(Step(s, t, c), t) == Returned(Popped(None)) <==> Contents(s) == [])
  {
    var i := Slot(s, s.tail);
    assert CellOk(s, i);
    if At(s, t).PushLoadSeq? && At(s, t).pos == s.tail {
      PushTestMeans(s, t, c);
      TailCell(s, s.tail);
      AllPopsDone(s, t);
    }
    if At(s, t).PopLoadSeq? && At(s, t).pos == s.head { PopTestMeans(s, t, c); }
  }

  /** The item a finishing pop hands over is the one its ticket's push put in. */
  lemma PopReturnsItsTicket<T>(s: State<T>, t: nat, c: Choice<T>)
    requires Inv(s) && At(s, t).PopRelease?
    ensures var pos := At(s, t).pos;
            && pos < s.head && pos !in s.done && s.poppers[pos] == t
            && At(Step(s, t, c), t) == Returned(Popped(Some(s.log[pos])))
            && Step(s, t, c).done == s.done[pos := s.log[pos]]
  {
    assert LocalOk(s, t);
  }

  lemma {:induction false} OthersDoNotMove<T>(s: State<T>, t: nat, sched: seq<(nat, Choice<T>)>)
    requires Ring(s) && forall e | e in sched :: e.0 != t
    ensures At(Run(s, sched), t) == At(s, t)
  {
    if sched != [] {
      var last := |sched| - 1;
      OthersDoNotMove(s, t, sched[..last]);
      assert sched[last] in sched;
      StepFrame(Run(s, sched[..last]), sched[last].0, sched[last].1);
    }
  }

  lemma {:induction false} HeadGrows<T>(s: State<T>, sched: seq<(nat, Choice<T>)>)
    requires Ring(s)
    ensures s.head <= Run(s, sched).head
  {
    if sched != [] {
      var last := |sched| - 1;
      HeadGrows(s, sched[..last]);
      StepFrame(Run(s, sched[..last]), sched[last].0, sched[last].1);
    }
  }

  /** If the tail passes the head that was read, the queue was nonempty at some instant in between. */
  lemma {:induction false} NonemptyInBetween<T>(s: State<T>, sched: seq<(nat, Choice<T>)>) returns (k: nat)
    requires Inv(s) && s.head < Run(s, sched).tail
    ensures k <= |sched| && Run(s, sched[..k]).head < Run(s, sched[..k]).tail
  {
    k := |sched|;
    assert sched[..k] == sched;
    if Run(s, sched).head >= Run(s, sched).tail && sched != [] {
      var last := |sched| - 1;
      RunInv(s, sched);
      RunInv(s, sched[..last]);
      HeadGrows(s, sched[..last]);
      StepFrame(Run(s, sched[..last]), sched[last].0, sched[last].1);
      k := NonemptyInBetween(s, sched[..last]);
      assert sched[..last][..k] == sched[..k];
    }
  }

  /** A whole `is_empty` call, with any steps of other threads between its two loads: `true` means the queue
      is empty at the second load, `false` that it was nonempty at some instant of the call. */
  lemma IsEmptyLinearisable<T>(s: State<T>, t: nat, c: Choice<T>, sched: seq<(nat, Choice<T>)>, c': Choice<T>)
    requires Inv(s) && At(s, t).EmptyLoadHead? && forall e | e in sched :: e.0 != t
    ensures var s1 := Step(s, t, c); var s2 := Run(s1, sched); var l := At(Step(s2, t, c'), t);
            && l in {Returned(Emptiness(true)), Returned(Emptiness(false))}
            && (l.outcome.empty ==> Contents(s2) == [])
            && (!l.outcome.empty ==> exists k :: 0 <= k <= |sched| && Contents(Run(s1, sched[..k])) != [])
  {
    StepInv(s, t, c);
    var s1 := Goto(s, t, EmptyLoadTail(s.head));
    assert Step(s, t, c) == s1;
    SecondLoad(s1, t, sched, c');
  }

  lemma SecondLoad<T>(s: State<T>, t: nat, sched: seq<(nat, Choice<T>)>, c: Choice<T>)
    requires Inv(s) && At(s, t) == EmptyLoadTail(s.head) && forall e | e in sched :: e.0 != t
    ensures var s2 := Run(s, sched);
            && At(Step(s2, t, c), t) == Returned(Emptiness(s2.tail == s.head))
            && (s2.tail == s.head ==> Contents(s2) == [])
            && (s2.tail != s.head ==> exists k :: 0 <= k <= |sched| && Contents(Run(s, sched[..k])) != [])
  {
    OthersDoNotMove(s, t, sched);
    RunInv(s, sched);
    HeadGrows(s, sched);
    if s.head < Run(s, sched).tail {
      var k := NonemptyInBetween(s, sched);
      RunInv(s, sched[..k]);
      assert Contents(Run(s, sched[..k])) != [];
    }
  }

  /** A whole `size` call: the answer is the length at its second load plus the pops that linearised since
      its first load.  It cannot underflow, because the head is read before the tail. */
  lemma SizeNeverUnderflows<T>(s: State<T>, t: nat, c: Choice<T>, sched: seq<(nat, Choice<T>)>, c': Choice<T>)
    requires Inv(s) && At(s, t).SizeLoadHead? && forall e | e in sched :: e.0 != t
    ensures var s1 := Step(s, t, c); var s2 := Run(s1, sched);
            && s.head <= s2.head
            && At(Step(s2, t, c'), t) == Returned(Count(|Contents(s2)| + (s2.head - s.head)))
  {
    StepInv(s, t, c);
    var s1 := Goto(s, t, SizeLoadTail(s.head));
    assert Step(s, t, c) == s1;
    OthersDoNotMove(s1, t, sched);
    RunInv(s1, sched);
    HeadGrows(s1, sched);
  }

  /** Ten steps of one thread on a ring of one cell: a whole push, and the next up to its compare-exchange. */
  function TwoPushes<T>(x: T): seq<(nat, Choice<T>)> {
    var go := (0, Continue(false));
    [(0, CallPush(x)), go, go, go, go, go, (0, CallPush(x)), go, go, go]
  }

  /** Where the thread is after `i` of them. */
  ghost predicate Stage<T>(s: State<T>, x: T, i: nat) {
    && Ring(s) && s.cap == 1 && s.head == 0
    && s.tail == (if i < 4 then 0 else if i < 10 then 1 else 2)
    && s.cells[0].seqNo == (if i < 6 then 0 else 1)
    && At(s, 0) ==
       if i == 0 then Idle else if i == 1 then PushLoadTail(x) else if i == 2 then PushLoadSeq(x, 0)
       else if i == 3 then PushCas(x, 0) else if i == 4 then PushWrite(x, 0) else if i == 5 then PushPublish(x, 0)
       else if i == 6 then Returned(Pushed(true)) else if i == 7 then PushLoadTail(x)
       else if i == 8 then PushLoadSeq(x, 1) else if i == 9 then PushCas(x, 1) else PushWrite(x, 1)
  }

  lemma StageStep<T>(s: State<T>, x: T, i: nat)
    requires i < 10 && Stage(s, x, i)
    ensures Stage(Step(s, 0, TwoPushes(x)[i].1), x, i + 1)
  {
  }

  lemma {:induction false} Stages<T>(blank: T, x: T, i: nat)
    requires i <= 10
    ensures Stage(Run(Init(1, blank), TwoPushes(x)[..i]), x, i)
  {
    if i > 0 {
      Stages(blank, x, i - 1);
      assert TwoPushes(x)[..i][..i - 1] == TwoPushes(x)[..i - 1];
      StageStep(Run(Init(1, blank), TwoPushes(x)[..i - 1]), x, i - 1);
    }
  }

  /** On a ring of one cell a published cell looks free for the next push, so a second push succeeds though
      no pop has run. */
  lemma OneCellOverfills<T>(blank: T, x: T)
    ensures var s := Run(Init(1, blank), TwoPushes(x)); s.tail == 2 && s.head == 0 && s.tail > s.head + s.cap
  {
    Stages(blank, x, 10);
    assert TwoPushes(x)[..10] == TwoPushes(x);
  }

  ghost predicate NeverOverfills<T(!new)>(cap: nat, blank: T)
    requires 0 < cap
  {
    forall sched: seq<(nat, Choice<T>)> :: var s := Run(Init(cap, blank), sched); s.tail <= s.head + cap
  }

  /** The class admits every positive capacity; it is a bounded queue exactly from two cells on. */
  lemma BoundedIffTwoCells<T(!new)>(cap: nat, blank: T)
    requires 0 < cap
    ensures NeverOverfills(cap, blank) <==> 2 <= cap
  {
    if 2 <= cap {
      forall sched: seq<(nat, Choice<T>)>
        ensures var s := Run(Init(cap, blank), sched); s.tail <= s.head + cap
      {
        InitInv(cap, blank);
        RunInv(Init(cap, blank), sched);
      }
    } else {
      OneCellOverfills(blank, blank);
    }
  }
}
