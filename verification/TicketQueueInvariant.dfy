/** What every reachable state of the ticket queue keeps, for every ring of at least two cells. */
module TicketQueueInvariant {
  import opened TicketQueue

  predicate Full<T>(s: State<T>, i: nat)
    requires Ring(s) && i < s.cap
  {
    s.cells[i].seqNo == s.round[i] + 1
  }

  ghost predicate Shape<T>(s: State<T>) {
    && 2 <= s.cap == |s.cells| == |s.round|
    && |s.log| == |s.pushers| == s.tail && |s.poppers| == s.head
    && s.head <= s.tail <= s.head + s.cap
  }

  /** A cell's sequence number is the push ticket it serves (not yet published) or that ticket plus one. */
  ghost predicate CellOk<T>(s: State<T>, i: nat)
    requires Shape(s) && i < s.cap
  {
    var k := s.round[i];
    && k % s.cap == i
    && (s.cells[i].seqNo == k || s.cells[i].seqNo == k + 1)
    && (Full(s, i) ==> k < s.tail <= k + s.cap && s.cells[i].data == s.log[k] && k !in s.done)
    && (!Full(s, i) ==> s.head <= k)
    && (!Full(s, i) && k < s.tail ==> s.tail <= k + s.cap && Pushing(s, k))
    && (!Full(s, i) && s.tail <= k ==> k < s.head + s.cap)
  }

  /** A popped ticket is either finished, with the pushed item, or still held by the thread that won it. */
  ghost predicate TicketOk<T>(s: State<T>, k: nat)
    requires Shape(s) && k < s.head
  {
    if k in s.done then s.done[k] == s.log[k]
    else Popping(s, k)
  }

  /** What a thread knows.  A tested sequence number may be stale, but it is a lower bound for ever. */
  ghost predicate LocalOk<T>(s: State<T>, t: nat)
    requires Shape(s)
  {
    match At(s, t)
    case PushLoadSeq(_, pos) => pos <= s.tail
    case PushCas(_, pos) => pos <= s.tail && pos <= s.cells[Slot(s, pos)].seqNo
    case PushWrite(x, pos) => PushOwner(s, t, x, pos)
    case PushPublish(x, pos) => PushOwner(s, t, x, pos) && s.cells[Slot(s, pos)].data == x
    case PopLoadSeq(pos) => pos <= s.head
    case PopCas(pos) => pos <= s.head && pos < s.cells[Slot(s, pos)].seqNo
    case PopRead(pos) => PopOwner(s, t, pos)
    case PopRelease(pos, x) => PopOwner(s, t, pos) && x == s.log[pos]
    case EmptyLoadTail(h) => h <= s.head
    case SizeLoadTail(h) => h <= s.head
    case _ => true
  }

  ghost predicate PushOwner<T>(s: State<T>, t: nat, x: T, pos: nat)
    requires Shape(s)
  {
    && pos < s.tail && s.log[pos] == x && s.pushers[pos] == t
    && s.round[Slot(s, pos)] == pos && !Full(s, Slot(s, pos))
  }

  ghost predicate PopOwner<T>(s: State<T>, t: nat, pos: nat)
    requires Shape(s)
  {
    && pos < s.head && s.poppers[pos] == t && pos !in s.done
    && s.round[Slot(s, pos)] == pos && Full(s, Slot(s, pos))
  }

  ghost predicate Inv<T>(s: State<T>) {
    && Shape(s)
    && (forall i: nat | i < s.cap :: CellOk(s, i))
    && (forall k: nat | k < s.head :: TicketOk(s, k))
    && (forall k | k in s.done :: k < s.head)
    && (forall t: nat :: LocalOk(s, t))
  }

  lemma Scale(x: int, y: int, c: nat)
    ensures x <= y ==> x * c <= y * c
  {
    assert (y - x) * c == y * c - x * c;
  }

  /** Different tickets of one cell are at least a ring apart. */
  lemma SameCell(a: nat, b: nat, c: nat)
    requires 0 < c && a % c == b % c
    ensures a < b ==> a + c <= b
  {
    var d := b / c - a / c;
    assert b - a == d * c;
    Scale(d, 0, c);
    Scale(1, d, c);
  }

  lemma DivisionUnique(n: nat, q: nat, r: nat, c: nat)
    requires r < c && n == q * c + r
    ensures n % c == r
  {
    var d := n / c - q;
    assert d * c == r - n % c;
    Scale(1, d, c);
    Scale(d, -1, c);
  }

  lemma NextRound(k: nat, c: nat)
    requires 0 < c
    ensures (k + c) % c == k % c
  {
    var q := k / c;
    assert k + c == (q + 1) * c + k % c;
    DivisionUnique(k + c, q + 1, k % c, c);
  }

  lemma InitInv<T>(cap: nat, blank: T)
    requires 2 <= cap
    ensures Inv(Init(cap, blank))
  {
    var s := Init(cap, blank);
    forall i: nat | i < cap ensures CellOk(s, i) { DivisionUnique(i, 0, i, cap); }
  }

  /** The cell of the next push ticket is either free for it or still serves the ticket one ring earlier. */
  lemma TailCell<T>(s: State<T>, pos: nat)
    requires Inv(s) && pos <= s.tail
    ensures var i := Slot(s, pos);
            && (s.cells[i].seqNo < pos ==> s.tail == pos && s.round[i] == pos - s.cap)
            && (s.cells[i].seqNo > pos ==> pos < s.tail)
            && (pos == s.tail <= s.cells[i].seqNo ==> s.round[i] == pos && !Full(s, i) && pos < s.head + s.cap)
  {
    var i := Slot(s, pos);
    assert CellOk(s, i);
    SameCell(s.round[i], pos, s.cap);
    SameCell(pos, s.round[i], s.cap);
  }

  /** The push of ticket `k` is in flight: its thread has won the ticket and not yet stored the sequence number. */
  predicate Pushing<T>(s: State<T>, k: nat) {
    k < |s.pushers| && At(s, s.pushers[k]).HoldsPush() && At(s, s.pushers[k]).pos == k
  }

  predicate Popping<T>(s: State<T>, k: nat) {
    k < |s.poppers| && At(s, s.poppers[k]).HoldsPop() && At(s, s.poppers[k]).pos == k
  }

  /** The cell of the next pop ticket is either published for it or not yet. */
  lemma HeadCell<T>(s: State<T>, pos: nat)
    requires Inv(s) && pos <= s.head
    ensures var i := Slot(s, pos);
            && (s.cells[i].seqNo <= pos ==> s.head == pos && (pos == s.tail || Pushing(s, pos)))
            && (s.cells[i].seqNo > pos + 1 ==> pos < s.head)
            && (pos == s.head && pos < s.cells[i].seqNo ==> s.round[i] == pos < s.tail && Full(s, i))
  {
    var i := Slot(s, pos);
    assert CellOk(s, i);
    SameCell(s.round[i], pos, s.cap);
    SameCell(pos, s.round[i], s.cap);
  }

  /** A step that only moves a thread that holds no ticket. */
  lemma LocalStep<T>(s: State<T>, t: nat, l: Local<T>)
    requires Inv(s) && !At(s, t).Holds() && !l.Holds()
    requires LocalOk(Goto(s, t, l), t)
    ensures Inv(Goto(s, t, l))
  {
    var s' := Goto(s, t, l);
    forall i: nat | i < s.cap ensures CellOk(s', i) { assert CellOk(s, i); }
    forall k: nat | k < s.head ensures TicketOk(s', k) { assert TicketOk(s, k); }
    forall u: nat ensures LocalOk(s', u) { assert LocalOk(s, u); }
  }

  lemma WinTail<T>(s: State<T>, t: nat, c: Choice<T>)
    requires Inv(s) && At(s, t).PushCas? && At(s, t).pos == s.tail && c != Continue(true)
    ensures Inv(Step(s, t, c))
  {
    var pos := s.tail;
    assert LocalOk(s, t);
    TailCell(s, pos);
    var s' := Step(s, t, c);
    forall i: nat | i < s.cap ensures CellOk(s', i) {
      assert CellOk(s, i);
      NextRound(s.round[i], s.cap);
    }
    forall k: nat | k < s.head ensures TicketOk(s', k) { assert TicketOk(s, k); }
    forall u: nat ensures LocalOk(s', u) { assert LocalOk(s, u); }
  }

  lemma WriteData<T>(s: State<T>, t: nat, c: Choice<T>)
    requires Inv(s) && At(s, t).PushWrite?
    ensures Inv(Step(s, t, c))
  {
    var s' := Step(s, t, c);
    assert LocalOk(s, t);
    forall i: nat | i < s.cap ensures CellOk(s', i) { assert CellOk(s, i); }
    forall k: nat | k < s.head ensures TicketOk(s', k) { assert TicketOk(s, k); }
    forall u: nat ensures LocalOk(s', u) { assert LocalOk(s, u); }
  }

  lemma Publish<T>(s: State<T>, t: nat, c: Choice<T>)
    requires Inv(s) && At(s, t).PushPublish?
    ensures Inv(Step(s, t, c))
  {
    var s' := Step(s, t, c);
    assert LocalOk(s, t);
    assert CellOk(s, Slot(s, At(s, t).pos));
    forall i: nat | i < s.cap ensures CellOk(s', i) { assert CellOk(s, i); }
    forall k: nat | k < s.head ensures TicketOk(s', k) { assert TicketOk(s, k); }
    forall u: nat ensures LocalOk(s', u) { assert LocalOk(s, u); }
  }

  lemma WinHead<T>(s: State<T>, t: nat, c: Choice<T>)
    requires Inv(s) && At(s, t).PopCas? && At(s, t).pos == s.head && c != Continue(true)
    ensures Inv(Step(s, t, c))
  {
    var pos := s.head;
    assert LocalOk(s, t);
    HeadCell(s, pos);
    var s' := Step(s, t, c);
    forall i: nat | i < s.cap ensures CellOk(s', i) { assert CellOk(s, i); }
    forall k: nat | k < s'.head ensures TicketOk(s', k) { assert k < s.head ==> TicketOk(s, k); }
    forall u: nat ensures LocalOk(s', u) { assert LocalOk(s, u); }
  }

  lemma ReadData<T>(s: State<T>, t: nat, c: Choice<T>)
    requires Inv(s) && At(s, t).PopRead?
    ensures Inv(Step(s, t, c))
  {
    var s' := Step(s, t, c);
    assert LocalOk(s, t);
    assert CellOk(s, Slot(s, At(s, t).pos));
    forall i: nat | i < s.cap ensures CellOk(s', i) { assert CellOk(s, i); }
    forall k: nat | k < s.head ensures TicketOk(s', k) { assert TicketOk(s, k); }
    forall u: nat ensures LocalOk(s', u) { assert LocalOk(s, u); }
  }

  lemma Release<T>(s: State<T>, t: nat, c: Choice<T>)
    requires Inv(s) && At(s, t).PopRelease?
    ensures Inv(Step(s, t, c))
  {
    var s' := Step(s, t, c);
    var pos := At(s, t).pos;
    assert LocalOk(s, t);
    assert CellOk(s, Slot(s, pos));
    NextRound(pos, s.cap);
    forall i: nat | i < s.cap ensures CellOk(s', i) { assert CellOk(s, i); }
    forall k: nat | k < s.head ensures TicketOk(s', k) { assert TicketOk(s, k); }
    forall u: nat ensures LocalOk(s', u) { assert LocalOk(s, u); }
  }

  /** The compare-exchange of this step succeeds: thread `t` takes a ticket. */
  predicate Wins<T>(s: State<T>, t: nat, c: Choice<T>) {
    && c != Continue(true)
    && (At(s, t).PushCas? ==> s.tail == At(s, t).pos)
    && (At(s, t).PopCas? ==> s.head == At(s, t).pos)
    && (At(s, t).PushCas? || At(s, t).PopCas?)
  }

  /** Calls, loads and failed compare-exchanges write no shared memory. */
  lemma QuietStep<T>(s: State<T>, t: nat, c: Choice<T>)
    requires Inv(s) && !At(s, t).Holds() && !Wins(s, t, c)
    ensures var l := At(Step(s, t, c), t);
            && (Step(s, t, c) == s || Step(s, t, c) == Goto(s, t, l))
            && !l.Holds() && LocalOk(Goto(s, t, l), t)
  {
    assert LocalOk(s, t);
  }

  /** Every step of every thread keeps the invariant. */
  lemma StepInv<T>(s: State<T>, t: nat, c: Choice<T>)
    requires Inv(s)
    ensures Inv(Step(s, t, c))
  {
    match At(s, t)
    case PushWrite(_, _) => WriteData(s, t, c);
    case PushPublish(_, _) => Publish(s, t, c);
    case PopRead(_) => ReadData(s, t, c);
    case PopRelease(_, _) => Release(s, t, c);
    case _ =>
      if Wins(s, t, c) {
        if At(s, t).PushCas? { WinTail(s, t, c); } else { WinHead(s, t, c); }
      } else {
        QuietStep(s, t, c);
        if Step(s, t, c) != s { LocalStep(s, t, At(Step(s, t, c), t)); }
      }
  }

  lemma {:induction false} RunInv<T>(s: State<T>, sched: seq<(nat, Choice<T>)>)
    requires Inv(s)
    ensures Inv(Run(s, sched))
  {
    if sched != [] {
      var last := |sched| - 1;
      RunInv(s, sched[..last]);
      StepInv(Run(s, sched[..last]), sched[last].0, sched[last].1);
    }
  }
}
