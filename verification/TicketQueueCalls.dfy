/** From a call to its answer: the item a push puts in is the one it was called with, each operation takes one ticket
    at most, and what it answers says whether it took one. */
module TicketQueueCalls {
  import opened Wrappers
  import opened BoundedFifo
  import opened TicketQueue
  import opened TicketQueueInvariant
  import opened TicketQueueTheorems

  /** A push with item `x` is running. */
  predicate InPush<T(==)>(l: Local<T>, x: T) {
    (l.PushLoadTail? || l.PushLoadSeq? || l.PushCas? || l.PushWrite? || l.PushPublish?) && l.item == x
  }

  predicate InPop<T>(l: Local<T>) {
    l.PopLoadHead? || l.PopLoadSeq? || l.PopCas? || l.PopRead? || l.PopRelease?
  }

  /** A running push keeps its item until it answers.  It answers true exactly when it publishes its cell, and false
      only before it has taken a ticket. */
  lemma PushKeepsItem<T>(s: State<T>, t: nat, c: Choice<T>, x: T)
    requires Ring(s) && InPush(At(s, t), x)
    ensures var l := At(Step(s, t, c), t);
            && (InPush(l, x) || l == Returned(Pushed(true)) || l == Returned(Pushed(false)))
            && (l == Returned(Pushed(true)) <==> At(s, t).PushPublish?)
            && (l == Returned(Pushed(false)) ==> !At(s, t).HoldsPush())
            && (l.HoldsPush() <==> At(s, t).PushWrite? || Wins(s, t, c))
  {
  }

  /** A running pop goes on until it answers: with an item exactly when it releases its cell, and with nothing only
      before it has taken a ticket. */
  lemma PopKeepsGoing<T>(s: State<T>, t: nat, c: Choice<T>)
    requires Ring(s) && InPop(At(s, t))
    ensures var l := At(Step(s, t, c), t);
            && (InPop(l) || (l.Returned? && l.outcome.Popped?))
            && (l.Returned? && l.outcome.item.Some? <==> At(s, t).PopRelease?)
            && (l.Returned? && l.outcome.item.None? ==> !At(s, t).HoldsPop())
            && (l.HoldsPop() <==> At(s, t).PopRead? || Wins(s, t, c))
  {
  }

  /** A thread at rest begins the call it is given, and no other thread's call begins. */
  lemma CallBegins<T>(s: State<T>, t: nat, c: Choice<T>)
    requires Ring(s) && At(s, t).AtRest()
    ensures var l := At(Step(s, t, c), t);
            && (c.CallPush? ==> InPush(l, c.x)) && (c.CallPop? ==> InPop(l))
            && (!c.CallPush? ==> forall x :: !InPush(l, x))
            && !l.Holds()
  {
  }

  /** The argument of the thread's last call of push. */
  function Argument<T>(s: State<T>, sched: seq<(nat, Choice<T>)>, t: nat): seq<T>
    requires Ring(s)
  {
    if sched == [] then []
    else
      var last := |sched| - 1;
      var (u, c) := sched[last];
      if u == t && At(Run(s, sched[..last]), t).AtRest() && c.CallPush? then [c.x] else Argument(s, sched[..last], t)
  }

  /** In every schedule from a state at rest, a running push carries the argument it was called with. */
  lemma {:induction false} CarriesArgument<T>(s: State<T>, sched: seq<(nat, Choice<T>)>, t: nat, x: T)
    requires Ring(s) && At(s, t).AtRest() && InPush(At(Run(s, sched), t), x)
    ensures Argument(s, sched, t) == [x]
  {
    if sched != [] {
      var last := |sched| - 1;
      var before, u, c := Run(s, sched[..last]), sched[last].0, sched[last].1;
      StepFrame(before, u, c);
      if u != t {
        CarriesArgument(s, sched[..last], t, x);
      } else if At(before, t).AtRest() {
        CallBegins(before, t, c);
      } else {
        OnlyPushesPush(before, t, c, x);
        CarriesArgument(s, sched[..last], t, x);
      }
    }
  }

  lemma OnlyPushesPush<T>(s: State<T>, t: nat, c: Choice<T>, x: T)
    requires Ring(s) && !At(s, t).AtRest() && InPush(At(Step(s, t, c), t), x)
    ensures InPush(At(s, t), x)
  {
  }

  /** The arguments of the pushes that have taken a ticket, in ticket order. */
  function ArgumentsWon<T>(s: State<T>, sched: seq<(nat, Choice<T>)>): seq<T>
    requires Ring(s)
  {
    if sched == [] then []
    else
      var last := |sched| - 1;
      var before, u, c := Run(s, sched[..last]), sched[last].0, sched[last].1;
      ArgumentsWon(s, sched[..last]) + (if Wins(before, u, c) && At(before, u).PushCas? then Argument(s, sched[..last], u) else [])
  }

  /** Over every schedule, what is put into the queue are the arguments of the pushes that took a ticket, in ticket order. */
  lemma {:induction false} EnqueuesArguments<T>(cap: nat, blank: T, sched: seq<(nat, Choice<T>)>)
    requires 2 <= cap
    ensures var s0 := Init(cap, blank);
            && Enqueued(Linearisation(s0, sched)) == ArgumentsWon(s0, sched) == Run(s0, sched).log
  {
    var s0 := Init(cap, blank);
    Linearisable(cap, blank, sched);
    if sched != [] {
      var last := |sched| - 1;
      var before, u, c := Run(s0, sched[..last]), sched[last].0, sched[last].1;
      EnqueuesArguments(cap, blank, sched[..last]);
      LogGrows(before, u, c);
      if Wins(before, u, c) && At(before, u).PushCas? {
        CarriesArgument(s0, sched[..last], u, At(before, u).item);
      }
    }
  }

  lemma LogGrows<T>(s: State<T>, t: nat, c: Choice<T>)
    requires Ring(s)
    ensures Step(s, t, c).log == s.log + if Wins(s, t, c) && At(s, t).PushCas? then [At(s, t).item] else []
  {
  }

  /** How many pushes of the thread have taken a ticket, and how many have answered true. */
  function PushWins<T>(s: State<T>, sched: seq<(nat, Choice<T>)>, t: nat): nat
    requires Ring(s)
  {
    if sched == [] then 0
    else
      var last := |sched| - 1;
      var before, u, c := Run(s, sched[..last]), sched[last].0, sched[last].1;
      PushWins(s, sched[..last], t) + if u == t && At(before, t).PushCas? && Wins(before, t, c) then 1 else 0
  }

  function TrueAnswers<T>(s: State<T>, sched: seq<(nat, Choice<T>)>, t: nat): nat
    requires Ring(s)
  {
    if sched == [] then 0
    else
      var last := |sched| - 1;
      var before, u, c := Run(s, sched[..last]), sched[last].0, sched[last].1;
      TrueAnswers(s, sched[..last], t)
      + if u == t && !At(before, t).AtRest() && Answers(At(Step(before, t, c), t), true) then 1 else 0
  }

  predicate Answers<T>(l: Local<T>, ok: bool) {
    l.Returned? && l.outcome.Pushed? && l.outcome.ok == ok
  }

  /** Over every schedule, a thread's pushes that answered true, and the one still holding a ticket, are as many as the
      tickets it took: a push that answers true has put its item in exactly once, one that answers false never. */
  lemma {:induction false} TrueMeansOnce<T>(s: State<T>, sched: seq<(nat, Choice<T>)>, t: nat)
    requires Ring(s) && At(s, t).AtRest()
    ensures PushWins(s, sched, t) == TrueAnswers(s, sched, t) + if At(Run(s, sched), t).HoldsPush() then 1 else 0
  {
    if sched != [] {
      var last := |sched| - 1;
      var before, u, c := Run(s, sched[..last]), sched[last].0, sched[last].1;
      TrueMeansOnce(s, sched[..last], t);
      StepFrame(before, u, c);
      OneTicket(before, t, c);
    }
  }

  lemma OneTicket<T>(s: State<T>, t: nat, c: Choice<T>)
    requires Ring(s)
    ensures var l := At(Step(s, t, c), t);
            (if At(s, t).HoldsPush() then 1 else 0) + (if At(s, t).PushCas? && Wins(s, t, c) then 1 else 0)
            == (if l.HoldsPush() then 1 else 0) + (if !At(s, t).AtRest() && Answers(l, true) then 1 else 0)
  {
  }
}
