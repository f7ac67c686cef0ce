/** The sequential bounded queue that the concurrent one is compared with. */
module BoundedFifo {
  import opened Wrappers

  /** `Full` and `Empty` are a push and a pop that are refused. */
  datatype Op<+T> = Enqueue(x: T) | Dequeue(x: T) | Full | Empty

  /** The effect of one operation; None when the bounded queue does not allow it. */
  function Apply<T(==)>(cap: nat, q: seq<T>, op: Op<T>): Option<seq<T>> {
    match op
    case Enqueue(x) => if |q| < cap then Some(q + [x]) else None
    case Dequeue(x) => if q != [] && q[0] == x then Some(q[1..]) else None
    case Full => if |q| == cap then Some(q) else None
    case Empty => if q == [] then Some(q) else None
  }

  function Replay<T(==)>(cap: nat, ops: seq<Op<T>>): Option<seq<T>> {
    if ops == [] then Some([])
    else
      var last := |ops| - 1;
      var q := Replay(cap, ops[..last]);
      if q.None? then None else Apply(cap, q.value, ops[last])
  }

  function Enqueued<T>(ops: seq<Op<T>>): seq<T> {
    if ops == [] then []
    else
      var last := |ops| - 1;
      Enqueued(ops[..last]) + (if ops[last].Enqueue? then [ops[last].x] else [])
  }

  function Dequeued<T>(ops: seq<Op<T>>): seq<T> {
    if ops == [] then []
    else
      var last := |ops| - 1;
      Dequeued(ops[..last]) + (if ops[last].Dequeue? then [ops[last].x] else [])
  }

  /** A legal history loses, duplicates and reorders nothing. */
  lemma {:induction false} FirstInFirstOut<T>(cap: nat, ops: seq<Op<T>>)
    requires Replay(cap, ops).Some?
    ensures Enqueued(ops) == Dequeued(ops) + Replay(cap, ops).value
    ensures |Replay(cap, ops).value| <= cap
  {
    if ops != [] { FirstInFirstOut(cap, ops[..|ops| - 1]); }
  }
}
