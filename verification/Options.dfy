/** A nullable column or an optional argument of the services. */
module Options {
  datatype Option<+T> = None | Some(value: T)

  datatype Result<+T, +E> = Ok(value: T) | Err(error: E)

  /** How many elements satisfy the predicate. */
  function Count<T>(xs: seq<T>, p: T -> bool): nat {
    var n := |xs|;
    if n == 0 then 0 else Count(xs[..n - 1], p) + if p(xs[n - 1]) then 1 else 0
  }

  function Positions<T>(xs: seq<T>, p: T -> bool): (r: set<int>)
    ensures forall i :: i in r <==> 0 <= i < |xs| && p(xs[i])
  {
    set i | 0 <= i < |xs| && p(xs[i])
  }

  /** It is the number of their positions. */
  lemma {:induction false} CountIsSize<T>(xs: seq<T>, p: T -> bool)
    ensures Count(xs, p) == |Positions(xs, p)|
  {
    var n := |xs|;
    var all := Positions(xs, p);
    if n > 0 {
      CountIsSize(xs[..n - 1], p);
      assert all == Positions(xs[..n - 1], p) + if p(xs[n - 1]) then {n - 1} else {};
    } else {
      assert all == {};
    }
  }
}
