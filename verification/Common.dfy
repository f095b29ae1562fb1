/** Types every component shares. */
module Common {
  datatype Option<+T> = None | Some(value: T)

  /** The labels of an object. */
  type Labels = map<string, string>

  datatype Result<+T, +E> = Success(value: T) | Failure(error: E)

  /** A set of the integers of an interval has as many members as the interval. */
  lemma {:induction false} IntervalSize(lo: int, hi: int, s: set<int>)
    requires lo <= hi + 1
    requires forall x :: x in s <==> lo <= x <= hi
    ensures |s| == hi - lo + 1
    decreases hi - lo
  {
    if lo <= hi {
      IntervalSize(lo, hi - 1, s - {hi});
    } else {
      assert forall x :: x !in s;
    }
  }

  lemma {:induction false} SubsetSize<T>(a: set<T>, b: set<T>)
    requires a <= b
    ensures |a| <= |b|
  {
    assert b == a + (b - a);
  }

  /** The numbers of a set in increasing order. */
  method Sorted(keys: set<nat>) returns (sorted: seq<nat>)
    ensures forall i, j :: 0 <= i < j < |sorted| ==> sorted[i] < sorted[j]
    ensures forall a :: a in keys <==> a in sorted
  {
    sorted := [];
    var rest := keys;
    while rest != {}
      invariant rest <= keys
      invariant forall i, j :: 0 <= i < j < |sorted| ==> sorted[i] < sorted[j]
      invariant forall a, i :: a in rest && 0 <= i < |sorted| ==> sorted[i] < a
      invariant forall a :: a in keys <==> a in rest || a in sorted
      decreases rest
    {
      var least := Least(rest);
      sorted := sorted + [least];
      rest := rest - {least};
    }
  }

  method Least(keys: set<nat>) returns (least: nat)
    requires keys != {}
    ensures least in keys && forall a :: a in keys ==> least <= a
  {
    least :| least in keys;
    var rest := keys - {least};
    while rest != {}
      invariant rest <= keys && least in keys
      invariant forall a :: a in keys ==> a in rest || least <= a
      decreases rest
    {
      var a :| a in rest;
      rest := rest - {a};
      if a < least {
        least := a;
      }
    }
  }
}
