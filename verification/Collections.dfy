/** Two facts about finite collections that several parts need. */
module Collections {

  lemma SubsetCount<T>(a: set<T>, b: set<T>)
    requires a <= b
    ensures |a| <= |b|
  {
    assert b == a + (b - a);
  }

  /** The first element that is not idle; idle when there is none. */
  function Foremost<T(==)>(xs: seq<T>, idle: T): T {
    if xs == [] then idle
    else
      var before := Foremost(xs[..|xs| - 1], idle);
      if before == idle then xs[|xs| - 1] else before
  }

  lemma {:induction false} ForemostExactly<T>(xs: seq<T>, idle: T)
    ensures Foremost(xs, idle) == idle ==> forall i :: 0 <= i < |xs| ==> xs[i] == idle
    ensures Foremost(xs, idle) != idle ==>
              exists i :: 0 <= i < |xs| && xs[i] == Foremost(xs, idle) && forall j :: 0 <= j < i ==> xs[j] == idle
  {
    if xs != [] {
      var before, n := xs[..|xs| - 1], |xs| - 1;
      ForemostExactly(before, idle);
      assert forall j :: 0 <= j < n ==> before[j] == xs[j];
      if Foremost(before, idle) == idle {
        assert xs[n] == Foremost(xs, idle);
      } else {
        var i :| 0 <= i < n && before[i] == Foremost(before, idle) && forall j :: 0 <= j < i ==> before[j] == idle;
        assert xs[i] == Foremost(xs, idle);
      }
    }
  }

  /** Adding an element at the end. */
  lemma ForemostStep<T>(xs: seq<T>, last: T, idle: T)
    ensures Foremost(xs + [last], idle) == if Foremost(xs, idle) == idle then last else Foremost(xs, idle)
  {
    assert (xs + [last])[..|xs|] == xs;
  }
}
