/** Sequence helpers: list comprehensions with a filter, and set(...) of a list. */
module Sequences {

  /** Python's set(xs). */
  function ToSet<T>(xs: seq<T>): set<T>
  {
    set x | x in xs
  }

  /** Python's [x for x in xs if f(x)]: keeps the elements satisfying f, in order. */
  function Filter<T>(xs: seq<T>, f: T -> bool): (r: seq<T>)
    ensures |r| <= |xs|
    ensures forall x | x in r :: x in xs && f(x)
  {
    if xs == [] then [] else (if f(xs[0]) then [xs[0]] else []) + Filter(xs[1..], f)
  }

  /** Every element satisfying f is kept. */
  lemma {:induction false} FilterKeepsAll<T>(xs: seq<T>, f: T -> bool)
    ensures forall i | 0 <= i < |xs| && f(xs[i]) :: xs[i] in Filter(xs, f)
  {
    if xs != [] {
      FilterKeepsAll(xs[1..], f);
      assert forall i | 1 <= i < |xs| :: xs[i] == xs[1..][i - 1];
    }
  }

  /** Filtering a list extended by one element extends the result by that element when it satisfies f. */
  lemma {:induction false} FilterAppend<T>(xs: seq<T>, x: T, f: T -> bool)
    ensures Filter(xs + [x], f) == Filter(xs, f) + (if f(x) then [x] else [])
  {
    if xs != [] {
      assert (xs + [x])[1..] == xs[1..] + [x];
      FilterAppend(xs[1..], x, f);
    }
  }

  /** The filtered list is empty exactly when no element satisfies f. */
  lemma {:induction false} FilterEmpty<T>(xs: seq<T>, f: T -> bool)
    ensures |Filter(xs, f)| == 0 <==> forall i | 0 <= i < |xs| :: !f(xs[i])
  {
    if xs != [] {
      FilterEmpty(xs[1..], f);
      if !f(xs[0]) {
        assert forall i | 1 <= i < |xs| :: xs[i] == xs[1..][i - 1];
      }
    }
  }

  /** The filtered list has two or more elements exactly when two distinct positions satisfy f. */
  lemma {:induction false} FilterPair<T>(xs: seq<T>, f: T -> bool)
    ensures |Filter(xs, f)| >= 2 <==> exists i, j | 0 <= i < j < |xs| :: f(xs[i]) && f(xs[j])
  {
    if xs != [] {
      var rest := xs[1..];
      FilterPair(rest, f);
      FilterEmpty(rest, f);
      if |Filter(xs, f)| >= 2 {
        if f(xs[0]) {
          var j :| 0 <= j < |rest| && f(rest[j]);
          assert f(xs[0]) && f(xs[j + 1]);
        } else {
          var i, j :| 0 <= i < j < |rest| && f(rest[i]) && f(rest[j]);
          assert f(xs[i + 1]) && f(xs[j + 1]);
        }
      }
      if exists i, j | 0 <= i < j < |xs| :: f(xs[i]) && f(xs[j]) {
        var i, j :| 0 <= i < j < |xs| && f(xs[i]) && f(xs[j]);
        assert f(rest[j - 1]);
        if i > 0 {
          assert f(rest[i - 1]);
        } else {
          assert f(xs[0]);
        }
      }
    }
  }

  /** When exactly one element is kept, it stands at the only position satisfying f. */
  lemma {:induction false} FilterSingle<T>(xs: seq<T>, f: T -> bool)
    requires |Filter(xs, f)| == 1
    ensures exists i | 0 <= i < |xs| :: f(xs[i]) && xs[i] == Filter(xs, f)[0]
              && forall j | 0 <= j < |xs| && j != i :: !f(xs[j])
  {
    var rest := xs[1..];
    FilterEmpty(rest, f);
    if f(xs[0]) {
      assert Filter(xs, f)[0] == xs[0];
      assert forall j | 1 <= j < |xs| :: xs[j] == rest[j - 1];
    } else {
      FilterSingle(rest, f);
      var i :| 0 <= i < |rest| && f(rest[i]) && rest[i] == Filter(rest, f)[0]
                && forall j | 0 <= j < |rest| && j != i :: !f(rest[j]);
      assert forall j | 1 <= j < |xs| :: xs[j] == rest[j - 1];
      assert xs[i + 1] == Filter(xs, f)[0];
    }
  }
}
