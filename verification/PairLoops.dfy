/** Loops over all pairs of a list, whatever it is that combines two elements. */
module PairLoops {

  /** What two rows contribute: nothing, or something. */
  type Combine<!T> = (T, T) -> seq<T>

  /** `a` against each of `rest`, in order. */
  ghost function PairsWith<T>(f: Combine<T>, a: T, rest: seq<T>): seq<T> {
    if rest == [] then [] else f(a, rest[0]) + PairsWith(f, a, rest[1..])
  }

  /** All pairs of `rows`, in the order of the double loop over i < j. */
  ghost function AllPairs<T>(f: Combine<T>, rows: seq<T>): seq<T> {
    if rows == [] then [] else PairsWith(f, rows[0], rows[1..]) + AllPairs(f, rows[1..])
  }

  ghost predicate Symmetric<T(!new)>(f: Combine<T>) {
    forall a, b :: f(a, b) == f(b, a)
  }

  lemma ConcatAssoc<T>(x: seq<T>, y: seq<T>, z: seq<T>)
    ensures (x + y) + z == x + (y + z)
  {}

  lemma SliceCons<T>(s: seq<T>, i: nat, end: nat)
    requires i < end <= |s|
    ensures s[i..end] == [s[i]] + s[i + 1..end]
  {}

  lemma SliceSplit<T>(s: seq<T>, i: nat, end: nat)
    requires i <= end <= |s|
    ensures s[..end] == s[..i] + s[i..end]
  {}

  lemma PrefixGrows<T>(x: seq<T>, y: seq<T>, z: seq<T>)
    requires x <= y
    ensures x <= y + z
  {}

  // ---- Appending ---------------------------------------------------------------------------

  lemma PairsWithCons<T>(f: Combine<T>, a: T, e: T, y: seq<T>)
    ensures PairsWith(f, a, [e] + y) == f(a, e) + PairsWith(f, a, y)
  {
    assert ([e] + y)[1..] == y;
  }

  lemma AllPairsCons<T>(f: Combine<T>, e: T, y: seq<T>)
    ensures AllPairs(f, [e] + y) == PairsWith(f, e, y) + AllPairs(f, y)
  {
    assert ([e] + y)[1..] == y;
  }

  lemma {:induction false} PairsWithConcat<T>(f: Combine<T>, a: T, x: seq<T>, y: seq<T>)
    ensures PairsWith(f, a, x + y) == PairsWith(f, a, x) + PairsWith(f, a, y)
  {
    if x == [] {
      assert x + y == y;
    } else {
      PairsWithConcat(f, a, x[1..], y);
      assert (x + y)[1..] == x[1..] + y;
      ConcatAssoc(f(a, x[0]), PairsWith(f, a, x[1..]), PairsWith(f, a, y));
    }
  }

  lemma PairsWithSnoc<T>(f: Combine<T>, a: T, s: seq<T>, lo: nat, hi: nat)
    requires lo <= hi < |s|
    ensures PairsWith(f, a, s[lo..hi + 1]) == PairsWith(f, a, s[lo..hi]) + f(a, s[hi])
  {
    assert s[lo..hi + 1] == s[lo..hi] + [s[hi]];
    PairsWithConcat(f, a, s[lo..hi], [s[hi]]);
    assert PairsWith(f, a, [s[hi]]) == f(a, s[hi]) + [];
  }

  // ---- The order of the rows does not matter -----------------------------------------------

  /** Pulling an element from the middle to the front keeps the pairs with `a`. */
  lemma PairsWithMoveToFront<T>(f: Combine<T>, a: T, x: seq<T>, e: T, y: seq<T>)
    ensures multiset(PairsWith(f, a, x + ([e] + y))) == multiset(PairsWith(f, a, [e] + (x + y)))
  {
    PairsWithConcat(f, a, x, [e] + y);
    PairsWithCons(f, a, e, y);
    PairsWithCons(f, a, e, x + y);
    PairsWithConcat(f, a, x, y);
  }

  /** Pulling an element from the middle to the front keeps all pairs. */
  lemma {:induction false} AllPairsMoveToFront<T(!new)>(f: Combine<T>, x: seq<T>, e: T, y: seq<T>)
    requires Symmetric(f)
    ensures multiset(AllPairs(f, x + ([e] + y))) == multiset(AllPairs(f, [e] + (x + y)))
  {
    if x == [] {
      assert x + ([e] + y) == [e] + (x + y);
    } else {
      var h, t := x[0], x[1..];
      assert x + ([e] + y) == [h] + (t + ([e] + y));
      assert x + y == [h] + (t + y);
      AllPairsCons(f, h, t + ([e] + y));
      AllPairsMoveToFront(f, t, e, y);
      PairsWithMoveToFront(f, h, t, e, y);
      PairsWithCons(f, h, e, t + y);
      AllPairsCons(f, e, t + y);
      AllPairsCons(f, e, x + y);
      AllPairsCons(f, h, t + y);
      PairsWithCons(f, e, h, t + y);
      assert f(e, h) == f(h, e);
    }
  }

  /** The first element of `x` is somewhere in its permutation `y`. */
  lemma FindFirst<T>(x: seq<T>, y: seq<T>) returns (i: nat)
    requires multiset(x) == multiset(y) && x != []
    ensures i < |y| && y == y[..i] + ([x[0]] + y[i + 1..])
    ensures multiset(x[1..]) == multiset(y[..i] + y[i + 1..])
  {
    assert x[0] in multiset(y);
    i :| i < |y| && y[i] == x[0];
    var rest := y[..i] + y[i + 1..];
    assert x == [x[0]] + x[1..];
    assert y == y[..i] + ([x[0]] + y[i + 1..]);
    assert multiset(y) == multiset(y[..i]) + (multiset{x[0]} + multiset(y[i + 1..]));
    assert multiset(rest) == multiset(y[..i]) + multiset(y[i + 1..]);
    assert multiset(x) == multiset{x[0]} + multiset(x[1..]);
    assert multiset(x) - multiset{x[0]} == multiset(x[1..]);
    assert multiset(y) - multiset{x[0]} == multiset(rest);
  }

  lemma {:induction false} PairsWithPermuted<T>(f: Combine<T>, a: T, x: seq<T>, y: seq<T>)
    requires multiset(x) == multiset(y)
    ensures multiset(PairsWith(f, a, x)) == multiset(PairsWith(f, a, y))
    decreases |x|
  {
    if x == [] {
      assert |multiset(y)| == 0;
    } else {
      var i := FindFirst(x, y);
      PairsWithPermuted(f, a, x[1..], y[..i] + y[i + 1..]);
      PairsWithMoveToFront(f, a, y[..i], x[0], y[i + 1..]);
      PairsWithCons(f, a, x[0], y[..i] + y[i + 1..]);
    }
  }

  /** A symmetric pair loop is blind to the order of its rows. */
  lemma {:induction false} AllPairsPermuted<T(!new)>(f: Combine<T>, x: seq<T>, y: seq<T>)
    requires Symmetric(f) && multiset(x) == multiset(y)
    ensures multiset(AllPairs(f, x)) == multiset(AllPairs(f, y))
    decreases |x|
  {
    if x == [] {
      assert |multiset(y)| == 0;
    } else {
      var i := FindFirst(x, y);
      var rest := y[..i] + y[i + 1..];
      AllPairsPermuted(f, x[1..], rest);
      PairsWithPermuted(f, x[0], x[1..], rest);
      AllPairsMoveToFront(f, y[..i], x[0], y[i + 1..]);
      AllPairsCons(f, x[0], rest);
    }
  }

  // ---- Splitting where nothing combines across ---------------------------------------------

  ghost predicate NoneWith<T>(f: Combine<T>, a: T, rows: seq<T>) {
    forall i :: 0 <= i < |rows| ==> f(a, rows[i]) == []
  }

  lemma {:induction false} NoPairsWith<T>(f: Combine<T>, a: T, rows: seq<T>)
    requires NoneWith(f, a, rows)
    ensures PairsWith(f, a, rows) == []
  {
    if rows != [] {
      NoPairsWith(f, a, rows[1..]);
    }
  }

  ghost predicate NoneAcross<T>(f: Combine<T>, x: seq<T>, y: seq<T>) {
    forall i :: 0 <= i < |x| ==> NoneWith(f, x[i], y)
  }

  /** When nothing of `x` combines with anything of `y`, the pairs of `x + y` are those of `x` and
      those of `y`. */
  lemma {:induction false} AllPairsConcat<T>(f: Combine<T>, x: seq<T>, y: seq<T>)
    requires NoneAcross(f, x, y)
    ensures AllPairs(f, x + y) == AllPairs(f, x) + AllPairs(f, y)
  {
    if x == [] {
      assert x + y == y;
    } else {
      var h, t := x[0], x[1..];
      AllPairsConcat(f, t, y);
      assert x + y == [h] + (t + y);
      AllPairsCons(f, h, t + y);
      PairsWithConcat(f, h, t, y);
      NoPairsWith(f, h, y);
      assert PairsWith(f, h, t) + [] == PairsWith(f, h, t);
      ConcatAssoc(PairsWith(f, h, t), AllPairs(f, t), AllPairs(f, y));
    }
  }

  lemma ShortList<T>(f: Combine<T>, s: seq<T>)
    requires |s| < 2
    ensures AllPairs(f, s) == []
  {
    if s != [] {
      assert s == [s[0]] + [];
      AllPairsCons(f, s[0], []);
    }
  }

  // ---- What comes out ----------------------------------------------------------------------

  lemma {:induction false} PairsWithSound<T>(f: Combine<T>, a: T, rest: seq<T>, x: T) returns (j: nat)
    requires x in PairsWith(f, a, rest)
    ensures j < |rest| && x in f(a, rest[j])
  {
    if x in f(a, rest[0]) {
      j := 0;
    } else {
      j := PairsWithSound(f, a, rest[1..], x);
      j := j + 1;
    }
  }

  lemma {:induction false} AllPairsSound<T>(f: Combine<T>, rows: seq<T>, x: T) returns (i: nat, j: nat)
    requires x in AllPairs(f, rows)
    ensures i < j < |rows| && x in f(rows[i], rows[j])
  {
    if x in PairsWith(f, rows[0], rows[1..]) {
      j := PairsWithSound(f, rows[0], rows[1..], x);
      i, j := 0, j + 1;
    } else {
      i, j := AllPairsSound(f, rows[1..], x);
      i, j := i + 1, j + 1;
    }
  }

  lemma {:induction false} PairsWithComplete<T>(f: Combine<T>, a: T, rest: seq<T>, j: nat, x: T)
    requires j < |rest| && x in f(a, rest[j])
    ensures x in PairsWith(f, a, rest)
  {
    if j > 0 {
      PairsWithComplete(f, a, rest[1..], j - 1, x);
    }
  }

  lemma {:induction false} AllPairsComplete<T>(f: Combine<T>, rows: seq<T>, i: nat, j: nat, x: T)
    requires i < j < |rows| && x in f(rows[i], rows[j])
    ensures x in AllPairs(f, rows)
  {
    if i == 0 {
      PairsWithComplete(f, rows[0], rows[1..], j - 1, x);
    } else {
      AllPairsComplete(f, rows[1..], i - 1, j - 1, x);
    }
  }

  // ---- The loops that compute it -----------------------------------------------------------

  /** What the loop over j has produced with row `i` when it reaches `j`. */
  ghost function RowLoop<T>(f: Combine<T>, s: seq<T>, i: nat, j: nat): seq<T>
    requires i < j <= |s|
  {
    if j == i + 1 then [] else RowLoop(f, s, i, j - 1) + f(s[i], s[j - 1])
  }

  /** What the double loop has produced when the outer index reaches `i`. */
  ghost function PairLoop<T>(f: Combine<T>, s: seq<T>, start: nat, i: nat, end: nat): seq<T>
    requires start <= i <= end <= |s|
  {
    if i == start then [] else PairLoop(f, s, start, i - 1, end) + RowLoop(f, s, i - 1, end)
  }

  /** A running total `sofar` that began at `out` stands at partner `j` of row `i`. */
  ghost predicate InRow<T(!new)>(f: Combine<T>, out: seq<T>, sofar: seq<T>, s: seq<T>, i: nat, j: nat) {
    i < j <= |s| && sofar == out + RowLoop(f, s, i, j)
  }

  /** A running total `sofar` that began at `out` stands before row `i`. */
  ghost predicate InLoop<T(!new)>(f: Combine<T>, out: seq<T>, sofar: seq<T>, s: seq<T>, start: nat, i: nat, end: nat) {
    start <= i <= end <= |s| && sofar == out + PairLoop(f, s, start, i, end)
  }

  lemma RowBegins<T(!new)>(f: Combine<T>, out: seq<T>, s: seq<T>, i: nat)
    requires i < |s|
    ensures InRow(f, out, out, s, i, i + 1)
  {}

  lemma LoopBegins<T(!new)>(f: Combine<T>, out: seq<T>, s: seq<T>, start: nat, end: nat)
    requires start <= end <= |s|
    ensures InLoop(f, out, out, s, start, start, end)
  {}

  /** One turn of the inner loop. */
  lemma RowAdvances<T(!new)>(f: Combine<T>, out: seq<T>, sofar: seq<T>, s: seq<T>, i: nat, j: nat)
    requires InRow(f, out, sofar, s, i, j) && j < |s|
    ensures InRow(f, out, sofar + f(s[i], s[j]), s, i, j + 1)
  {
    ConcatAssoc(out, RowLoop(f, s, i, j), f(s[i], s[j]));
  }

  /** One turn of the outer loop: the inner loop over row `i`, run to its end. */
  lemma LoopAdvances<T(!new)>(f: Combine<T>, out: seq<T>, sofar: seq<T>, next: seq<T>, s: seq<T>, start: nat, i: nat, end: nat)
    requires InLoop(f, out, sofar, s, start, i, end) && i < end && InRow(f, sofar, next, s, i, end)
    ensures InLoop(f, out, next, s, start, i + 1, end)
  {
    ConcatAssoc(out, PairLoop(f, s, start, i, end), RowLoop(f, s, i, end));
  }

  /** At the end of the outer loop the running total has all pairs. */
  lemma LoopEnds<T(!new)>(f: Combine<T>, out: seq<T>, sofar: seq<T>, s: seq<T>, start: nat, end: nat)
    requires InLoop(f, out, sofar, s, start, end, end)
    ensures sofar == out + AllPairs(f, s[start..end])
  {
    PairLoopRest(f, s, start, end, end);
    assert s[end..end] == [];
  }

  /** Running totals only grow. */
  lemma {:induction false} RowGrows<T(!new)>(f: Combine<T>, out: seq<T>, x: seq<T>, y: seq<T>, s: seq<T>,
            i: nat, j: nat, m: nat)
    requires InRow(f, out, x, s, i, j) && InRow(f, out, y, s, i, m) && j <= m
    ensures x <= y
    decreases m
  {
    if j < m {
      var q := m - 1;
      var z := out + RowLoop(f, s, i, q);
      RowGrows(f, out, x, z, s, i, j, q);
      RowAdvances(f, out, z, s, i, q);
      PrefixGrows(x, z, f(s[i], s[q]));
    }
  }

  lemma {:induction false} LoopGrows<T(!new)>(f: Combine<T>, out: seq<T>, x: seq<T>, y: seq<T>, s: seq<T>,
            start: nat, i: nat, m: nat, end: nat)
    requires InLoop(f, out, x, s, start, i, end) && InLoop(f, out, y, s, start, m, end) && i <= m
    ensures x <= y
    decreases m
  {
    if i < m {
      var q := m - 1;
      var z := out + PairLoop(f, s, start, q, end);
      LoopGrows(f, out, x, z, s, start, i, q, end);
      ConcatAssoc(out, PairLoop(f, s, start, q, end), RowLoop(f, s, q, end));
      PrefixGrows(x, z, RowLoop(f, s, q, end));
    }
  }

  lemma {:induction false} RowLoopAll<T>(f: Combine<T>, s: seq<T>, i: nat, j: nat)
    requires i < j <= |s|
    ensures RowLoop(f, s, i, j) == PairsWith(f, s[i], s[i + 1..j])
  {
    if j > i + 1 {
      RowLoopAll(f, s, i, j - 1);
      PairsWithSnoc(f, s[i], s, i + 1, j - 1);
    }
  }

  lemma {:induction false} PairLoopRest<T>(f: Combine<T>, s: seq<T>, start: nat, i: nat, end: nat)
    requires start <= i <= end <= |s|
    ensures PairLoop(f, s, start, i, end) + AllPairs(f, s[i..end]) == AllPairs(f, s[start..end])
  {
    if start < i {
      var h := i - 1;
      PairLoopRest(f, s, start, h, end);
      SliceCons(s, h, end);
      AllPairsCons(f, s[h], s[i..end]);
      RowLoopAll(f, s, h, end);
      ConcatAssoc(PairLoop(f, s, start, h, end), RowLoop(f, s, h, end), AllPairs(f, s[i..end]));
    }
  }
}
