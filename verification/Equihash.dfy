/** What an Equihash solution is: section 7.7.1 of the Zcash Protocol Specification (NU5 and later
    numbering), over an uninterpreted BLAKE2b. */
module Equihash {
  import opened Words
  import opened Bytes

  /** A nonce under test: 2^k of the `leaves` leaf hashes, each `width` bytes, are to be combined;
      every round collides on `cbytes` bytes. */
  datatype PuzzleData = PuzzleData(k: nat, cbytes: nat, width: nat, leaves: nat, leaf: nat -> Hash) {
    ghost predicate Ok() {
      forall i: nat :: |leaf(i)| == width
    }
  }

  type Puzzle = p: PuzzleData | p.Ok() witness PuzzleData(0, 0, 0, 0, _ => [])

  /** XOR of the leaves an index list names. */
  function XorOf(p: Puzzle, s: seq<nat>): (h: Hash)
    ensures |h| == p.width
  {
    if s == [] then Zeros(p.width) else Xor(p.leaf(s[0]), XorOf(p, s[1..]))
  }

  predicate Disjoint(a: seq<nat>, b: seq<nat>) {
    forall i, j :: 0 <= i < |a| && 0 <= j < |b| ==> a[i] != b[j]
  }

  predicate Distinct(s: seq<nat>) {
    forall i, j :: 0 <= i < j < |s| ==> s[i] != s[j]
  }

  // ---- The specification, window by window ------------------------------------------------

  /** The aligned window of length 2^j starting at `w * 2^j`. */
  function Window(s: seq<nat>, j: nat, w: nat): (t: seq<nat>)
    requires (w + 1) * Pow2(j) <= |s|
  {
    s[w * Pow2(j)..(w + 1) * Pow2(j)]
  }

  /** A window of level j collides on its first j * cbytes bytes and has its smaller half first. */
  ghost predicate WindowOk(p: Puzzle, j: nat, t: seq<nat>)
    requires 0 < j && |t| == Pow2(j)
  {
    && ZeroTo(XorOf(p, t), j * p.cbytes)
    && t[0] < t[Pow2(j - 1)]
  }

  ghost predicate WindowsOk(p: Puzzle, r: nat, s: seq<nat>)
    requires |s| == Pow2(r)
  {
    forall j: nat, w: nat | 0 < j <= r && w < Pow2(r - j) ::
      (WindowInside(r, j, w); WindowOk(p, j, Window(s, j, w)))
  }

  lemma WindowInside(r: nat, j: nat, w: nat)
    requires j <= r && w < Pow2(r - j)
    ensures 0 <= w * Pow2(j) <= (w + 1) * Pow2(j) <= Pow2(r)
    ensures (w + 1) * Pow2(j) - w * Pow2(j) == Pow2(j)
  {
    Pow2Sum(r - j, j);
    MulLe(w + 1, Pow2(r - j), Pow2(j));
  }

  /** An Equihash solution: 2^k distinct leaf indices, every aligned window colliding and ordered,
      and all leaves together XOR to zero. */
  ghost predicate ValidSolution(p: Puzzle, s: seq<nat>) {
    && |s| == Pow2(p.k)
    && (forall i :: 0 <= i < |s| ==> s[i] < p.leaves)
    && Distinct(s)
    && WindowsOk(p, p.k, s)
    && AllZero(XorOf(p, s))
  }

  // ---- The same thing as a binary tree ----------------------------------------------------

  /** The index lists a Wagner search can build in r rounds. */
  ghost predicate ValidTree(p: Puzzle, r: nat, s: seq<nat>) {
    && |s| == Pow2(r)
    && if r == 0 then s[0] < p.leaves else
         var l, h := s[..Pow2(r - 1)], s[Pow2(r - 1)..];
         && ValidTree(p, r - 1, l) && ValidTree(p, r - 1, h)
         && Disjoint(l, h) && l[0] < h[0]
         && ZeroTo(XorOf(p, s), r * p.cbytes)
  }

  lemma {:induction false} XorOfConcat(p: Puzzle, a: seq<nat>, b: seq<nat>)
    ensures XorOf(p, a + b) == Xor(XorOf(p, a), XorOf(p, b))
  {
    if a == [] {
      assert a + b == b;
      XorZeros(XorOf(p, b));
    } else {
      XorOfConcat(p, a[1..], b);
      assert (a + b)[1..] == a[1..] + b;
      XorAssoc(p.leaf(a[0]), XorOf(p, a[1..]), XorOf(p, b));
    }
  }

  /** Merge-time checks suffice: a tree's indices are in range and pairwise distinct, and its first
      index is the smallest. */
  lemma {:induction false} TreeIndices(p: Puzzle, r: nat, s: seq<nat>)
    requires ValidTree(p, r, s)
    ensures Distinct(s)
    ensures forall i :: 0 <= i < |s| ==> s[0] <= s[i] < p.leaves
    ensures ZeroTo(XorOf(p, s), r * p.cbytes)
  {
    if r > 0 {
      var half := Pow2(r - 1);
      var l, h := s[..half], s[half..];
      TreeIndices(p, r - 1, l);
      TreeIndices(p, r - 1, h);
      forall i | 0 <= i < |s| ensures s[0] <= s[i] < p.leaves {
        if i >= half { assert s[i] == h[i - half]; } else { assert s[i] == l[i]; }
      }
      forall i, j | 0 <= i < j < |s| ensures s[i] != s[j] {
        if j < half {
          assert s[i] == l[i] && s[j] == l[j];
        } else if i < half {
          assert s[i] == l[i] && s[j] == h[j - half];
        } else {
          assert s[i] == h[i - half] && s[j] == h[j - half];
        }
      }
    }
  }

  lemma WindowBounds(r: nat, j: nat, w: nat)
    requires j < r && Pow2(r - 1 - j) <= w < Pow2(r - j)
    ensures Pow2(r - 1) <= w * Pow2(j)
    ensures w - Pow2(r - 1 - j) < Pow2(r - 1 - j)
    ensures w * Pow2(j) - Pow2(r - 1) == (w - Pow2(r - 1 - j)) * Pow2(j)
    ensures (w + 1) * Pow2(j) - Pow2(r - 1) == (w - Pow2(r - 1 - j) + 1) * Pow2(j)
  {
    Pow2Sum(r - 1 - j, j);
    var half, step := Pow2(r - 1 - j), Pow2(j);
    MulLe(half, w, step);
    MulMinus(w, half, step);
    MulMinus(w + 1, half, step);
  }

  lemma MulMinus(a: nat, b: nat, m: nat)
    requires b <= a
    ensures a * m - b * m == (a - b) * m
  {}

  /** The windows of level j below the top of a 2^r list are those of its two halves. */
  lemma WindowInFirstHalf(r: nat, s: seq<nat>, j: nat, w: nat)
    requires |s| == Pow2(r) && j < r && w < Pow2(r - 1 - j)
    ensures (w + 1) * Pow2(j) <= Pow2(r - 1) < |s|
    ensures Window(s, j, w) == Window(s[..Pow2(r - 1)], j, w)
  {
    WindowInside(r - 1, j, w);
  }

  lemma WindowShifted(s: seq<nat>, m: nat, j: nat, w: nat, v: nat)
    requires m <= w * Pow2(j) && (w + 1) * Pow2(j) <= |s|
    requires w * Pow2(j) - m == v * Pow2(j) && (w + 1) * Pow2(j) - m == (v + 1) * Pow2(j)
    ensures Window(s, j, w) == Window(s[m..], j, v)
  {
    SliceOfTail(s, m, w * Pow2(j), (w + 1) * Pow2(j));
  }

  lemma SliceOfTail(s: seq<nat>, m: nat, lo: nat, hi: nat)
    requires m <= lo && hi <= |s|
    ensures lo <= hi ==> s[lo..hi] == s[m..][lo - m..hi - m]
  {}

  lemma WindowInSecondHalf(r: nat, s: seq<nat>, j: nat, w: nat)
    requires |s| == Pow2(r) && j < r && Pow2(r - 1 - j) <= w < Pow2(r - j)
    ensures (w + 1) * Pow2(j) <= |s|
    ensures (w - Pow2(r - 1 - j) + 1) * Pow2(j) <= Pow2(r - 1)
    ensures Window(s, j, w) == Window(s[Pow2(r - 1)..], j, w - Pow2(r - 1 - j))
  {
    WindowInside(r, j, w);
    WindowBounds(r, j, w);
    WindowInside(r - 1, j, w - Pow2(r - 1 - j));
    WindowShifted(s, Pow2(r - 1), j, w, w - Pow2(r - 1 - j));
  }

  lemma TopWindow(s: seq<nat>, r: nat)
    requires |s| == Pow2(r)
    ensures (0 + 1) * Pow2(r) <= |s| && Window(s, r, 0) == s
  {}

  /** Level-j windows of a list, read off its two halves. */
  lemma WindowsSplitAt(r: nat, s: seq<nat>, j: nat, w: nat)
    requires |s| == Pow2(r) && 0 < j < r && w < Pow2(r - 1 - j)
    ensures w + Pow2(r - 1 - j) < Pow2(r - j)
    ensures (w + 1) * Pow2(j) <= Pow2(r - 1) && (w + Pow2(r - 1 - j) + 1) * Pow2(j) <= |s|
    ensures |Window(s, j, w)| == Pow2(j) == |Window(s, j, w + Pow2(r - 1 - j))|
    ensures Window(s, j, w) == Window(s[..Pow2(r - 1)], j, w)
    ensures Window(s, j, w + Pow2(r - 1 - j)) == Window(s[Pow2(r - 1)..], j, w)
  {
    WindowInside(r - 1, j, w);
    WindowInFirstHalf(r, s, j, w);
    WindowInSecondHalf(r, s, j, w + Pow2(r - 1 - j));
  }

  lemma WindowsFromHalves(p: Puzzle, r: nat, s: seq<nat>)
    requires 0 < r && |s| == Pow2(r)
    requires WindowsOk(p, r - 1, s[..Pow2(r - 1)]) && WindowsOk(p, r - 1, s[Pow2(r - 1)..])
    requires WindowOk(p, r, s)
    ensures WindowsOk(p, r, s)
  {
    forall j: nat, w: nat | 0 < j <= r && w < Pow2(r - j)
      ensures (w + 1) * Pow2(j) <= Pow2(r) && |Window(s, j, w)| == Pow2(j)
      ensures WindowOk(p, j, Window(s, j, w))
    {
      WindowInside(r, j, w);
      if j == r {
        TopWindow(s, r);
      } else if w < Pow2(r - 1 - j) {
        WindowsSplitAt(r, s, j, w);
      } else {
        WindowsSplitAt(r, s, j, w - Pow2(r - 1 - j));
      }
    }
  }

  lemma WindowsToHalves(p: Puzzle, r: nat, s: seq<nat>)
    requires 0 < r && |s| == Pow2(r) && WindowsOk(p, r, s)
    ensures WindowsOk(p, r - 1, s[..Pow2(r - 1)]) && WindowsOk(p, r - 1, s[Pow2(r - 1)..])
    ensures WindowOk(p, r, s)
  {
    var l, h := s[..Pow2(r - 1)], s[Pow2(r - 1)..];
    TopWindow(s, r);
    assert 0 < r <= r && 0 < Pow2(r - r);
    assert WindowOk(p, r, Window(s, r, 0));
    forall j: nat, w: nat | 0 < j <= r - 1 && w < Pow2(r - 1 - j)
      ensures (w + 1) * Pow2(j) <= Pow2(r - 1)
      ensures |Window(l, j, w)| == |Window(h, j, w)| == Pow2(j)
      ensures WindowOk(p, j, Window(l, j, w)) && WindowOk(p, j, Window(h, j, w))
    {
      WindowsSplitAt(r, s, j, w);
      assert WindowOk(p, j, Window(s, j, w));
      assert WindowOk(p, j, Window(s, j, w + Pow2(r - 1 - j)));
    }
  }

  /** The recursive tree and the window-by-window conditions are the same index lists. */
  lemma {:induction false} TreeIffWindows(p: Puzzle, r: nat, s: seq<nat>)
    requires |s| == Pow2(r)
    ensures ValidTree(p, r, s) <==>
              (Distinct(s) && WindowsOk(p, r, s) && forall i :: 0 <= i < |s| ==> s[i] < p.leaves)
  {
    if r > 0 {
      var half := Pow2(r - 1);
      var l, h := s[..half], s[half..];
      TreeIffWindows(p, r - 1, l);
      TreeIffWindows(p, r - 1, h);
      if ValidTree(p, r, s) {
        TreeIndices(p, r, s);
        WindowsFromHalves(p, r, s);
      } else if WindowsOk(p, r, s) {
        WindowsToHalves(p, r, s);
      }
      assert s[half] == h[0] && s[0] == l[0];
      assert s == l + h;
    }
  }

  /** Section 7.7.1 restated: a solution is a depth-k tree whose leaves XOR to zero. */
  lemma SolutionIffTree(p: Puzzle, s: seq<nat>)
    ensures ValidSolution(p, s) <==> ValidTree(p, p.k, s) && AllZero(XorOf(p, s))
  {
    if |s| == Pow2(p.k) {
      TreeIffWindows(p, p.k, s);
    }
  }
}
