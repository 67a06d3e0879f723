/** The reference `round`: sort whole hashes, then merge runs that agree on the collision bits. */
module ReferenceRounds {
  import opened Bytes
  import opened Equihash
  import opened KeySort
  import opened PairLoops
  import opened Pairs
  import opened Storage
  import opened FastRounds
  import opened Words

  // ---- Leading-bit comparison --------------------------------------------------------------

  /** `first_cbits_eq`: whole bytes, then the masked remainder. */
  function FirstCbitsEq(a: Hash, b: Hash, cbits: nat): (eq: bool)
    requires CeilDiv8(cbits) <= |a| && CeilDiv8(cbits) <= |b|
    ensures eq <==> SameLead(a, b, cbits)
  {
    var full := cbits / 8;
    NoBitsLeft(ByteAt(a, full), ByteAt(b, full));
    if a[..full] != b[..full] then
      PrefixIsBytes(a, b, full);
      false
    else
      PrefixIsBytes(a, b, full);
      if cbits % 8 == 0 then true else TopBits(a[full], cbits % 8) == TopBits(b[full], cbits % 8)
  }

  lemma PrefixIsBytes(a: Hash, b: Hash, m: nat)
    requires m <= |a| && m <= |b|
    ensures a[..m] == b[..m] <==> forall i: nat :: i < m ==> ByteAt(a, i) == ByteAt(b, i)
  {
    if a[..m] == b[..m] {
      forall i: nat | i < m ensures ByteAt(a, i) == ByteAt(b, i) {
        assert a[..m][i] == b[..m][i];
      }
    }
    if forall i: nat :: i < m ==> ByteAt(a, i) == ByteAt(b, i) {
      forall i | 0 <= i < m ensures a[i] == b[i] {
        assert ByteAt(a, i) == ByteAt(b, i);
      }
    }
  }

  // ---- The order rows are sorted in --------------------------------------------------------

  /** Lexicographic order on byte strings, as `Vec<u8>::cmp`. */
  predicate LexLe(a: Hash, b: Hash) {
    a == [] || (b != [] && (a[0] < b[0] || (a[0] == b[0] && LexLe(a[1..], b[1..]))))
  }

  lemma {:induction false} LexLeTotal(a: Hash, b: Hash)
    ensures LexLe(a, b) || LexLe(b, a)
  {
    if a != [] && b != [] {
      LexLeTotal(a[1..], b[1..]);
    }
  }

  lemma {:induction false} LexLeTransitive(a: Hash, b: Hash, c: Hash)
    requires LexLe(a, b) && LexLe(b, c)
    ensures LexLe(a, c)
  {
    if a != [] && b != [] && c != [] && a[0] == b[0] == c[0] {
      LexLeTransitive(a[1..], b[1..], c[1..]);
    }
  }

  lemma SameLeadTail(a: Hash, b: Hash, cbits: nat)
    requires a != [] && b != [] && cbits >= 8
    ensures SameLead(a, b, cbits) <==> a[0] == b[0] && SameLead(a[1..], b[1..], cbits - 8)
  {
    assert (cbits - 8) / 8 == cbits / 8 - 1 && (cbits - 8) % 8 == cbits % 8;
    forall i: nat ensures ByteAt(a, i + 1) == ByteAt(a[1..], i) && ByteAt(b, i + 1) == ByteAt(b[1..], i) {}
    if SameLead(a, b, cbits) {
      assert ByteAt(a, 0) == ByteAt(b, 0);
      forall i: nat | i < (cbits - 8) / 8 ensures ByteAt(a[1..], i) == ByteAt(b[1..], i) {
        assert ByteAt(a, i + 1) == ByteAt(b, i + 1);
      }
    }
    if a[0] == b[0] && SameLead(a[1..], b[1..], cbits - 8) {
      forall i: nat | i < cbits / 8 ensures ByteAt(a, i) == ByteAt(b, i) {
        if i > 0 {
          assert ByteAt(a[1..], i - 1) == ByteAt(b[1..], i - 1);
        }
      }
    }
  }

  lemma TopBitsBetween(a: bv8, b: bv8, c: bv8, bits: nat)
    requires bits < 8 && a <= b <= c && TopBits(a, bits) == TopBits(c, bits)
    ensures TopBits(a, bits) == TopBits(b, bits)
  {}

  lemma ShortLead(a: Hash, b: Hash, cbits: nat)
    requires cbits < 8
    ensures SameLead(a, b, cbits) <==> TopBits(ByteAt(a, 0), cbits) == TopBits(ByteAt(b, 0), cbits)
  {
    assert cbits / 8 == 0 && cbits % 8 == cbits;
  }

  lemma LexHeads(a: Hash, b: Hash)
    requires LexLe(a, b) && a != [] && b != []
    ensures a[0] <= b[0] && (a[0] == b[0] ==> LexLe(a[1..], b[1..]))
  {}

  /** Sorting puts every collision class in one run. */
  lemma {:induction false} LeadBetween(a: Hash, b: Hash, c: Hash, cbits: nat)
    requires LexLe(a, b) && LexLe(b, c) && |a| == |b| == |c| && CeilDiv8(cbits) <= |a|
    requires SameLead(a, c, cbits)
    ensures SameLead(a, b, cbits)
  {
    if cbits >= 8 {
      SameLeadTail(a, c, cbits);
      SameLeadTail(a, b, cbits);
      LexHeads(a, b);
      LexHeads(b, c);
      LeadBetween(a[1..], b[1..], c[1..], cbits - 8);
    } else {
      ShortLead(a, c, cbits);
      ShortLead(a, b, cbits);
      if cbits == 0 {
        NoBitsLeft(ByteAt(a, 0), ByteAt(b, 0));
      } else {
        LexHeads(a, b);
        LexHeads(b, c);
        TopBitsBetween(a[0], b[0], c[0], cbits);
      }
    }
  }

  // ---- The library sort --------------------------------------------------------------------

  ghost predicate SortedRows(rows: seq<Row>) {
    forall i, j :: 0 <= i < j < |rows| ==> LexLe(rows[i].hash, rows[j].hash)
  }

  function InsertRow(e: Row, s: seq<Row>): (t: seq<Row>)
    ensures multiset(t) == multiset(s) + multiset{e}
  {
    if s == [] || LexLe(e.hash, s[0].hash) then [e] + s
    else
      assert s == [s[0]] + s[1..];
      [s[0]] + InsertRow(e, s[1..])
  }

  /** Stands for `sort_by(|a, b| a.hash.cmp(&b.hash))`, the standard library's stable sort. */
  function SortByHash(rows: seq<Row>): (s: seq<Row>)
    ensures multiset(s) == multiset(rows)
  {
    if rows == [] then []
    else
      assert rows == [rows[0]] + rows[1..];
      InsertRow(rows[0], SortByHash(rows[1..]))
  }

  lemma {:induction false} InsertKeepsSorted(e: Row, s: seq<Row>)
    requires SortedRows(s)
    ensures SortedRows(InsertRow(e, s))
  {
    if s != [] {
      LexLeTotal(e.hash, s[0].hash);
      if LexLe(e.hash, s[0].hash) {
        forall i | 0 <= i < |s| ensures LexLe(e.hash, s[i].hash) {
          if i > 0 {
            LexLeTransitive(e.hash, s[0].hash, s[i].hash);
          }
        }
      } else {
        InsertKeepsSorted(e, s[1..]);
        var t := InsertRow(e, s[1..]);
        forall i | 0 <= i < |t| ensures LexLe(s[0].hash, t[i].hash) {
          assert t[i] in multiset(t);
          if t[i] != e {
            assert t[i] in s[1..];
          }
        }
      }
    }
  }

  lemma {:induction false} SortByHashSorts(rows: seq<Row>)
    ensures SortedRows(SortByHash(rows))
  {
    if rows != [] {
      SortByHashSorts(rows[1..]);
      InsertKeepsSorted(rows[0], SortByHash(rows[1..]));
    }
  }

  // ---- The round ---------------------------------------------------------------------------

  ghost predicate SameLength(rows: seq<Row>, len: nat) {
    forall i :: 0 <= i < |rows| ==> |rows[i].hash| == len
  }

  lemma SortKeepsLength(rows: seq<Row>, len: nat)
    requires SameLength(rows, len)
    ensures SameLength(SortByHash(rows), len)
  {
    var s := SortByHash(rows);
    forall i | 0 <= i < |s| ensures |s[i].hash| == len {
      assert s[i] in multiset(rows);
    }
  }

  /** Nothing before position `i` collides with anything from `i` on. */
  ghost predicate CutAt(s: seq<Row>, cbits: nat, i: nat)
    requires i <= |s|
  {
    forall a, b :: 0 <= a < i <= b < |s| ==> !SameLead(s[a].hash, s[b].hash, cbits)
  }

  /** Where a run that began at `i` stops, nothing collides across. */
  lemma RunEndsInCut(s: seq<Row>, cbits: nat, i: nat, j: nat, len: nat)
    requires SortedRows(s) && SameLength(s, len) && CeilDiv8(cbits) <= len
    requires i < j <= |s| && CutAt(s, cbits, i)
    requires InRun(s, cbits, i, j)
    requires j < |s| ==> !SameLead(s[i].hash, s[j].hash, cbits)
    ensures CutAt(s, cbits, j)
  {
    forall a, b | 0 <= a < j <= b < |s| ensures !SameLead(s[a].hash, s[b].hash, cbits) {
      if i <= a && SameLead(s[a].hash, s[b].hash, cbits) {
        assert SameLead(s[i].hash, s[a].hash, cbits);
        if j < b {
          LeadBetween(s[i].hash, s[j].hash, s[b].hash, cbits);
        }
      }
    }
  }

  lemma CutSplits(s: seq<Row>, cbits: nat, i: nat, j: nat, f: Combine<Row>)
    requires i <= j <= |s| && CutAt(s, cbits, i) && Merges(f, cbits)
    ensures AllPairs(f, s[..j]) == AllPairs(f, s[..i]) + AllPairs(f, s[i..j])
  {
    forall a | 0 <= a < i ensures NoneWith(f, s[..i][a], s[i..j]) {
      forall b | 0 <= b < j - i ensures f(s[..i][a], s[i..j][b]) == [] {
        assert s[i..j][b] == s[i + b] && s[..i][a] == s[a];
        MergesAt(f, cbits, s[a], s[i + b]);
      }
    }
    AllPairsConcat(f, s[..i], s[i..j]);
    SliceSplit(s, i, j);
  }

  lemma RunTail(s: seq<Row>, cbits: nat, i: nat, ia: nat, j: nat)
    requires i <= ia < j <= |s| && InRun(s, cbits, i, j)
    ensures InRun(s, cbits, ia, j)
  {
    assert SameLead(s[i].hash, s[ia].hash, cbits);
  }

  /** The loop over ib: row `ia` of a run against the rows behind it. */
  method MergeRunRow(s: seq<Row>, cbits: nat, ia: nat, j: nat, out: seq<Row>, ghost f: Combine<Row>) returns (out': seq<Row>)
    requires ia < j <= |s| && InRun(s, cbits, ia, j) && Merges(f, cbits)
    ensures InRow(f, out, out', s, ia, j)
  {
    out' := out;
    var ib := ia + 1;
    RowBegins(f, out, s, ia);
    while ib < j
      invariant ia < ib <= j && InRow(f, out, out', s, ia, ib)
    {
      var more := MergeUnlessShared(cbits, s[ia], s[ib], f);
      RowAdvances(f, out, out', s, ia, ib);
      out' := out' + more;
      ib := ib + 1;
    }
    assert ib == j;
  }

  /** The loop's body: the merged row, or nothing when the two rows share an index. */
  method MergeUnlessShared(cbits: nat, a: Row, b: Row, ghost f: Combine<Row>) returns (merged: seq<Row>)
    requires SameLead(a.hash, b.hash, cbits) && Merges(f, cbits)
    ensures merged == f(a, b)
  {
    MergesAt(f, cbits, a, b);
    var distinct := DistinctIndices(a.indices, b.indices);
    if !distinct {
      return [];
    }
    var xored, cbytes := Xor(a.hash, b.hash), CeilDiv8(cbits);
    var newHash := if |xored| <= cbytes then [] else xored[cbytes..];
    return [Row(newHash, ConcatCanonical(a.indices, b.indices))];
  }

  /** All pairs of the run i..j, which agree on their collision bits. */
  method MergeRun(s: seq<Row>, cbits: nat, i: nat, j: nat, out: seq<Row>, ghost f: Combine<Row>) returns (out': seq<Row>)
    requires i < j <= |s| && InRun(s, cbits, i, j) && Merges(f, cbits)
    ensures out' == out + AllPairs(f, s[i..j])
  {
    out' := out;
    var ia := i;
    LoopBegins(f, out, s, i, j);
    while ia < j
      invariant i <= ia <= j && InLoop(f, out, out', s, i, ia, j)
    {
      RunTail(s, cbits, i, ia, j);
      ghost var sofar := out';
      out' := MergeRunRow(s, cbits, ia, j, out', f);
      LoopAdvances(f, out, sofar, out', s, i, ia, j);
      ia := ia + 1;
    }
    assert ia == j;
    LoopEnds(f, out, out', s, i, j);
  }

  method GenericRound(rows: seq<Row>, cbits: nat, ghost len: nat) returns (out: seq<Row>)
    requires SameLength(rows, len) && CeilDiv8(cbits) <= len
    ensures out == ReferenceRound(cbits, rows)
  {
    var s := SortByHash(rows);
    SortByHashSorts(rows);
    SortKeepsLength(rows, len);
    MergerMerges(cbits);
    out := MergeRuns(s, cbits, len, Merger(cbits));
  }

  /** The outer loop: run after run. */
  method MergeRuns(s: seq<Row>, cbits: nat, ghost len: nat, ghost f: Combine<Row>) returns (out: seq<Row>)
    requires SortedRows(s) && SameLength(s, len) && CeilDiv8(cbits) <= len && Merges(f, cbits)
    ensures out == AllPairs(f, s)
  {
    out := [];
    var i := 0;
    assert s[..0] == [];
    while i < |s|
      invariant i <= |s| && CutAt(s, cbits, i)
      invariant out == AllPairs(f, s[..i])
    {
      var j := RunEnd(s, cbits, i, len);
      CutSplits(s, cbits, i, j, f);
      out := MergeRun(s, cbits, i, j, out, f);
      RunEndsInCut(s, cbits, i, j, len);
      i := j;
    }
    assert s[..|s|] == s;
  }

  /** The scan for the end of the run that begins at `i`. */
  method RunEnd(s: seq<Row>, cbits: nat, i: nat, ghost len: nat) returns (j: nat)
    requires i < |s| && SameLength(s, len) && CeilDiv8(cbits) <= len
    ensures i < j <= |s| && InRun(s, cbits, i, j)
    ensures j < |s| ==> !SameLead(s[i].hash, s[j].hash, cbits)
  {
    j := i + 1;
    while j < |s| && FirstCbitsEq(s[i].hash, s[j].hash, cbits)
      invariant i < j <= |s| && InRun(s, cbits, i, j)
    {
      RunGrows(s, cbits, i, j);
      j := j + 1;
    }
  }

  /** Rows i..j all agree with row `i` on the collision bits. */
  ghost predicate InRun(s: seq<Row>, cbits: nat, i: nat, j: nat)
    requires i < j <= |s|
  {
    forall m :: i <= m < j ==> SameLead(s[i].hash, s[m].hash, cbits)
  }

  lemma RunGrows(s: seq<Row>, cbits: nat, i: nat, j: nat)
    requires i < j < |s| && InRun(s, cbits, i, j) && SameLead(s[i].hash, s[j].hash, cbits)
    ensures InRun(s, cbits, i, j + 1)
  {}

  /** The reference round as a function of its rows. */
  ghost function ReferenceRound(cbits: nat, rows: seq<Row>): seq<Row> {
    AllMerges(cbits, SortByHash(rows))
  }

  lemma ReferenceRoundIsRound(cbits: nat, rows: seq<Row>)
    ensures multiset(ReferenceRound(cbits, rows)) == multiset(AllMerges(cbits, rows))
  {
    AllMergesPermuted(cbits, SortByHash(rows), rows);
  }

  /** From the same rows, in any two orders, the fast round and the reference round build the same
      rows, each as often. */
  lemma FastRefinesReference(x: seq<Row>, y: seq<Row>)
    requires multiset(x) == multiset(y)
    ensures multiset(FastRound(x)) == multiset(ReferenceRound(16, y))
  {
    FastRoundIsRound(x);
    ReferenceRoundIsRound(16, y);
    AllMergesPermuted(16, x, y);
  }
}
