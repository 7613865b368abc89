/** Merging the ranges of a character property into a table, and the test the generated code makes with it. */
module CodePointRanges {
  /** Both ends belong to it; it is empty if they are the wrong way round. */
  datatype Range = Range(start: int, end: int)

  predicate In(c: int, r: Range) {
    r.start <= c <= r.end
  }

  predicate Covers(rs: seq<Range>, c: int) {
    exists k :: 0 <= k < |rs| && In(c, rs[k])
  }

  ghost predicate SameUnion(rs: seq<Range>, qs: seq<Range>) {
    forall c :: Covers(rs, c) <==> Covers(qs, c)
  }

  // ---- Sorting ----

  predicate Before(r: Range, q: Range) {
    r.start < q.start || (r.start == q.start && r.end <= q.end)
  }

  function Insert(r: Range, rs: seq<Range>): seq<Range> {
    if rs == [] || Before(r, rs[0]) then [r] + rs else [rs[0]] + Insert(r, rs[1..])
  }

  /** In lexicographic order. */
  function Sorted(rs: seq<Range>): seq<Range> {
    if rs == [] then [] else Insert(rs[0], Sorted(rs[1..]))
  }

  predicate Ascending(rs: seq<Range>) {
    forall i, j :: 0 <= i < j < |rs| ==> rs[i].start <= rs[j].start
  }

  lemma {:induction false} InsertKeeps(r: Range, rs: seq<Range>)
    ensures multiset(Insert(r, rs)) == multiset(rs) + multiset{r}
  {
    if rs != [] && !Before(r, rs[0]) {
      InsertKeeps(r, rs[1..]);
      assert rs == [rs[0]] + rs[1..];
    }
  }

  lemma {:induction false} InsertAscends(r: Range, rs: seq<Range>)
    requires Ascending(rs)
    ensures Ascending(Insert(r, rs))
  {
    if rs != [] && !Before(r, rs[0]) {
      InsertAscends(r, rs[1..]);
      InsertKeeps(r, rs[1..]);
      var t := Insert(r, rs[1..]);
      hide Insert;
      forall k | 0 <= k < |t| ensures rs[0].start <= t[k].start {
        assert t[k] in multiset(t);
        assert t[k] == r || t[k] in rs[1..];
      }
    }
  }

  lemma {:induction false} SortedKeeps(rs: seq<Range>)
    ensures multiset(Sorted(rs)) == multiset(rs) && Ascending(Sorted(rs))
  {
    if rs != [] {
      SortedKeeps(rs[1..]);
      InsertKeeps(rs[0], Sorted(rs[1..]));
      InsertAscends(rs[0], Sorted(rs[1..]));
      assert rs == [rs[0]] + rs[1..];
    }
  }

  lemma SortedSame(rs: seq<Range>)
    ensures |Sorted(rs)| == |rs| && SameUnion(rs, Sorted(rs))
    ensures forall k :: 0 <= k < |Sorted(rs)| ==> Sorted(rs)[k] in rs
  {
    SortedKeeps(rs);
    var t := Sorted(rs);
    assert |multiset(t)| == |multiset(rs)|;
    forall k | 0 <= k < |t| ensures t[k] in rs {
      assert t[k] in multiset(t);
    }
    forall k | 0 <= k < |rs| ensures rs[k] in t {
      assert rs[k] in multiset(rs);
    }
  }

  // ---- Merging ----

  /** Sorted, nothing empty, and a gap between any two neighbours. */
  predicate Normal(rs: seq<Range>) {
    && (forall k :: 0 <= k < |rs| ==> rs[k].start <= rs[k].end)
    && (forall k :: 0 <= k < |rs| - 1 ==> rs[k].end + 1 < rs[k + 1].start)
  }

  predicate NoneEmpty(rs: seq<Range>) {
    forall k :: 0 <= k < |rs| ==> rs[k].start <= rs[k].end
  }

  method MergeRanges(ranges: seq<Range>) returns (merged: seq<Range>)
    ensures SameUnion(ranges, merged)
    ensures NoneEmpty(ranges) ==> Normal(merged)
  {
    SortedSame(ranges);
    SortedKeeps(ranges);
    if ranges == [] {
      return [];
    }
    var sorted := Sorted(ranges);
    merged := [sorted[0]];
    assert sorted[..1] == [sorted[0]];
    hide Sorted;
    for k := 1 to |sorted|
      invariant merged != [] && merged[|merged| - 1].start <= sorted[k - 1].start
      invariant SameUnion(sorted[..k], merged)
      invariant NoneEmpty(ranges) ==> Normal(merged)
    {
      var r := sorted[k];
      var last := merged[|merged| - 1];
      assert sorted[..k + 1] == sorted[..k] + [r];
      OneMore(sorted[..k], merged, r);
      if r.start <= last.end + 1 {
        var wider := Range(last.start, if last.end < r.end then r.end else last.end);
        WidenLast(merged, r, wider);
        merged := merged[..|merged| - 1] + [wider];
      } else {
        merged := merged + [r];
      }
    }
    assert sorted[..|sorted|] == sorted;
  }

  lemma OneMore(rs: seq<Range>, qs: seq<Range>, r: Range)
    requires SameUnion(rs, qs)
    ensures SameUnion(rs + [r], qs + [r])
  {
    forall c ensures Covers(rs + [r], c) <==> Covers(qs + [r], c) {
      CoversAppend(rs, r, c);
      CoversAppend(qs, r, c);
    }
  }

  lemma CoversAppend(rs: seq<Range>, r: Range, c: int)
    ensures Covers(rs + [r], c) <==> Covers(rs, c) || In(c, r)
  {
    var t := rs + [r];
    assert t[|rs|] == r;
    if Covers(rs, c) {
      var k :| 0 <= k < |rs| && In(c, rs[k]);
      assert In(c, t[k]);
    }
  }

  /** Two ranges that touch are one. */
  lemma WidenLast(rs: seq<Range>, r: Range, wider: Range)
    requires rs != [] && rs[|rs| - 1].start <= r.start <= rs[|rs| - 1].end + 1
    requires wider == Range(rs[|rs| - 1].start, if rs[|rs| - 1].end < r.end then r.end else rs[|rs| - 1].end)
    ensures SameUnion(rs + [r], rs[..|rs| - 1] + [wider])
  {
    var front, last := rs[..|rs| - 1], rs[|rs| - 1];
    assert rs == front + [last];
    forall c ensures Covers(rs + [r], c) <==> Covers(front + [wider], c) {
      CoversAppend(rs, r, c);
      CoversAppend(front, last, c);
      CoversAppend(front, wider, c);
    }
  }

  // ---- One normal form for each set ----

  lemma {:induction false} Gaps(rs: seq<Range>, i: nat, j: nat)
    requires Normal(rs) && i < j < |rs|
    ensures rs[i].end + 1 < rs[j].start
    decreases j
  {
    if i + 1 < j {
      Gaps(rs, i, j - 1);
    }
  }

  /** Where the first range starts and ends can be read off the set. */
  lemma FirstRange(rs: seq<Range>)
    requires Normal(rs) && rs != []
    ensures Covers(rs, rs[0].start) && forall c :: c < rs[0].start ==> !Covers(rs, c)
    ensures !Covers(rs, rs[0].end + 1) && forall c :: rs[0].start <= c <= rs[0].end ==> Covers(rs, c)
  {
    assert In(rs[0].start, rs[0]);
    forall c, k | 0 < k < |rs| && c <= rs[0].end + 1 ensures !In(c, rs[k]) {
      Gaps(rs, 0, k);
    }
    forall c | rs[0].start <= c <= rs[0].end ensures Covers(rs, c) {
      assert In(c, rs[0]);
    }
  }

  lemma NormalTail(rs: seq<Range>)
    requires Normal(rs) && rs != []
    ensures Normal(rs[1..])
    ensures forall c :: Covers(rs[1..], c) <==> Covers(rs, c) && c > rs[0].end
  {
    forall c ensures Covers(rs[1..], c) <==> Covers(rs, c) && c > rs[0].end {
      if Covers(rs[1..], c) {
        var k :| 0 <= k < |rs[1..]| && In(c, rs[1..][k]);
        Gaps(rs, 0, k + 1);
        assert In(c, rs[k + 1]);
      }
      if Covers(rs, c) && c > rs[0].end {
        var k :| 0 <= k < |rs| && In(c, rs[k]);
        assert In(c, rs[1..][k - 1]);
      }
    }
  }

  /** Equal sets have equal tables. */
  lemma {:induction false} NormalIsCanonical(rs: seq<Range>, qs: seq<Range>)
    requires Normal(rs) && Normal(qs) && SameUnion(rs, qs)
    ensures rs == qs
    decreases |rs|
  {
    if rs == [] || qs == [] {
      if rs != [] {
        FirstRange(rs);
      }
      if qs != [] {
        FirstRange(qs);
      }
    } else {
      FirstRange(rs);
      FirstRange(qs);
      assert rs[0].start == qs[0].start;
      assert rs[0].end == qs[0].end;
      NormalTail(rs);
      NormalTail(qs);
      NormalIsCanonical(rs[1..], qs[1..]);
      assert rs == [rs[0]] + rs[1..] && qs == [qs[0]] + qs[1..];
    }
  }

  // ---- The generated test ----

  /** The first entry that does not end before the code point; the table's length if there is none. */
  method LowerBound(table: seq<Range>, c: int) returns (first: nat)
    requires forall i, j :: 0 <= i < j < |table| ==> table[i].end <= table[j].end
    ensures first <= |table|
    ensures forall k :: 0 <= k < first ==> table[k].end < c
    ensures forall k :: first <= k < |table| ==> table[k].end >= c
  {
    first := 0;
    var count := |table|;
    while count > 0
      invariant 0 <= count && first + count <= |table|
      invariant forall k :: 0 <= k < first ==> table[k].end < c
      invariant forall k :: first + count <= k < |table| ==> table[k].end >= c
    {
      var half := count / 2;
      if table[first + half].end < c {
        first := first + half + 1;
        count := count - half - 1;
      } else {
        count := half;
      }
    }
  }

  predicate IsAsciiStart(c: int) {
    'A' as int <= c <= 'Z' as int || 'a' as int <= c <= 'z' as int || c == '_' as int
  }

  /** Letters and the underscore are decided without the table, everything above ASCII by it. */
  method IsIdStart(table: seq<Range>, c: int) returns (yes: bool)
    requires Normal(table)
    ensures c < 0x80 ==> (yes <==> 0x41 <= c <= 0x5A || 0x61 <= c <= 0x7A || c == 0x5F)
    ensures c >= 0x80 ==> (yes <==> Covers(table, c))
  {
    assert 'A' as int == 0x41 && 'Z' as int == 0x5A && 'a' as int == 0x61 && 'z' as int == 0x7A && '_' as int == 0x5F;
    if c < 0x80 {
      return IsAsciiStart(c);
    }
    forall i, j | 0 <= i < j < |table| ensures table[i].end <= table[j].end {
      Gaps(table, i, j);
    }
    var it := LowerBound(table, c);
    if it == |table| {
      return false;
    }
    forall k | it < k < |table| && In(c, table[k]) ensures table[it].end < table[k].start {
      Gaps(table, it, k);
    }
    assert c >= table[it].start ==> In(c, table[it]);
    return c >= table[it].start;
  }

  /** From the property's ranges to the answer: above ASCII, yes exactly for the code points the property has. */
  method HasProperty(ranges: seq<Range>, c: int) returns (yes: bool)
    requires NoneEmpty(ranges)
    ensures c < 0x80 ==> (yes <==> 0x41 <= c <= 0x5A || 0x61 <= c <= 0x7A || c == 0x5F)
    ensures c >= 0x80 ==> (yes <==> Covers(ranges, c))
  {
    var table := MergeRanges(ranges);
    yes := IsIdStart(table, c);
  }

  /** However a property's ranges are split up and ordered, the generated table is the same. */
  method MergeTwice(rs: seq<Range>, qs: seq<Range>) returns (a: seq<Range>, b: seq<Range>)
    requires NoneEmpty(rs) && NoneEmpty(qs)
    ensures SameUnion(rs, qs) <==> a == b
  {
    a := MergeRanges(rs);
    b := MergeRanges(qs);
    if SameUnion(rs, qs) {
      NormalIsCanonical(a, b);
    }
  }
}
