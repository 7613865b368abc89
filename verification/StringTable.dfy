/** The deduplicating string table of a bitcode file: the writer hands out byte offsets before the table exists. */
module StringTable {
  import opened Bytes
  import opened LittleEndian
  import opened Sequences

  type Name = seq<Byte>

  function IndexOf(strings: seq<Name>, s: Name): (i: nat)
    requires s in strings
    ensures i < |strings| && strings[i] == s
  {
    if strings[0] == s then 0 else 1 + IndexOf(strings[1..], s)
  }

  function WithString(strings: seq<Name>, s: Name): seq<Name> {
    if s in strings then strings else strings + [s]
  }

  /** Bytes that entries 0 to i - 1 occupy, each with a four-byte length in front. */
  function EntriesSize(strings: seq<Name>, i: nat): nat
    requires i <= |strings|
  {
    if i == 0 then 0 else EntriesSize(strings, i - 1) + 4 + |strings[i - 1]|
  }

  /** Where the text of entry i starts: behind the entry count, the entries before it, and its own length. */
  function TextOffset(strings: seq<Name>, i: nat): nat
    requires i <= |strings|
  {
    4 + EntriesSize(strings, i) + 4
  }

  function EntriesBytes(strings: seq<Name>): seq<Byte> {
    if strings == [] then []
    else
      var n := |strings| - 1;
      EntriesBytes(strings[..n]) + LE(4, |strings[n]| % Pow256(4)) + strings[n]
  }

  /** The serialised table. */
  function TableBytes(strings: seq<Name>): seq<Byte> {
    LE(4, |strings| % Pow256(4)) + EntriesBytes(strings)
  }

  datatype Ref = Ref(offset: nat, length: nat)

  /** What the writer hands out for s: offset and length, as 32-bit numbers. */
  function RefOf(strings: seq<Name>, s: Name): Ref
    requires s in strings
  {
    Ref(TextOffset(strings, IndexOf(strings, s)) % Pow256(4), |s| % Pow256(4))
  }

  lemma {:induction false} IndexInPrefix(strings: seq<Name>, more: seq<Name>, s: Name)
    requires s in strings && strings <= more
    ensures IndexOf(more, s) == IndexOf(strings, s)
    decreases |strings|
  {
    assert more[0] == strings[0];
    if strings[0] != s {
      IndexInPrefix(strings[1..], more[1..], s);
    }
  }

  lemma {:induction false} SizeInPrefix(strings: seq<Name>, more: seq<Name>, i: nat)
    requires strings <= more && i <= |strings|
    ensures EntriesSize(more, i) == EntriesSize(strings, i)
    decreases i
  {
    if i > 0 {
      SizeInPrefix(strings, more, i - 1);
    }
  }

  /** A reference once handed out stays right, whatever strings are added later. */
  lemma RefStable(strings: seq<Name>, more: seq<Name>, s: Name)
    requires s in strings && strings <= more
    ensures s in more && RefOf(more, s) == RefOf(strings, s)
  {
    IndexInPrefix(strings, more, s);
    SizeInPrefix(strings, more, IndexOf(strings, s));
    assert more[IndexOf(strings, s)] == s;
  }

  lemma {:induction false} EntriesLength(strings: seq<Name>)
    ensures |EntriesBytes(strings)| == EntriesSize(strings, |strings|)
    decreases |strings|
  {
    if strings != [] {
      var n := |strings| - 1;
      EntriesLength(strings[..n]);
      SizeInPrefix(strings[..n], strings, n);
    }
  }

  lemma {:induction false} EntryAt(strings: seq<Name>, i: nat)
    requires i < |strings|
    ensures var from := EntriesSize(strings, i) + 4;
      from + |strings[i]| <= |EntriesBytes(strings)| && EntriesBytes(strings)[from..from + |strings[i]|] == strings[i]
    decreases |strings|
  {
    var n := |strings| - 1;
    var front := strings[..n];
    var from := EntriesSize(strings, i) + 4;
    EntriesLength(front);
    SizeInPrefix(front, strings, n);
    if i < n {
      EntryAt(front, i);
      SizeInPrefix(front, strings, i);
      assert EntriesBytes(strings)[from..from + |strings[i]|] == EntriesBytes(front)[from..from + |strings[i]|];
    } else {
      assert EntriesBytes(strings) == (EntriesBytes(front) + LE(4, |strings[n]| % Pow256(4))) + strings[n];
    }
  }

  /** Reading a reference: the bounds check adds offset and length as 32-bit numbers. */
  function ReadString(table: seq<Byte>, s: seq<Byte>): (r: Read<Name>)
    ensures r.Got? ==> |r.rest| == |s| - 8
  {
    var (offset, s1) :- ReadLE(4, s);
    var (length, s2) :- ReadLE(4, s1);
    if (offset + length) % Pow256(4) > |table| then Got([], s2)
    else if offset + length > |table| then Short
    else Got(table[offset..offset + length], s2)
  }

  /** The two are 32-bit numbers and so is their sum; text that is not all there is left out, unless the sum wraps. */
  lemma ReadsUpTo(table: seq<Byte>, s: seq<Byte>)
    ensures |s| < 8 ==> ReadString(table, s) == Short
    ensures |s| >= 8 ==>
      var offset, length, rest := FromLE(s[..4]), FromLE(s[4..8]), s[8..];
      && offset < 0x1_0000_0000 && length < 0x1_0000_0000
      && (offset + length <= |table| && offset + length < 0x1_0000_0000 ==>
            ReadString(table, s) == Got(table[offset..offset + length], rest))
      && (|table| < offset + length < 0x1_0000_0000 ==> ReadString(table, s) == Got([], rest))
      && (0x1_0000_0000 <= offset + length && |table| < offset + length - 0x1_0000_0000 ==>
            ReadString(table, s) == Got([], rest))
      && (0x1_0000_0000 <= offset + length && offset + length - 0x1_0000_0000 <= |table| < offset + length ==>
            ReadString(table, s) == Short)
  {
    hide FromLE, Pow256;
    assert Pow256(4) == 0x1_0000_0000 by { FourWide(); }
    if |s| >= 8 {
      assert s[4..][..4] == s[4..8] && s[4..][4..] == s[8..];
      ByteValues(s[..4]);
      ByteValues(s[4..8]);
      assert s[..4][3] == s[3] && s[4..8][3] == s[7];
    }
  }

  lemma FourWide()
    ensures Pow256(4) == 0x1_0000_0000
  {
    assert Pow256(1) == 0x100 && Pow256(2) == 0x1_0000;
  }

  /** The text of entry i stands at its offset. */
  lemma TextInTable(strings: seq<Name>, i: nat)
    requires i < |strings|
    ensures var from := TextOffset(strings, i);
      from + |strings[i]| <= |TableBytes(strings)| && TableBytes(strings)[from..from + |strings[i]|] == strings[i]
  {
    EntryAt(strings, i);
    var head, entries := LE(4, |strings| % Pow256(4)), EntriesBytes(strings);
    var from, n := EntriesSize(strings, i) + 4, |strings[i]|;
    assert (head + entries)[4 + from..4 + from + n] == entries[from..from + n];
  }

  /** The table starts with the number of strings. */
  lemma CountInFront(strings: seq<Name>)
    requires |strings| < Pow256(4)
    ensures ReadLE(4, TableBytes(strings)) == Got(|strings|, EntriesBytes(strings))
  {
    hide LE, FromLE;
    assert |strings| % Pow256(4) == |strings|;
    ReadWritten(4, |strings|, EntriesBytes(strings));
  }

  /** Each entry, the last one here, is a length and as many bytes. */
  lemma LengthInFront(strings: seq<Name>, s: Name)
    requires |s| < Pow256(4)
    ensures var more := EntriesBytes(strings + [s]);
      |more| >= |EntriesBytes(strings)| && more[..|EntriesBytes(strings)|] == EntriesBytes(strings)
      && ReadLE(4, more[|EntriesBytes(strings)|..]) == Got(|s|, s)
  {
    hide LE, FromLE;
    assert (strings + [s])[..|strings|] == strings;
    assert |s| % Pow256(4) == |s|;
    ReadWritten(4, |s|, s);
    var n := |EntriesBytes(strings)|;
    assert EntriesBytes(strings + [s]) == EntriesBytes(strings) + (LE(4, |s|) + s);
  }

  function RefBytes(r: Ref): seq<Byte> {
    LE(4, r.offset) + LE(4, r.length)
  }

  /** Every reference reads back its string from the final table, if the table fits the 32-bit offsets. */
  lemma ReadBack(strings: seq<Name>, s: Name, rest: seq<Byte>)
    requires s in strings && |TableBytes(strings)| < Pow256(4)
    ensures ReadString(TableBytes(strings), RefBytes(RefOf(strings, s)) + rest) == Got(s, rest)
  {
    hide TableBytes, TextOffset, LE;
    var i := IndexOf(strings, s);
    TextInTable(strings, i);
    ReadRef(TableBytes(strings), TextOffset(strings, i), |s|, rest);
  }

  lemma ReadRef(table: seq<Byte>, offset: nat, length: nat, rest: seq<Byte>)
    requires offset + length <= |table| < Pow256(4)
    ensures ReadString(table, RefBytes(Ref(offset % Pow256(4), length % Pow256(4))) + rest)
      == Got(table[offset..offset + length], rest)
  {
    hide LE, FromLE, ReadLE;
    assert RefBytes(Ref(offset, length)) + rest == LE(4, offset) + (LE(4, length) + rest);
    ReadWritten(4, offset, LE(4, length) + rest);
    ReadWritten(4, length, rest);
  }

  /** The writer. Offsets and lengths are 32-bit numbers and wrap. */
  class StringWriter {
    var strings: seq<Name>
    var indexMap: map<Name, nat>
    var offsets: seq<nat>
    var curOff: nat

    ghost predicate Valid()
      reads this
    {
      && NoDuplicates(strings) && |offsets| == |strings|
      && curOff == (4 + EntriesSize(strings, |strings|)) % Pow256(4)
      && (forall i | 0 <= i < |strings| :: offsets[i] == TextOffset(strings, i) % Pow256(4))
      && (forall s | s in indexMap :: indexMap[s] < |strings| && strings[indexMap[s]] == s)
      && (forall s | s in strings :: s in indexMap)
    }

    constructor ()
      ensures Valid() && strings == []
    {
      strings, indexMap, offsets, curOff := [], map[], [], 4;
      new;
      Widths();
    }

    method AddInternal(s: Name)
      requires Valid() && s !in strings
      modifies this
      ensures Valid() && strings == old(strings) + [s]
    {
      Widths();
      var index := |strings|;
      AddedOffset(strings, s, curOff);
      forall i | 0 <= i < |strings| ensures TextOffset(strings + [s], i) == TextOffset(strings, i) {
        SizeInPrefix(strings, strings + [s], i);
      }
      offsets := offsets + [(curOff + 4) % 0x1_0000_0000];
      strings := strings + [s];
      indexMap := indexMap[s := index];
      curOff := (curOff + 4 + |s|) % 0x1_0000_0000;
    }

    method Add(s: Name) returns (index: nat)
      requires Valid()
      modifies this
      ensures Valid() && strings == WithString(old(strings), s)
      ensures index < |strings| && strings[index] == s
    {
      if s in indexMap {
        return indexMap[s];
      }
      AddInternal(s);
      index := indexMap[s];
    }

    method GetRef(s: Name) returns (r: Ref)
      requires Valid()
      modifies this
      ensures Valid() && strings == WithString(old(strings), s)
      ensures s in strings && r == RefOf(strings, s)
    {
      Widths();
      var index := Add(s);
      DistinctIndex(strings, index);
      r := Ref(offsets[index], |s| % 0x1_0000_0000);
    }

    method WriteTo(out: seq<Byte>) returns (out': seq<Byte>)
      requires Valid()
      ensures out' == out + TableBytes(strings)
    {
      hide LE, EntriesBytes;
      Widths();
      NoEntries();
      out' := WriteLE(out, 4, |strings| % 0x1_0000_0000);
      ghost var head := out';
      for i := 0 to |strings|
        invariant out' == head + EntriesBytes(strings[..i])
      {
        EntriesStep(strings, i, head);
        out' := WriteLE(out', 4, |strings[i]| % 0x1_0000_0000);
        out' := out' + strings[i];
      }
      assert strings[..|strings|] == strings;
    }
  }

  lemma NoEntries()
    ensures EntriesBytes([]) == []
  {
  }

  lemma EntriesStep(strings: seq<Name>, i: nat, head: seq<Byte>)
    requires i < |strings|
    ensures head + EntriesBytes(strings[..i]) + LE(4, |strings[i]| % Pow256(4)) + strings[i]
            == head + EntriesBytes(strings[..i + 1])
  {
    hide LE;
    assert strings[..i + 1][..i] == strings[..i];
  }

  lemma AddedOffset(strings: seq<Name>, s: Name, curOff: nat)
    requires curOff == (4 + EntriesSize(strings, |strings|)) % Pow256(4)
    ensures var more := strings + [s];
      && (curOff + 4) % Pow256(4) == TextOffset(more, |strings|) % Pow256(4)
      && (curOff + 4 + |s|) % Pow256(4) == (4 + EntriesSize(more, |more|)) % Pow256(4)
  {
    Widths();
    SizeInPrefix(strings, strings + [s], |strings|);
    assert EntriesSize(strings + [s], |strings| + 1) == EntriesSize(strings + [s], |strings|) + 4 + |s|;
  }

  lemma {:induction false} DistinctIndex(strings: seq<Name>, i: nat)
    requires NoDuplicates(strings) && i < |strings|
    ensures IndexOf(strings, strings[i]) == i
  {
    var j := IndexOf(strings, strings[i]);
    assert strings[j] == strings[i];
  }
}
