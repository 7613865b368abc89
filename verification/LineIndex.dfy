/** The table of line starts of a file, and finding the line and column of an offset with it. */
module LineIndex {
  function Newlines(s: string): nat {
    if s == "" then 0 else Newlines(s[..|s| - 1]) + (if s[|s| - 1] == '\n' then 1 else 0)
  }

  /** Where the line that the end of the text is on starts. */
  function LineStart(s: string): (k: nat)
    ensures k <= |s|
    ensures k > 0 ==> s[k - 1] == '\n'
    ensures forall j :: k <= j < |s| ==> s[j] != '\n'
  {
    if s == "" then 0 else if s[|s| - 1] == '\n' then |s| else LineStart(s[..|s| - 1])
  }

  /** The part of the text before an offset, which may lie behind its end. */
  function Before(s: string, offset: nat): string {
    if offset <= |s| then s[..offset] else s
  }

  /** 0 and every place behind a newline. */
  function LineStarts(s: string): (os: seq<nat>)
    ensures |os| == 1 + Newlines(s)
  {
    if s == "" then [0] else LineStarts(s[..|s| - 1]) + (if s[|s| - 1] == '\n' then [|s|] else [])
  }

  lemma {:induction false} StartsIncrease(s: string)
    ensures forall i, j :: 0 <= i < j < |LineStarts(s)| ==> LineStarts(s)[i] < LineStarts(s)[j]
    ensures forall i :: 0 <= i < |LineStarts(s)| ==> LineStarts(s)[i] <= |s|
    ensures LineStarts(s)[|LineStarts(s)| - 1] == LineStart(s)
  {
    if s != "" {
      StartsIncrease(s[..|s| - 1]);
    }
  }

  /** The line starts of a prefix are the ones up to its end. */
  lemma {:induction false} StartsOfPrefix(s: string, n: nat)
    requires n <= |s|
    ensures LineStarts(s[..n]) <= LineStarts(s)
    ensures forall i :: |LineStarts(s[..n])| <= i < |LineStarts(s)| ==> LineStarts(s)[i] > n
    decreases |s| - n
  {
    if n == |s| {
      assert s[..n] == s;
    } else {
      StartsOfPrefix(s, n + 1);
      assert s[..n + 1][..n] == s[..n];
      StartsIncrease(s[..n + 1]);
    }
  }

  const WORD: nat := 0x1_0000_0000

  /** The starts as 32-bit numbers. */
  function Wrapped(os: seq<nat>): (r: seq<nat>)
    ensures |r| == |os| && forall k :: 0 <= k < |os| ==> r[k] == os[k] % 0x1_0000_0000
  {
    seq(|os|, k requires 0 <= k < |os| => os[k] % WORD)
  }

  lemma NothingWraps(s: string)
    requires LineStart(s) < WORD
    ensures Wrapped(LineStarts(s)) == LineStarts(s)
  {
    StartsIncrease(s);
  }

  lemma LastStartIsBehind(s: string, offset: nat)
    requires offset < LineStart(s)
    ensures Newlines(Before(s, offset)) < Newlines(s)
  {
    StartsOfPrefix(s, offset);
    StartsIncrease(s);
    StartsIncrease(s[..offset]);
  }

  /** Where the starts up to an offset end in the table. */
  lemma CutAt(s: string, offset: nat, i: nat)
    requires i <= |LineStarts(s)|
    requires i > 0 ==> LineStarts(s)[i - 1] <= offset
    requires i < |LineStarts(s)| ==> LineStarts(s)[i] > offset
    ensures i == 1 + Newlines(Before(s, offset))
    ensures LineStarts(s)[i - 1] == LineStart(Before(s, offset))
  {
    var n := if offset <= |s| then offset else |s|;
    StartsOfPrefix(s, n);
    StartsIncrease(s);
    StartsIncrease(s[..n]);
    assert s[..|s|] == s;
  }

  /** A cut of the table parts the starts themselves, or comes behind them all while the last start is out of reach. */
  lemma CutOfTable(s: string, offset: nat, i: nat)
    requires offset < WORD && i <= |LineStarts(s)|
    requires i > 0 ==> Wrapped(LineStarts(s))[i - 1] <= offset
    requires i < |LineStarts(s)| ==> Wrapped(LineStarts(s))[i] > offset
    ensures LineStart(s) < WORD ==>
            i == 1 + Newlines(Before(s, offset)) && Wrapped(LineStarts(s))[i - 1] == LineStart(Before(s, offset))
    ensures offset == WORD - 1 ==> i == 1 + Newlines(s)
    ensures offset == WORD - 1 ==> (i == 1 + Newlines(Before(s, offset)) <==> LineStart(s) < WORD)
  {
    if LineStart(s) < WORD {
      NothingWraps(s);
      CutAt(s, offset, i);
    } else if offset == WORD - 1 {
      LastStartIsBehind(s, offset);
    }
  }

  lemma ColumnsAddUp(offset: nat, start: nat)
    requires offset < WORD && start < WORD
    ensures (start + (offset - start + 1) % WORD) % WORD == (offset + 1) % WORD
  {
    var d := offset - start + 1;
    if d < 0 {
      assert d % WORD == d + WORD;
    } else if d < WORD {
      assert d % WORD == d;
    }
  }

  class FileInfo {
    const content: string
    var lineOffsets: seq<nat>

    predicate Valid()
      reads this
    {
      lineOffsets == Wrapped(LineStarts(content))
    }

    constructor (data: string)
      ensures Valid() && content == data
    {
      content := data;
      lineOffsets := [0];
      new;
      assert data[..0] == "";
      for i := 0 to |content|
        invariant lineOffsets == Wrapped(LineStarts(content[..i]))
      {
        assert content[..i + 1][..i] == content[..i];
        if content[i] == '\n' {
          lineOffsets := lineOffsets + [(i + 1) % WORD];
        }
      }
      assert content[..|content|] == content;
    }

    /** A place in the table that parts the starts around it; in a table in order, it parts them all. */
    method UpperBound(offset: nat) returns (n: nat)
      ensures n <= |lineOffsets|
      ensures n > 0 ==> lineOffsets[n - 1] <= offset
      ensures n < |lineOffsets| ==> lineOffsets[n] > offset
    {
      n := 0;
      var count := |lineOffsets|;
      while count > 0
        invariant 0 <= count && n + count <= |lineOffsets|
        invariant n > 0 ==> lineOffsets[n - 1] <= offset
        invariant n + count < |lineOffsets| ==> lineOffsets[n + count] > offset
      {
        var half := count / 2;
        if lineOffsets[n + half] <= offset {
          n := n + half + 1;
          count := count - half - 1;
        } else {
          count := half;
        }
      }
    }

    function GetLineOffset(line: nat): (offset: nat)
      requires Valid()
      reads this
      ensures 1 <= line <= |lineOffsets| ==> offset == LineStarts(content)[line - 1] % WORD
    {
      if line == 0 || line > |lineOffsets| then 0 else lineOffsets[line - 1]
    }

    /** Lines are counted by their newlines, columns from the last one; the two together give back the offset. With
      * fewer newlines than 32 bits can number, this is so for every offset iff the last line starts below four
      * gigabytes. */
    method GetLineAndColumn(offset: nat) returns (line: nat, column: nat)
      requires Valid() && offset < 0x1_0000_0000
      ensures line < 0x1_0000_0000 && column < 0x1_0000_0000
      ensures (GetLineOffset(line) + column) % 0x1_0000_0000 == (offset + 1) % 0x1_0000_0000
      ensures LineStart(content) < 0x1_0000_0000 && Newlines(content) + 1 < 0x1_0000_0000 ==>
        && line == 1 + Newlines(Before(content, offset))
        && column == (offset - LineStart(Before(content, offset)) + 1) % 0x1_0000_0000
      ensures Newlines(content) + 1 < 0x1_0000_0000 && offset == 0x1_0000_0000 - 1 ==>
        (line == 1 + Newlines(Before(content, offset)) <==> LineStart(content) < 0x1_0000_0000)
    {
      var it := UpperBound(offset);
      line := (if it == 0 then 1 else it) % WORD;
      column := (offset - GetLineOffset(line) + 1) % WORD;
      ColumnsAddUp(offset, GetLineOffset(line));
      CutOfTable(content, offset, it);
    }
  }
}
