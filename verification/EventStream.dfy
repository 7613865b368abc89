/** Server-sent events arriving in chunks: what is passed on depends on the bytes alone, not on how they were cut up. */
module EventStream {
  /** The lines that are complete, without their newlines. */
  function Lines(s: string): seq<string> {
    var k := FirstNewline(s);
    if k == |s| then [] else [s[..k]] + Lines(s[k + 1..])
  }

  /** What follows the last newline. */
  function Tail(s: string): string {
    var k := FirstNewline(s);
    if k == |s| then s else Tail(s[k + 1..])
  }

  /** The length if there is none. */
  function FirstNewline(s: string): (k: nat)
    ensures k <= |s| && '\n' !in s[..k] && (k < |s| ==> s[k] == '\n')
  {
    if s == "" || s[0] == '\n' then 0
    else
      assert s[..FirstNewline(s[1..]) + 1] == [s[0]] + s[1..][..FirstNewline(s[1..])];
      1 + FirstNewline(s[1..])
  }

  predicate IsBlank(c: char) {
    c == ' ' || c == '\t'
  }

  /** Leading blanks go, unless there is nothing else. */
  function Trimmed(s: string): string {
    if forall k :: 0 <= k < |s| ==> IsBlank(s[k]) then s else AfterBlanks(s)
  }

  function AfterBlanks(s: string): (r: string)
    ensures |r| <= |s| && r == s[|s| - |r|..] && (r != "" ==> !IsBlank(r[0]))
  {
    if s == "" || !IsBlank(s[0]) then s else AfterBlanks(s[1..])
  }

  predicate IsComment(line: string) {
    line != "" && line[0] == ':'
  }

  predicate IsData(line: string) {
    |line| >= 5 && line[..5] == "data:"
  }

  const DONE := "[DONE]"

  /** The data a line carries; empty if it carries none or marks the end. */
  function ParseLine(line: string): (data: string) {
    if line == "" || IsComment(line) then ""
    else if IsData(line) then
      var data := Trimmed(line[5..]);
      if data == DONE then "" else data
    else ""
  }

  predicate Blanks(s: string) {
    forall j | 0 <= j < |s| :: s[j] == ' ' || s[j] == '\t'
  }

  /** The data start at k: behind "data:" and the blanks that follow it, or, if nothing else does, with these. */
  predicate CarriesFrom(line: string, k: nat) {
    && 5 <= k < |line| && line[..5] == "data:" && Blanks(line[5..k])
    && if line[k] == ' ' || line[k] == '\t' then k == 5 && Blanks(line[5..]) else line[k..] != "[DONE]"
  }

  /** A line carries data exactly if they start somewhere, and then they reach to its end. */
  lemma ParseLineCarries(line: string)
    ensures ParseLine(line) != "" <==> exists k: nat :: CarriesFrom(line, k)
    ensures forall k: nat :: CarriesFrom(line, k) ==> ParseLine(line) == line[k..]
  {
    hide ParseLine, Blanks;
    forall k: nat | CarriesFrom(line, k) ensures ParseLine(line) == line[k..] && line[k..] != "" {
      CarriedIsParsed(line, k);
    }
    if ParseLine(line) != "" {
      ParsedIsCarried(line);
    }
  }

  lemma {:induction false} AfterBlanksOf(a: string, b: string)
    requires Blanks(a) && b != "" && b[0] != ' ' && b[0] != '\t'
    ensures AfterBlanks(a + b) == b
  {
    if a == "" {
      assert a + b == b;
    } else {
      assert (a + b)[1..] == a[1..] + b;
      AfterBlanksOf(a[1..], b);
    }
  }

  lemma {:induction false} AfterBlanksSplits(s: string)
    ensures var r := AfterBlanks(s); |r| <= |s| && s[|s| - |r|..] == r && Blanks(s[..|s| - |r|])
  {
    if s == "" || !IsBlank(s[0]) {
      assert AfterBlanks(s) == s && s[..0] == "";
    } else {
      AfterBlanksSplits(s[1..]);
      var r := AfterBlanks(s[1..]);
      assert AfterBlanks(s) == r;
      BlanksMore(s, |s| - |r|);
    }
  }

  lemma BlanksMore(s: string, n: nat)
    requires 1 <= n <= |s| && IsBlank(s[0]) && Blanks(s[1..][..n - 1])
    ensures Blanks(s[..n])
  {
    forall j | 0 <= j < n ensures s[..n][j] == ' ' || s[..n][j] == '\t' {
      assert j > 0 ==> s[..n][j] == s[1..][..n - 1][j - 1];
    }
  }

  lemma BlanksIs(s: string)
    ensures Blanks(s) <==> forall k :: 0 <= k < |s| ==> IsBlank(s[k])
  {
  }

  lemma TrimmedOf(a: string, b: string)
    requires Blanks(a) && b != "" && b[0] != ' ' && b[0] != '\t'
    ensures Trimmed(a + b) == b
  {
    hide AfterBlanks;
    AfterBlanksOf(a, b);
    assert (a + b)[|a|] == b[0] && !IsBlank(b[0]);
  }

  lemma CarriedIsParsed(line: string, k: nat)
    requires CarriesFrom(line, k)
    ensures ParseLine(line) == line[k..] && line[k..] != ""
  {
    hide Trimmed, Blanks;
    assert line[0] == line[..5][0];
    if line[k] == ' ' || line[k] == '\t' {
      assert Trimmed(line[5..]) == line[5..] by { AllBlankTrimmed(line[5..]); }
      assert line[5..][0] == line[5];
    } else {
      TrimmedOf(line[5..k], line[k..]);
      assert line[5..k] + line[k..] == line[5..];
    }
  }

  lemma AllBlankTrimmed(s: string)
    requires Blanks(s)
    ensures Trimmed(s) == s
  {
  }

  lemma Slices(line: string, n: nat)
    requires 5 + n <= |line|
    ensures line[5..][..n] == line[5..5 + n] && line[5..][n..] == line[5 + n..]
  {
  }

  lemma AllBlankCarries(line: string)
    requires |line| > 5 && line[..5] == "data:" && Blanks(line[5..])
    ensures CarriesFrom(line, 5)
  {
    assert line[5] == line[5..][0];
    assert line[5..5] == "";
  }

  lemma BlanksCarry(line: string, n: nat)
    requires 5 + n < |line| && line[..5] == "data:" && Blanks(line[5..][..n])
    requires !IsBlank(line[5 + n]) && line[5 + n..] != "[DONE]"
    ensures CarriesFrom(line, 5 + n)
  {
    Slices(line, n);
    hide Blanks;
  }

  lemma ParsedIsTrimmed(line: string)
    requires ParseLine(line) != ""
    ensures |line| >= 5 && line[..5] == "data:" && Trimmed(line[5..]) != "" && Trimmed(line[5..]) != "[DONE]"
  {
    hide Trimmed;
  }

  lemma TrimmedIs(s: string)
    ensures Trimmed(s) == if Blanks(s) then s else AfterBlanks(s)
  {
    BlanksIs(s);
    hide AfterBlanks, Blanks, IsBlank;
  }

  lemma BehindBlanks(line: string)
    requires |line| >= 5 && line[..5] == "data:" && !Blanks(line[5..]) && AfterBlanks(line[5..]) != "[DONE]"
    ensures exists k: nat :: CarriesFrom(line, k)
  {
    var s := line[5..];
    var r := AfterBlanks(s);
    AfterBlanksSplits(s);
    hide Blanks, AfterBlanks, IsBlank, CarriesFrom;
    assert r != "" by { assert s[..|s|] == s; }
    Slices(line, |s| - |r|);
    assert line[5 + (|s| - |r|)] == r[0];
    BlanksCarry(line, |s| - |r|);
  }

  lemma ParsedIsCarried(line: string)
    requires ParseLine(line) != ""
    ensures exists k: nat :: CarriesFrom(line, k)
  {
    hide ParseLine, Blanks, AfterBlanks, Trimmed, CarriesFrom;
    ParsedIsTrimmed(line);
    TrimmedIs(line[5..]);
    if Blanks(line[5..]) {
      AllBlankCarries(line);
    } else {
      BehindBlanks(line);
    }
  }

  function Payload(line: string): seq<string> {
    if ParseLine(line) != "" then [ParseLine(line)] else []
  }

  /** The data of some lines, in order. */
  function Delivered(lines: seq<string>): seq<string> {
    if lines == [] then [] else Payload(lines[0]) + Delivered(lines[1..])
  }

  function Joined(parts: seq<string>): string {
    if parts == [] then "" else parts[0] + Joined(parts[1..])
  }

  // ---- Cutting a stream in two ----

  lemma {:induction false} NewlineInFront(s: string, t: string)
    ensures FirstNewline(s) < |s| ==> FirstNewline(s + t) == FirstNewline(s)
  {
    if s != "" {
      assert (s + t)[0] == s[0] && (s + t)[1..] == s[1..] + t;
      NewlineInFront(s[1..], t);
    }
  }

  /** Reading a stream is reading its beginning and then what was left over together with the rest. */
  lemma {:induction false} LinesOfTwo(s: string, t: string)
    ensures Lines(s + t) == Lines(s) + Lines(Tail(s) + t)
    ensures Tail(s + t) == Tail(Tail(s) + t)
    decreases |s|
  {
    hide FirstNewline, Lines, Tail;
    var k := FirstNewline(s);
    NextLine(s);
    if k < |s| {
      NewlineInFront(s, t);
      NextLine(s + t);
      assert (s + t)[..k] == s[..k] && (s + t)[k + 1..] == s[k + 1..] + t;
      LinesOfTwo(s[k + 1..], t);
    } else {
      assert [] + Lines(s + t) == Lines(s + t);
    }
  }

  lemma {:induction false} DeliveredAppend(a: seq<string>, b: seq<string>)
    ensures Delivered(a + b) == Delivered(a) + Delivered(b)
  {
    hide Payload;
    if a == [] {
      assert a + b == b;
    } else {
      assert (a + b)[0] == a[0] && (a + b)[1..] == a[1..] + b;
      DeliveredAppend(a[1..], b);
    }
  }

  lemma {:induction false} JoinedAppend(a: seq<string>, b: seq<string>)
    ensures Joined(a + b) == Joined(a) + Joined(b)
  {
    if a == [] {
      assert a + b == b;
    } else {
      assert (a + b)[0] == a[0] && (a + b)[1..] == a[1..] + b;
      JoinedAppend(a[1..], b);
    }
  }

  /** The state kept between two arrivals; calls lists what the user's callback has been given. */
  class SSEContext {
    var buffer: string
    var fullBody: string
    var calls: seq<string>
    ghost var stream: string

    /** Everything that came in has been treated as one stream. */
    ghost predicate Valid()
      reads this
    {
      && buffer == Tail(stream)
      && calls == Delivered(Lines(stream))
      && fullBody == Joined(calls)
    }

    constructor ()
      ensures Valid() && stream == ""
    {
      buffer, fullBody, calls, stream := "", "", [], "";
    }

    method WriteCallback(contents: string) returns (taken: nat)
      requires Valid()
      modifies this
      ensures Valid() && stream == old(stream) + contents && taken == |contents|
    {
      hide FirstNewline, Lines, Tail, Delivered, Payload, ParseLine, Joined;
      LinesOfTwo(stream, contents);
      ghost var s := stream + contents;
      DeliveredAppend(Lines(stream), Lines(buffer + contents));
      buffer := buffer + contents;
      stream := s;
      var k := FirstNewline(buffer);
      while k < |buffer|
        invariant k == FirstNewline(buffer) && stream == s
        invariant Tail(buffer) == Tail(s)
        invariant calls + Delivered(Lines(buffer)) == Delivered(Lines(s))
        invariant fullBody == Joined(calls)
        decreases |buffer|
      {
        NextLine(buffer);
        var line := buffer[..k];
        buffer := buffer[k + 1..];
        FirstDelivered(line, Lines(buffer));
        var data := ParseLine(line);
        if data != "" {
          JoinedAppend(calls, [data]);
          JoinedOne(data);
          fullBody := fullBody + data;
          calls := calls + [data];
        }
        k := FirstNewline(buffer);
      }
      NextLine(buffer);
      assert Delivered([]) == [] by { NoneDelivered(); }
      taken := |contents|;
    }
  }

  lemma NextLine(s: string)
    ensures FirstNewline(s) <= |s|
    ensures var k := FirstNewline(s);
            if k < |s| then Lines(s) == [s[..k]] + Lines(s[k + 1..]) && Tail(s) == Tail(s[k + 1..])
            else Lines(s) == [] && Tail(s) == s
  {
  }

  lemma FirstDelivered(line: string, lines: seq<string>)
    ensures Delivered([line] + lines) == (if ParseLine(line) != "" then [ParseLine(line)] else []) + Delivered(lines)
  {
    assert ([line] + lines)[1..] == lines;
  }

  lemma NoneDelivered()
    ensures Delivered([]) == []
  {
  }

  lemma JoinedOne(data: string)
    ensures Joined([data]) == data
  {
    assert [data][1..] == [];
  }

  lemma NothingJoined(parts: seq<string>)
    ensures Joined(parts[..0]) == ""
  {
  }

  /** Any way of cutting the stream gives the same calls, the same body and the same rest. */
  method Receive(chunks: seq<string>) returns (calls: seq<string>, body: string, left: string)
    ensures calls == Delivered(Lines(Joined(chunks)))
    ensures body == Joined(calls)
    ensures left == Tail(Joined(chunks))
  {
    hide FirstNewline, Lines, Tail, Delivered, Joined;
    var context := new SSEContext();
    assert Joined(chunks[..0]) == "" by { NothingJoined(chunks); }
    for k := 0 to |chunks|
      invariant context.Valid() && fresh(context)
      invariant context.stream == Joined(chunks[..k])
    {
      assert chunks[..k + 1] == chunks[..k] + [chunks[k]];
      JoinedAppend(chunks[..k], [chunks[k]]);
      JoinedOne(chunks[k]);
      var _ := context.WriteCallback(chunks[k]);
    }
    assert chunks[..|chunks|] == chunks;
    return context.calls, context.fullBody, context.buffer;
  }

  function Unsplit(lines: seq<string>): string {
    if lines == [] then "" else lines[0] + "\n" + Unsplit(lines[1..])
  }

  /** Lines and rest are the stream again, and what separates them is all its newlines. */
  lemma {:induction false} LinesPartition(s: string)
    ensures s == Unsplit(Lines(s)) + Tail(s)
    ensures '\n' !in Tail(s) && forall k :: 0 <= k < |Lines(s)| ==> '\n' !in Lines(s)[k]
    decreases |s|
  {
    var k := FirstNewline(s);
    NewlineAt(s);
    NextLine(s);
    hide FirstNewline, Lines, Tail;
    if k < |s| {
      var rest := s[k + 1..];
      LinesPartition(rest);
      UnsplitFirst(s[..k], Lines(rest));
      assert s == s[..k] + "\n" + rest;
    } else {
      assert s[..k] == s;
    }
  }

  lemma NewlineAt(s: string)
    ensures var k := FirstNewline(s); k <= |s| && '\n' !in s[..k] && (k < |s| ==> s[k] == '\n')
  {
  }

  lemma UnsplitFirst(line: string, lines: seq<string>)
    ensures Unsplit([line] + lines) == line + "\n" + Unsplit(lines)
  {
    assert ([line] + lines)[1..] == lines;
  }
}
