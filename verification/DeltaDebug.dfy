/** Minimisation of a failing input by removing chunks while an oracle still accepts the rest. */
module DeltaDebug {
  import opened Bytes

  /** s with the elements from position i up to j removed. */
  function Without<T>(s: seq<T>, i: nat, j: nat): seq<T>
    requires i <= j <= |s|
  {
    s[..i] + s[j..]
  }

  function WithoutOne(s: seq<Byte>, i: nat): seq<Byte>
    requires i < |s|
  {
    Without(s, i, i + 1)
  }

  /** No single element can be removed. */
  predicate OneMinimal(s: seq<Byte>, oracle: seq<Byte> -> bool) {
    forall i | 0 <= i < |s| :: !oracle(WithoutOne(s, i))
  }

  /** a consists of the elements of b at increasing positions. */
  predicate Picks(a: seq<Byte>, b: seq<Byte>, at: seq<nat>) {
    && |at| == |a|
    && (forall k | 0 <= k < |at| :: at[k] < |b| && a[k] == b[at[k]])
    && (forall k, l | 0 <= k < l < |at| :: at[k] < at[l])
  }

  ghost predicate Subsequence(a: seq<Byte>, b: seq<Byte>) {
    exists at :: Picks(a, b, at)
  }

  lemma WithoutPicks(a: seq<Byte>, b: seq<Byte>, i: nat, j: nat)
    requires Subsequence(a, b) && i <= j <= |a|
    ensures Subsequence(Without(a, i, j), b)
  {
    var at :| Picks(a, b, at);
    var w, at' := Without(a, i, j), Without(at, i, j);
    forall k | 0 <= k < |w|
      ensures w[k] == if k < i then a[k] else a[k + (j - i)]
      ensures at'[k] == if k < i then at[k] else at[k + (j - i)]
    {
    }
    assert Picks(w, b, at');
  }

  lemma SubsequenceOfSelf(a: seq<Byte>)
    ensures Subsequence(a, a)
  {
    assert Picks(a, a, seq(|a|, i requires 0 <= i < |a| => i));
  }

  /** The chunk that round I of N removes from an input of the given size: [start, end). */
  function ChunkSize(size: nat, n: nat): nat
    requires n > 0
  {
    if size / n == 0 then 1 else size / n
  }

  function ChunkEnd(size: nat, n: nat, i: nat): nat
    requires n > 0
  {
    if i == n - 1 then size else i * ChunkSize(size, n) + ChunkSize(size, n)
  }

  /** Chunks are proper: not empty, inside the input, and not all of it; and enough is left for N - 1 chunks. */
  lemma ChunkBounds(size: nat, n: nat, i: nat)
    requires 2 <= n <= size && i < n
    ensures i * ChunkSize(size, n) < ChunkEnd(size, n, i) <= size
    ensures n - 1 <= size - (ChunkEnd(size, n, i) - i * ChunkSize(size, n)) < size
    ensures n == size ==> ChunkSize(size, n) == 1
  {
    var q := size / n;
    QuotientBounds(size, n);
    Times(i, n, q);
  }

  /** The chunks follow one another from the start to the end, all but the last of one size, the largest that n of them
    * can have. */
  lemma ChunksPartition(size: nat, n: nat, i: nat)
    requires 2 <= n <= size && i < n
    ensures 0 * ChunkSize(size, n) == 0 && ChunkEnd(size, n, n - 1) == size
    ensures i < n - 1 ==> ChunkEnd(size, n, i) == (i + 1) * ChunkSize(size, n)
    ensures n * ChunkSize(size, n) <= size < n * ChunkSize(size, n) + n
  {
    QuotientBounds(size, n);
    var q := size / n;
    assert size == q * n + size % n;
    assert (i + 1) * q == i * q + q;
  }

  lemma QuotientBounds(size: nat, n: nat)
    requires 2 <= n <= size
    ensures 1 <= size / n && (n - 1) * (size / n) + size / n <= size && n - 1 <= (n - 1) * (size / n)
    ensures n == size ==> size / n == 1
  {
    var q := size / n;
    assert size == q * n + size % n;
    assert q >= 1;
    Times(n - 1, n, q);
  }

  lemma Times(i: nat, n: nat, q: nat)
    requires i < n && q >= 1
    ensures n * q == (n - 1) * q + q == q * n
    ensures i < n - 1 ==> i * q + q <= (n - 1) * q
    ensures i <= i * q
  {
    TimesMonotone(i, i, 1, q);
    if i < n - 1 {
      TimesMonotone(i + 1, n - 1, q, q);
    }
  }

  lemma {:induction false} TimesMonotone(i: nat, j: nat, p: nat, q: nat)
    requires i <= j && p <= q
    ensures i * p <= j * q
    decreases j
  {
    if j > 0 {
      TimesMonotone(if i > 0 then i - 1 else 0, j - 1, p, q);
      assert j * q == (j - 1) * q + q;
      assert i > 0 ==> i * p == (i - 1) * p + p;
    }
  }

  /** 3 + 6 + ... + 3s. */
  function Triangle(s: nat): nat {
    if s == 0 then 0 else Triangle(s - 1) + 3 * s
  }

  lemma {:induction false} TriangleClosed(s: nat)
    ensures 2 * Triangle(s) == 3 * s * (s + 1)
  {
    if s > 0 {
      TriangleClosed(s - 1);
    }
  }

  lemma {:induction false} TriangleMonotone(s: nat, t: nat)
    requires s <= t
    ensures Triangle(s) <= Triangle(t)
    decreases t
  {
    if s < t {
      TriangleMonotone(s, t - 1);
    }
  }

  /** A bound on the oracle calls still to come, with an input of the given size cut into n chunks. */
  function CallsLeft(size: nat, n: nat): int {
    if size < 2 then 0 else (if n == size then size else 3 * size - n) + Triangle(size - 1)
  }

  /** A round that fails spends n calls and doubles n. */
  lemma FailedRound(size: nat, n: nat)
    requires 2 <= n < size
    ensures n + CallsLeft(size, if n * 2 < size then n * 2 else size) <= CallsLeft(size, n)
  {
  }

  /** A round that succeeds spends at most n calls and shrinks the input. */
  lemma SuccessfulRound(size: nat, n: nat, size': nat, n': nat)
    requires 2 <= n <= size && size' < size && 2 <= n'
    ensures n + CallsLeft(size', n') <= CallsLeft(size, n)
  {
    if size' >= 2 {
      assert CallsLeft(size', n') <= Triangle(size');
    }
    TriangleMonotone(size', size - 1);
  }

  /** An input and into how many chunks it is cut. */
  datatype Round = Round(input: seq<Byte>, n: nat)

  /** What is left without chunk i. */
  function WithoutChunk(r: Round, i: nat): seq<Byte>
    requires 2 <= r.n <= |r.input| && i < r.n
  {
    ChunkBounds(|r.input|, r.n, i);
    Without(r.input, i * ChunkSize(|r.input|, r.n), ChunkEnd(|r.input|, r.n, i))
  }

  /** Chunk i is the first that can go. */
  ghost predicate FirstToGo(oracle: seq<Byte> -> bool, r: Round, i: nat)
    requires 2 <= r.n <= |r.input|
  {
    i < r.n && oracle(WithoutChunk(r, i)) && forall j | 0 <= j < i :: !oracle(WithoutChunk(r, j))
  }

  /** The first chunk that can go goes, and there is one chunk less; if none can, there are twice as many, up to one for
    * each element. */
  ghost predicate NextRound(oracle: seq<Byte> -> bool, r: Round, r': Round) {
    && 2 <= r.n <= |r.input|
    && if NoChunkRemovable(r.input, oracle, r.n) then
         r.n < |r.input| && r' == Round(r.input, if 2 * r.n < |r.input| then 2 * r.n else |r.input|)
       else
         exists i: nat :: FirstToGo(oracle, r, i) && r' == Round(WithoutChunk(r, i), if r.n > 3 then r.n - 1 else 2)
  }

  /** Too short to cut, or cut into single elements of which none can go. */
  ghost predicate LastRound(oracle: seq<Byte> -> bool, r: Round) {
    |r.input| < 2 || (2 <= r.n == |r.input| && NoChunkRemovable(r.input, oracle, r.n))
  }

  ghost predicate IsRun(oracle: seq<Byte> -> bool, run: seq<Round>) {
    run != [] && forall k | 0 <= k < |run| - 1 :: NextRound(oracle, run[k], run[k + 1])
  }

  /** Rounds lead from the one to the other. */
  ghost predicate Leads(oracle: seq<Byte> -> bool, r: Round, r': Round) {
    exists run :: IsRun(oracle, run) && run[0] == r && run[|run| - 1] == r'
  }

  lemma LeadsNowhere(oracle: seq<Byte> -> bool, r: Round)
    ensures Leads(oracle, r, r)
  {
    assert IsRun(oracle, [r]);
  }

  lemma LeadsOn(oracle: seq<Byte> -> bool, r: Round, r': Round, r'': Round)
    requires Leads(oracle, r, r') && NextRound(oracle, r', r'')
    ensures Leads(oracle, r, r'')
  {
    hide NextRound;
    var run :| IsRun(oracle, run) && run[0] == r && run[|run| - 1] == r';
    assert IsRun(oracle, run + [r'']);
  }

  /**
   The result is where the rounds lead that start with two chunks. It is a subsequence of the input; if it is not
   the input itself, the oracle accepts it; it cannot be shortened by one element, unless it has only one; and the
   oracle was asked at most 3n(n + 1)/2 times.
   */
  method Minimise(triggering: seq<Byte>, oracle: seq<Byte> -> bool) returns (input: seq<Byte>, ghost calls: nat)
    ensures exists n: nat :: Leads(oracle, Round(triggering, 2), Round(input, n)) && LastRound(oracle, Round(input, n))
    ensures Subsequence(input, triggering)
    ensures input == triggering || oracle(input)
    ensures triggering != [] ==> input != []
    ensures |input| <= 1 || OneMinimal(input, oracle)
    ensures 2 * calls <= 3 * |triggering| * (|triggering| + 1)
  {
    hide Triangle;
    input, calls := PlayRounds(triggering, oracle);
    TriangleClosed(|triggering|);
  }

  method PlayRounds(triggering: seq<Byte>, oracle: seq<Byte> -> bool) returns (input: seq<Byte>, ghost calls: nat)
    ensures exists n: nat :: Leads(oracle, Round(triggering, 2), Round(input, n)) && LastRound(oracle, Round(input, n))
    ensures Subsequence(input, triggering)
    ensures input == triggering || oracle(input)
    ensures triggering != [] ==> input != []
    ensures |input| <= 1 || OneMinimal(input, oracle)
    ensures calls <= Triangle(|triggering|)
  {
    hide Leads, NextRound, FirstToGo, NoChunkRemovable, Subsequence, OneMinimal, CallsLeft, Triangle;
    input, calls := triggering, 0;
    LeadsNowhere(oracle, Round(triggering, 2));
    SubsequenceOfSelf(triggering);
    FirstCalls(|triggering|);
    assert |triggering| < 2 ==> LastRound(oracle, Round(triggering, 2));
    if triggering == [] {
      return;
    }
    var n := 2;
    while |input| >= 2
      invariant Subsequence(input, triggering) && input != [] && (input == triggering || oracle(input))
      invariant 2 <= n && (|input| >= 2 ==> n <= |input|)
      invariant calls + CallsLeft(|input|, n) <= Triangle(|triggering|) && CallsLeft(|input|, n) >= 0
      invariant Leads(oracle, Round(triggering, 2), Round(input, n))
      decreases |input|, |input| - n
    {
      ghost var round := Round(input, n);
      var found;
      ghost var asked;
      found, input, asked := TryChunks(input, oracle, n, triggering);
      calls := calls + asked;
      if found {
        n := if n - 1 > 2 then n - 1 else 2;
        SuccessfulRound(|round.input|, round.n, |input|, n);
        FoundRound(oracle, round, input);
      } else {
        if n == |input| {
          SingleChunks(input, oracle);
          LastCalls(n);
          assert LastRound(oracle, Round(input, n));
          break;
        }
        FailedRound(|input|, n);
        n := if n * 2 < |input| then n * 2 else |input|;
        FinerRound(oracle, round);
      }
      MoreCalls(|input|, n);
      LeadsOn(oracle, Round(triggering, 2), round, Round(input, n));
    }
    assert |input| < 2 ==> LastRound(oracle, Round(input, n));
  }

  lemma FirstCalls(size: nat)
    ensures 0 <= CallsLeft(size, 2) <= Triangle(size)
  {
  }

  lemma LastCalls(size: nat)
    requires size >= 2
    ensures size <= CallsLeft(size, size)
  {
  }

  lemma MoreCalls(size: nat, n: nat)
    requires size >= 2 ==> n <= size
    ensures CallsLeft(size, n) >= 0
  {
  }

  lemma FoundRound(oracle: seq<Byte> -> bool, r: Round, input: seq<Byte>)
    requires 2 <= r.n <= |r.input| && exists i: nat :: FirstToGo(oracle, r, i) && input == WithoutChunk(r, i)
    ensures NextRound(oracle, r, Round(input, if r.n - 1 > 2 then r.n - 1 else 2))
  {
    hide WithoutChunk;
    var i: nat :| FirstToGo(oracle, r, i) && input == WithoutChunk(r, i);
    assert ChunkRemovable(r.input, oracle, r.n, i) by { RemovableIs(oracle, r, i); }
  }

  lemma FinerRound(oracle: seq<Byte> -> bool, r: Round)
    requires 2 <= r.n < |r.input| && NoChunkRemovable(r.input, oracle, r.n)
    ensures NextRound(oracle, r, Round(r.input, if r.n * 2 < |r.input| then r.n * 2 else |r.input|))
  {
    hide NoChunkRemovable;
  }

  lemma RemovableIs(oracle: seq<Byte> -> bool, r: Round, i: nat)
    requires 2 <= r.n <= |r.input| && i < r.n
    ensures ChunkRemovable(r.input, oracle, r.n, i) <==> oracle(WithoutChunk(r, i))
  {
  }

  /** One round: removes the first chunk whose removal the oracle accepts. It asks the oracle at most n times. */
  method TryChunks(input: seq<Byte>, oracle: seq<Byte> -> bool, n: nat, ghost triggering: seq<Byte>) 
      returns (found: bool, input': seq<Byte>, ghost asked: nat)
    requires 2 <= n <= |input| && Subsequence(input, triggering)
    ensures asked <= n
    ensures found ==> n - 1 <= |input'| < |input| && oracle(input') && Subsequence(input', triggering)
    ensures found ==>
            exists i: nat :: FirstToGo(oracle, Round(input, n), i) && input' == WithoutChunk(Round(input, n), i)
    ensures !found ==> input' == input && NoChunkRemovable(input, oracle, n)
  {
    hide WithoutChunk, ChunkRemovable, NoChunkRemovable, Subsequence;
    ghost var r := Round(input, n);
    var chunkSize := if |input| / n == 0 then 1 else |input| / n;
    found, input', asked := false, input, 0;
    var i := 0;
    while i < n && !found
      invariant i <= n && asked == i
      invariant !found ==> input' == input && forall j | 0 <= j < i :: !oracle(WithoutChunk(r, j))
      invariant found ==> i > 0 && FirstToGo(oracle, r, i - 1) && input' == WithoutChunk(r, i - 1)
    {
      ChunkBounds(|input|, n, i);
      var start := i * chunkSize;
      var end := if i == n - 1 then |input| else start + chunkSize;
      var complement := input[..start] + input[end..];
      assert complement == WithoutChunk(r, i) by { ChunkIs(r, i); }
      if oracle(complement) {
        input' := complement;
        found := true;
      }
      asked := asked + 1;
      i := i + 1;
    }
    if found {
      RemovalIs(r, i - 1, triggering);
    } else {
      NoneToGo(oracle, r);
    }
  }

  lemma ChunkIs(r: Round, i: nat)
    requires 2 <= r.n <= |r.input| && i < r.n
    ensures var size := if |r.input| / r.n == 0 then 1 else |r.input| / r.n;
            var end := if i == r.n - 1 then |r.input| else i * size + size;
            i * size <= end <= |r.input| && WithoutChunk(r, i) == r.input[..i * size] + r.input[end..]
  {
    ChunkBounds(|r.input|, r.n, i);
  }

  lemma RemovalIs(r: Round, i: nat, triggering: seq<Byte>)
    requires 2 <= r.n <= |r.input| && i < r.n && Subsequence(r.input, triggering)
    ensures r.n - 1 <= |WithoutChunk(r, i)| < |r.input| && Subsequence(WithoutChunk(r, i), triggering)
  {
    hide Subsequence;
    ChunkBounds(|r.input|, r.n, i);
    WithoutPicks(r.input, triggering, i * ChunkSize(|r.input|, r.n), ChunkEnd(|r.input|, r.n, i));
  }

  lemma NoneToGo(oracle: seq<Byte> -> bool, r: Round)
    requires 2 <= r.n <= |r.input| && forall j | 0 <= j < r.n :: !oracle(WithoutChunk(r, j))
    ensures NoChunkRemovable(r.input, oracle, r.n)
  {
    hide WithoutChunk, ChunkRemovable;
    forall i | 0 <= i < r.n ensures !ChunkRemovable(r.input, oracle, r.n, i) {
      RemovableIs(oracle, r, i);
    }
  }

  ghost predicate ChunkRemovable(input: seq<Byte>, oracle: seq<Byte> -> bool, n: nat, i: nat)
    requires 2 <= n <= |input| && i < n
  {
    ChunkBounds(|input|, n, i);
    oracle(Without(input, i * ChunkSize(|input|, n), ChunkEnd(|input|, n, i)))
  }

  ghost predicate NoChunkRemovable(input: seq<Byte>, oracle: seq<Byte> -> bool, n: nat)
    requires 2 <= n <= |input|
  {
    forall i | 0 <= i < n :: !ChunkRemovable(input, oracle, n, i)
  }

  /** When there are as many chunks as elements, each chunk is one element. */
  lemma SingleChunks(input: seq<Byte>, oracle: seq<Byte> -> bool)
    requires |input| >= 2 && NoChunkRemovable(input, oracle, |input|)
    ensures OneMinimal(input, oracle)
  {
    var n := |input|;
    forall i | 0 <= i < n ensures !oracle(WithoutOne(input, i)) {
      ChunkBounds(n, n, i);
      assert !ChunkRemovable(input, oracle, n, i);
    }
  }
}
