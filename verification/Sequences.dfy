/** Sequences without duplicates, and taking an element out of one. */
module Sequences {
  predicate NoDuplicates<T(==)>(s: seq<T>) {
    forall i, j | 0 <= i < j < |s| :: s[i] != s[j]
  }

  lemma AppendedNoDuplicates<T>(s: seq<T>, t: seq<T>)
    requires NoDuplicates(s) && NoDuplicates(t) && forall x <- s :: x !in t
    ensures NoDuplicates(s + t)
  {
    forall i, j | 0 <= i < j < |s + t| ensures (s + t)[i] != (s + t)[j] {
      assert i < |s| ==> s[i] in s;
    }
  }

  /** The first entry that is x goes. */
  function Without<T(==)>(s: seq<T>, x: T): seq<T> {
    if s == [] then [] else if s[0] == x then s[1..] else [s[0]] + Without(s[1..], x)
  }

  lemma {:induction false} WithoutFirst<T>(s: seq<T>, x: T, t: seq<T>)
    requires x !in s
    ensures Without(s + [x] + t, x) == s + t
  {
    if s == [] {
      assert s + [x] + t == [x] + t && s + t == t;
    } else {
      WithoutFirst(s[1..], x, t);
      assert (s + [x] + t)[1..] == s[1..] + [x] + t;
      assert s + t == [s[0]] + (s[1..] + t);
    }
  }

  lemma WithoutAt<T>(s: seq<T>, x: T, k: nat)
    requires k <= |s| && x !in s[..k] && (k < |s| ==> s[k] == x)
    ensures Without(s, x) == if k < |s| then s[..k] + s[k + 1..] else s
  {
    hide Without;
    if k < |s| {
      var before, after := s[..k], s[k + 1..];
      assert s == before + [x] + after;
      WithoutFirst(before, x, after);
    } else {
      assert s[..k] == s;
      WithoutAbsent(s, x);
    }
  }

  lemma {:induction false} WithoutKeeps<T>(s: seq<T>, x: T)
    requires NoDuplicates(s)
    ensures NoDuplicates(Without(s, x)) && forall y :: y in Without(s, x) <==> y in s && y != x
  {
    if s != [] {
      var t := s[1..];
      assert forall y :: y in s <==> y == s[0] || y in t;
      assert s[0] !in t;
      WithoutKeeps(t, x);
    }
  }

  lemma {:induction false} WithoutAbsent<T>(s: seq<T>, x: T)
    requires x !in s
    ensures Without(s, x) == s
  {
    if s != [] {
      WithoutAbsent(s[1..], x);
    }
  }

  /** The entries that are in a set, in order. */
  function Only<T(==)>(s: seq<T>, keep: set<T>): seq<T> {
    if s == [] then [] else (if s[0] in keep then [s[0]] else []) + Only(s[1..], keep)
  }

  lemma {:induction false} OnlyHas<T>(s: seq<T>, keep: set<T>, x: T)
    ensures x in Only(s, keep) <==> x in s && x in keep
  {
    if s != [] {
      OnlyHas(s[1..], keep, x);
      assert x in s <==> x == s[0] || x in s[1..];
    }
  }

  lemma {:induction false} OnlyTwice<T>(s: seq<T>, keep: set<T>, fewer: set<T>)
    requires fewer <= keep
    ensures Only(Only(s, keep), fewer) == Only(s, fewer)
  {
    if s != [] {
      var rest := Only(s[1..], keep);
      OnlyTwice(s[1..], keep, fewer);
      if s[0] in keep {
        assert Only(s, keep)[1..] == rest;
      } else {
        assert Only(s, keep) == rest && [] + Only(s[1..], fewer) == Only(s[1..], fewer);
      }
    }
  }

  lemma {:induction false} OnlyAll<T>(s: seq<T>, keep: set<T>)
    requires forall x <- s :: x in keep
    ensures Only(s, keep) == s
  {
    if s != [] {
      OnlyAll(s[1..], keep);
    }
  }

  lemma {:induction false} WithoutIsOnly<T>(s: seq<T>, x: T, keep: set<T>)
    requires NoDuplicates(s) && forall y <- s :: y in keep
    ensures Without(s, x) == Only(s, keep - {x})
  {
    if s != [] {
      var t := s[1..];
      assert s[0] !in t;
      if s[0] == x {
        OnlyAll(t, keep - {x});
        assert Only(s, keep - {x}) == [] + t == t;
      } else {
        WithoutIsOnly(t, x, keep);
      }
    }
  }

  function Elements<T(==)>(s: seq<T>): set<T> {
    set x | x in s
  }

  /** What is new in a sequence to someone who has seen some things already, each at its first place. */
  function New<T(==)>(s: seq<T>, seen: set<T>): seq<T> {
    if s == [] then []
    else if s[0] in seen then New(s[1..], seen)
    else [s[0]] + New(s[1..], seen + {s[0]})
  }

  lemma {:induction false} NewElements<T>(s: seq<T>, seen: set<T>)
    ensures NoDuplicates(New(s, seen)) && forall x :: x in New(s, seen) <==> x in s && x !in seen
  {
    if s != [] {
      NewElements(s[1..], if s[0] in seen then seen else seen + {s[0]});
      assert forall x :: x in s <==> x == s[0] || x in s[1..];
    }
  }

  lemma {:induction false} NewAppend<T>(s: seq<T>, t: seq<T>, seen: set<T>)
    ensures New(s + t, seen) == New(s, seen) + New(t, seen + Elements(s))
  {
    if s == [] {
      assert s + t == t && seen + Elements(s) == seen;
    } else {
      assert (s + t)[1..] == s[1..] + t;
      assert Elements(s) == {s[0]} + Elements(s[1..]);
      if s[0] in seen {
        NewAppend(s[1..], t, seen);
        assert seen + Elements(s) == seen + Elements(s[1..]);
      } else {
        NewAppend(s[1..], t, seen + {s[0]});
        assert seen + Elements(s) == seen + {s[0]} + Elements(s[1..]);
      }
    }
  }

  lemma NewOne<T>(x: T, seen: set<T>)
    ensures New([x], seen) == if x in seen then [] else [x]
  {
    assert [x][1..] == [];
  }
}
