/** What several of the models share. */
module Basics {

  const PGSIZE := 4096
  const BSIZE := 1024
  /** The largest number of blocks that one file system operation may log. */
  const MAXOPBLOCKS := 10
  const NUL := '\0'

  function Min(a: int, b: int): int { if a < b then a else b }
  function Max(a: int, b: int): int { if a < b then b else a }

  /** A predicate that is always true.  Invariants that are expensive to unfold stand behind it, in a
      quantifier that has it as its trigger: only a proof that mentions it sees inside.  x tells one
      such invariant from another. */
  ghost predicate Key<T>(k: int, x: T) { true }

  lemma SomeMember<T>(s: set<T>) returns (x: T)
    requires s != {}
    ensures x in s
  {
    x :| x in s;
  }

  /** Distinct things that are all in t are no more than t has places. */
  lemma {:induction false} Pigeonhole<T>(s: seq<T>, t: seq<T>)
    requires forall i, j {:trigger s[i], s[j]} | 0 <= i < j < |s| :: s[i] != s[j]
    requires forall i {:trigger s[i]} | 0 <= i < |s| :: s[i] in t
    ensures |s| <= |t|
  {
    if s != [] {
      var k :| 0 <= k < |t| && t[k] == s[0];
      var t' := t[..k] + t[k + 1..];
      forall i {:trigger s[1..][i]} | 0 <= i < |s| - 1 ensures s[1..][i] in t' {
        assert s[1..][i] == s[i + 1] != s[0];
        var j :| 0 <= j < |t| && t[j] == s[i + 1];
        assert t'[if j < k then j else j - 1] == t[j];
      }
      Pigeonhole(s[1..], t');
    }
  }

  /** Two lists without common elements, of distinct numbers from lo up to hi. */
  lemma SideBySide(s: seq<int>, t: seq<int>, lo: int, hi: int)
    requires forall i, j {:trigger s[i], s[j]} | 0 <= i < j < |s| :: s[i] != s[j]
    requires forall i, j {:trigger t[i], t[j]} | 0 <= i < j < |t| :: t[i] != t[j]
    requires forall i, j {:trigger s[i], t[j]} | 0 <= i < |s| && 0 <= j < |t| :: s[i] != t[j]
    requires forall i {:trigger s[i]} | 0 <= i < |s| :: lo <= s[i] < hi
    requires forall i {:trigger t[i]} | 0 <= i < |t| :: lo <= t[i] < hi
    requires lo <= hi
    ensures |s| + |t| <= hi - lo
  {
    var all := seq(hi - lo, i => lo + i);
    forall i {:trigger (s + t)[i]} | 0 <= i < |s + t| ensures (s + t)[i] in all {
      assert all[(s + t)[i] - lo] == (s + t)[i];
    }
    Pigeonhole(s + t, all);
  }

  function Uniform<T>(lo: int, hi: int, x: T): (m: map<int, T>)
    ensures forall p :: p in m <==> lo <= p < hi
    ensures forall p | p in m :: m[p] == x
    decreases hi - lo
  {
    if hi <= lo then map[] else Uniform(lo, hi - 1, x)[hi - 1 := x]
  }

  /** The C string at place q: up to the first NUL. */
  function CString(b: string, q: nat): string
    decreases |b| - q
  {
    if q >= |b| || b[q] == NUL then [] else [b[q]] + CString(b, q + 1)
  }

  lemma {:induction false} CStringIs(b: string, q: nat, e: nat)
    requires q <= e < |b| && b[e] == NUL && forall k | q <= k < e :: b[k] != NUL
    ensures CString(b, q) == b[q..e]
    decreases e - q
  {
    if q < e {
      CStringIs(b, q + 1, e);
      assert b[q..e] == [b[q]] + b[q + 1..e];
    }
  }
}
