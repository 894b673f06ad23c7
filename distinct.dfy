/** pandas `DataFrame.drop_duplicates()` on the crawl accumulator: rows equal
    in every column collapse to their first occurrence, order kept. */
module Distinct {

  predicate NoDuplicates<T(==)>(s: seq<T>) {
    forall i, j :: 0 <= i < j < |s| ==> s[i] != s[j]
  }

  /** The first occurrence of every element of `s`, in the order of `s`. */
  function Dedup<T(==)>(s: seq<T>): (r: seq<T>)
    ensures NoDuplicates(r)
    ensures forall i :: 0 <= i < |r| ==> r[i] in s
    ensures forall i :: 0 <= i < |s| ==> s[i] in r
    ensures |r| <= |s|
  {
    if s == [] then []
    else
      var d := Dedup(s[..|s| - 1]);
      var x := s[|s| - 1];
      if x in d then d else d + [x]
  }

  /** The index of the first occurrence of `x` in `s`. */
  function FirstIndex<T(==)>(s: seq<T>, x: T): (i: nat)
    requires x in s
    ensures i < |s| && s[i] == x && x !in s[..i]
  {
    if s[0] == x then 0 else
      var i := FirstIndex(s[1..], x);
      assert s[..i + 1] == [s[0]] + s[1..][..i];
      i + 1
  }

  lemma FirstIndexOfPrefix<T>(s: seq<T>, n: nat, x: T)
    requires n <= |s| && x in s[..n]
    ensures FirstIndex(s, x) == FirstIndex(s[..n], x)
  {
    var i, j := FirstIndex(s, x), FirstIndex(s[..n], x);
    assert s[..n][j] == s[j];
    assert i <= j;
    assert s[..n][..j] == s[..j];
  }

  /** Every element of `r` occurs in `s`, and `r` lists them in the order of
      their first occurrences in `s`. */
  predicate FirstOrdered<T(==)>(s: seq<T>, r: seq<T>) {
    (forall i :: 0 <= i < |r| ==> r[i] in s) &&
    forall i, j :: 0 <= i < j < |r| ==> FirstIndex(s, r[i]) < FirstIndex(s, r[j])
  }

  /** Kept rows appear in the order of their first occurrences in the input. */
  lemma {:induction false} DedupKeepsFirstOrder<T>(s: seq<T>)
    ensures FirstOrdered(s, Dedup(s))
  {
    if s != [] {
      DedupKeepsFirstOrder(s[..|s| - 1]);
      DedupFirstOrderStep(s);
    }
  }

  lemma DedupFirstOrderStep<T>(s: seq<T>)
    requires s != [] && FirstOrdered(s[..|s| - 1], Dedup(s[..|s| - 1]))
    ensures FirstOrdered(s, Dedup(s))
  {
    var p := s[..|s| - 1];
    var x := s[|s| - 1];
    var d := Dedup(p);
    if x in d {
      assert Dedup(s) == d;
      FirstOrderedExtend(p, s, d);
    } else {
      assert Dedup(s) == d + [x];
      assert x !in p;
      assert s[..|p|] == p;
      FirstOrderedExtend(p, s, d);
      FirstIndexAt(s, |p|);
      forall i | 0 <= i < |d| ensures FirstIndex(s, d[i]) < FirstIndex(s, x) {
        FirstIndexOfPrefix(s, |p|, d[i]);
      }
      FirstOrderedSnoc(s, d, x);
    }
  }

  lemma FirstOrderedSnoc<T>(s: seq<T>, d: seq<T>, x: T)
    requires FirstOrdered(s, d) && x in s
    requires forall i :: 0 <= i < |d| ==> FirstIndex(s, d[i]) < FirstIndex(s, x)
    ensures FirstOrdered(s, d + [x])
  {
    var r := d + [x];
    forall i, j | 0 <= i < j < |r| ensures FirstIndex(s, r[i]) < FirstIndex(s, r[j]) {
      assert r[i] == d[i];
      if j < |d| { assert r[j] == d[j]; }
    }
  }

  /** The first occurrence of `s[k]` is at `k` when it does not occur before. */
  lemma FirstIndexAt<T>(s: seq<T>, k: nat)
    requires k < |s| && s[k] !in s[..k]
    ensures FirstIndex(s, s[k]) == k
  {
  }

  /** Order of first occurrences is unchanged by appending to the input. */
  lemma FirstOrderedExtend<T>(p: seq<T>, s: seq<T>, d: seq<T>)
    requires |p| <= |s| && p == s[..|p|] && FirstOrdered(p, d)
    ensures FirstOrdered(s, d)
  {
    forall i | 0 <= i < |d| ensures d[i] in s && FirstIndex(s, d[i]) == FirstIndex(p, d[i]) {
      assert d[i] in s[..|p|];
      FirstIndexOfPrefix(s, |p|, d[i]);
    }
  }

  /** The last step of every "row by row over a concatenation" proof: when
      the whole is a head followed by the rest, and the rest splits at `b`,
      the whole is the head's part followed by `b`'s part. */
  lemma ConsConcat<T>(head: seq<T>, restA: seq<T>, b: seq<T>, whole: seq<T>, wholeA: seq<T>, rest: seq<T>)
    requires whole == head + rest && rest == restA + b && wholeA == head + restA
    ensures whole == wholeA + b
  {
  }

  /** Deduplicating after every page (or every element) gives the same rows as
      deduplicating once at the end: the accumulator's incremental
      `drop_duplicates` loses nothing. */
  lemma {:induction false} DedupIncremental<T>(a: seq<T>, b: seq<T>)
    ensures Dedup(Dedup(a) + b) == Dedup(a + b)
    decreases |b|
  {
    if b != [] {
      var b' := b[..|b| - 1];
      var x := b[|b| - 1];
      DedupIncremental(a, b');
      assert (Dedup(a) + b)[..|Dedup(a) + b| - 1] == Dedup(a) + b';
      assert (a + b)[..|a + b| - 1] == a + b';
    } else {
      assert Dedup(a) + b == Dedup(a);
      assert a + b == a;
      DedupOfDistinct(Dedup(a));
    }
  }

  /** Input without duplicates comes back unchanged. */
  lemma {:induction false} DedupOfDistinct<T>(s: seq<T>)
    requires NoDuplicates(s)
    ensures Dedup(s) == s
  {
    if s != [] {
      var p := s[..|s| - 1];
      DedupOfDistinct(p);
      assert s[|s| - 1] !in p;
      assert p + [s[|s| - 1]] == s;
    }
  }

  /** Deduplication removed no row exactly when the input had no duplicate:
      the signal the paginated crawlers use to stop. */
  lemma {:induction false} DedupLengthUnchanged<T>(s: seq<T>)
    ensures |Dedup(s)| == |s| <==> NoDuplicates(s)
  {
    if s != [] {
      var p := s[..|s| - 1];
      var x := s[|s| - 1];
      DedupLengthUnchanged(p);
      if x !in Dedup(p) && NoDuplicates(p) {
        assert x !in p;
        forall i, j | 0 <= i < j < |s| ensures s[i] != s[j] {
          if j < |s| - 1 {
            assert p[i] == s[i] && p[j] == s[j];
          } else {
            assert p[i] == s[i];
          }
        }
      }
      if NoDuplicates(s) {
        DedupOfDistinct(s);
      }
    }
  }

  /** A deduplicated prefix stays in front: rows accumulated for earlier
      manufacturers or pages are never reordered or dropped. */
  lemma {:induction false} DedupKeepsPrefix<T>(a: seq<T>, b: seq<T>)
    requires NoDuplicates(a)
    ensures |a| <= |Dedup(a + b)| && Dedup(a + b)[..|a|] == a
    decreases |b|
  {
    if b == [] {
      assert a + b == a;
      DedupOfDistinct(a);
    } else {
      var b' := b[..|b| - 1];
      DedupKeepsPrefix(a, b');
      assert (a + b)[..|a + b| - 1] == a + b';
    }
  }

  /** The rows [(A,10), (A,10), (B,5)] deduplicate to [(A,10), (B,5)]. */
  lemma DedupExample<T>(a: T, b: T)
    requires a != b
    ensures Dedup([a, a, b]) == [a, b]
  {
    assert [a, a, b][..2] == [a, a];
    assert [a, a][..1] == [a];
    assert [a][..0] == [];
  }
}
