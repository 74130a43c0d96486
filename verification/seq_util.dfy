/** Sequence helpers: duplicate-freedom and first-occurrence deduplication. */
module SeqUtil {

  predicate NoDup<T(==)>(s: seq<T>) {
    forall i, j :: 0 <= i < j < |s| ==> s[i] != s[j]
  }

  /** `a` and `b` contain the same elements, ignoring order and multiplicity. */
  predicate SameElements<T(==)>(a: seq<T>, b: seq<T>) {
    (forall i :: 0 <= i < |a| ==> a[i] in b) && (forall j :: 0 <= j < |b| ==> b[j] in a)
  }

  /** The position of the first occurrence of `x` in `s`. */
  function FirstIndex<T(==)>(s: seq<T>, x: T): (k: nat)
    requires x in s
    ensures k < |s| && s[k] == x && x !in s[..k]
  {
    if s[0] == x then 0 else 1 + FirstIndex(s[1..], x)
  }

  /** Every element of `r` occurs in `s`, and `r` lists them in the order of their first occurrence in `s`. */
  predicate InFirstOccurrenceOrder<T(==)>(s: seq<T>, r: seq<T>) {
    forall i, j :: 0 <= i < j < |r| ==> r[i] in s && r[j] in s && FirstIndex(s, r[i]) < FirstIndex(s, r[j])
  }

  lemma {:induction false} FirstIndexUnique<T>(s: seq<T>, x: T, k: nat)
    requires k < |s| && s[k] == x && x !in s[..k]
    ensures FirstIndex(s, x) == k
  {
    if k > 0 {
      assert s[0] == s[..k][0];
      assert s[1..][k - 1] == x;
      assert s[1..][..k - 1] == s[1..k];
      assert forall m :: 0 <= m < k - 1 ==> s[1..k][m] == s[..k][m + 1];
      FirstIndexUnique(s[1..], x, k - 1);
    }
  }

  lemma FirstIndexOfPrefix<T>(s: seq<T>, n: nat, x: T)
    requires n <= |s| && x in s[..n]
    ensures x in s && FirstIndex(s, x) == FirstIndex(s[..n], x)
  {
    var k := FirstIndex(s[..n], x);
    assert s[..n][..k] == s[..k];
    FirstIndexUnique(s, x, k);
  }

  /**
   * The elements of `s` in the order of their first occurrence, each once:
   * the last element is kept exactly when it did not occur before.
   */
  function FirstOccurrences<T(==)>(s: seq<T>): (r: seq<T>)
    ensures NoDup(r)
    ensures SameElements(r, s)
    ensures |r| <= |s|
  {
    if |s| == 0 then []
    else
      var init := s[..|s| - 1];
      var last := s[|s| - 1];
      var p := FirstOccurrences(init);
      assert s == init + [last];
      if last in init then p else p + [last]
  }

  /** The deduplication lists the elements in the order of their first occurrence. */
  lemma {:induction false} FirstOccurrencesOrder<T>(s: seq<T>)
    ensures InFirstOccurrenceOrder(s, FirstOccurrences(s))
  {
    if |s| > 0 {
      var init := s[..|s| - 1];
      var last := s[|s| - 1];
      var p := FirstOccurrences(init);
      FirstOccurrencesOrder(init);
      assert s[..|s| - 1] == init;
      PrefixFirstIndices(s, p, |s| - 1);
      if last !in init {
        FirstIndexUnique(s, last, |s| - 1);
        OrderWithNewLast(s, p);
      }
    }
  }

  /** Appending the last element of `s`, new to the rest, to an ordered list of earlier elements keeps the order. */
  lemma OrderWithNewLast<T>(s: seq<T>, p: seq<T>)
    requires |s| > 0 && s[|s| - 1] in s && FirstIndex(s, s[|s| - 1]) == |s| - 1
    requires forall i :: 0 <= i < |p| ==> p[i] in s && FirstIndex(s, p[i]) < |s| - 1
    requires InFirstOccurrenceOrder(s, p)
    ensures InFirstOccurrenceOrder(s, p + [s[|s| - 1]])
  {
    var r := p + [s[|s| - 1]];
    forall i, j | 0 <= i < j < |r|
      ensures r[i] in s && r[j] in s && FirstIndex(s, r[i]) < FirstIndex(s, r[j])
    {
      if j == |r| - 1 {
        assert r[i] == p[i];
      } else {
        assert r[i] == p[i] && r[j] == p[j];
      }
    }
  }

  lemma PrefixFirstIndices<T>(s: seq<T>, p: seq<T>, n: nat)
    requires n <= |s|
    requires SameElements(p, s[..n])
    requires InFirstOccurrenceOrder(s[..n], p)
    ensures forall i :: 0 <= i < |p| ==> p[i] in s && FirstIndex(s, p[i]) == FirstIndex(s[..n], p[i]) < n
    ensures InFirstOccurrenceOrder(s, p)
  {
    forall i | 0 <= i < |p|
      ensures p[i] in s && FirstIndex(s, p[i]) == FirstIndex(s[..n], p[i]) < n
    {
      FirstIndexOfPrefix(s, n, p[i]);
    }
  }

  /** A duplicate-free sequence is its own first-occurrence deduplication. */
  lemma {:induction false} FirstOccurrencesOfNoDup<T>(s: seq<T>)
    requires NoDup(s)
    ensures FirstOccurrences(s) == s
  {
    if |s| > 0 {
      var init := s[..|s| - 1];
      assert NoDup(init);
      FirstOccurrencesOfNoDup(init);
      assert forall k | 0 <= k < |init| :: init[k] == s[k] != s[|s| - 1];
      assert s[|s| - 1] !in init;
      assert s == init + [s[|s| - 1]];
    }
  }

  /** Deduplication is idempotent. */
  lemma FirstOccurrencesIdempotent<T>(s: seq<T>)
    ensures FirstOccurrences(FirstOccurrences(s)) == FirstOccurrences(s)
  {
    FirstOccurrencesOfNoDup(FirstOccurrences(s));
  }

  /** One more element: the deduplication of a prefix grows by that element exactly when it is new. */
  lemma FirstOccurrencesStep<T>(s: seq<T>, i: nat)
    requires i < |s|
    ensures FirstOccurrences(s[..i + 1]) ==
      if s[i] in s[..i] then FirstOccurrences(s[..i]) else FirstOccurrences(s[..i]) + [s[i]]
  {
    var next := s[..i + 1];
    assert next[..i] == s[..i] && next[i] == s[i];
  }

  /** One iteration of the seen-set loop keeps the seen-set invariant. */
  lemma SeenSetStep<T>(s: seq<T>, i: nat, seen: set<T>)
    requires i < |s|
    requires forall x :: x in seen <==> x in s[..i]
    ensures forall x :: x in seen + {s[i]} <==> x in s[..i + 1]
  {
    assert s[..i + 1] == s[..i] + [s[i]];
  }

  /**
   * The loop the sources use (a seen-set and an append-only result), which computes
   * the first-occurrence deduplication.
   */
  method RemoveDuplicates<T(==)>(s: seq<T>) returns (r: seq<T>)
    ensures r == FirstOccurrences(s)
    ensures NoDup(r) && SameElements(r, s)
  {
    r := [];
    var seen: set<T> := {};
    var i := 0;
    while i < |s|
      invariant 0 <= i <= |s|
      invariant r == FirstOccurrences(s[..i])
      invariant forall x :: x in seen <==> x in s[..i]
    {
      FirstOccurrencesStep(s, i);
      SeenSetStep(s, i, seen);
      if s[i] !in seen {
        r := r + [s[i]];
      }
      seen := seen + {s[i]};
      i := i + 1;
    }
    assert s[..i] == s;
  }
}
