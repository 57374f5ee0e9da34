/**
 * The "group then rank" step shared by summarizeReplyCount and
 * summarizeHashtagCount (summarize.ts): counts are kept in a list of
 * {key, count} entries found by a linear search, then the list is sorted by
 * count, largest first, ties broken by the key in ascending string order.
 */
module Ranking {
  import opened SeqOps

  /** `{screen_name, count}` or `{hashtag, count}`. */
  datatype RankedCount = RankedCount(key: string, count: int)

  // ---------------------------------------------------------------------------
  // JavaScript's `<` on strings: lexicographic on characters, a proper prefix first.

  predicate StrLess(a: string, b: string)
  {
    if |a| == 0 then |b| > 0
    else if |b| == 0 then false
    else if a[0] != b[0] then a[0] < b[0]
    else StrLess(a[1..], b[1..])
  }

  lemma {:induction false} StrLessIrreflexive(a: string)
    ensures !StrLess(a, a)
  {
    if |a| > 0 {
      StrLessIrreflexive(a[1..]);
    }
  }

  lemma {:induction false} StrLessAsymmetric(a: string, b: string)
    ensures StrLess(a, b) ==> !StrLess(b, a)
  {
    if |a| > 0 && |b| > 0 && a[0] == b[0] {
      StrLessAsymmetric(a[1..], b[1..]);
    }
  }

  lemma {:induction false} StrLessTransitive(a: string, b: string, c: string)
    ensures StrLess(a, b) && StrLess(b, c) ==> StrLess(a, c)
  {
    if |a| > 0 && |b| > 0 && |c| > 0 && a[0] == b[0] && b[0] == c[0] {
      StrLessTransitive(a[1..], b[1..], c[1..]);
    }
  }

  /** Two different strings are always ordered one way or the other. */
  lemma {:induction false} StrLessTotal(a: string, b: string)
    ensures a != b ==> StrLess(a, b) || StrLess(b, a)
  {
    if |a| > 0 && |b| > 0 && a[0] == b[0] {
      StrLessTotal(a[1..], b[1..]);
      if a[1..] == b[1..] {
        assert a == [a[0]] + a[1..] && b == [b[0]] + b[1..];
      }
    }
  }

  // ---------------------------------------------------------------------------
  // The comparator passed to `result.sort`.

  /** The comparator returns a negative number: `a` sorts before `b`. */
  predicate Before(a: RankedCount, b: RankedCount)
  {
    a.count > b.count || (a.count == b.count && StrLess(a.key, b.key))
  }

  lemma BeforeAsymmetric(a: RankedCount, b: RankedCount)
    ensures Before(a, b) ==> !Before(b, a)
  {
    StrLessAsymmetric(a.key, b.key);
  }

  /** "Not after" is transitive, which is what insertion sort relies on. */
  lemma NotBeforeTransitive(a: RankedCount, b: RankedCount, c: RankedCount)
    ensures !Before(b, a) && !Before(c, b) ==> !Before(c, a)
  {
    StrLessTotal(a.key, b.key);
    StrLessTotal(b.key, c.key);
    StrLessTransitive(a.key, b.key, c.key);
    StrLessTransitive(c.key, b.key, a.key);
    StrLessAsymmetric(a.key, c.key);
    StrLessIrreflexive(a.key);
  }

  /** No entry is followed by one that the comparator puts before it. */
  ghost predicate Ranked(s: seq<RankedCount>)
  {
    forall i, j :: 0 <= i < j < |s| ==> !Before(s[j], s[i])
  }

  /** Count descending, then key ascending, with no ties at all. */
  ghost predicate StrictlyRanked(s: seq<RankedCount>)
  {
    forall i, j :: 0 <= i < j < |s| ==> Before(s[i], s[j])
  }

  ghost predicate DistinctKeys(s: seq<RankedCount>)
  {
    forall i, j :: 0 <= i < j < |s| ==> s[i].key != s[j].key
  }

  lemma RankedDistinctIsStrict(s: seq<RankedCount>)
    requires Ranked(s) && DistinctKeys(s)
    ensures StrictlyRanked(s)
  {
    forall i, j | 0 <= i < j < |s|
      ensures Before(s[i], s[j])
    {
      StrLessTotal(s[i].key, s[j].key);
    }
  }

  /**
   * Two strictly ranked orderings of the same entries are the same list: with
   * distinct keys any correct sort gives the one result insertion sort gives.
   */
  lemma {:induction false} StrictRankingUnique(a: seq<RankedCount>, b: seq<RankedCount>)
    requires StrictlyRanked(a) && StrictlyRanked(b)
    requires multiset(a) == multiset(b)
    ensures a == b
  {
    assert |a| == |multiset(a)| == |multiset(b)| == |b|;
    if a != [] {
      FirstsAgree(a, b);
      TailsAgree(a, b);
      StrictRankingUnique(a[1..], b[1..]);
      assert a == [a[0]] + a[1..] && b == [b[0]] + b[1..];
    }
  }

  /** The first entry of a strict ranking is the one the comparator puts before all the others. */
  lemma FirstsAgree(a: seq<RankedCount>, b: seq<RankedCount>)
    requires StrictlyRanked(a) && StrictlyRanked(b)
    requires multiset(a) == multiset(b) && a != [] && b != []
    ensures a[0] == b[0]
  {
    assert a[0] in multiset(b) && b[0] in multiset(a);
    var i :| 0 <= i < |b| && b[i] == a[0];
    var j :| 0 <= j < |a| && a[j] == b[0];
    assert i == 0 || Before(b[0], b[i]);
    assert j == 0 || Before(a[0], a[j]);
    BeforeAsymmetric(a[0], b[0]);
  }

  /** Taking the same first entry off two strict rankings of the same entries leaves strict rankings of the same entries. */
  lemma TailsAgree(a: seq<RankedCount>, b: seq<RankedCount>)
    requires StrictlyRanked(a) && StrictlyRanked(b)
    requires multiset(a) == multiset(b) && a != [] && b != [] && a[0] == b[0]
    ensures StrictlyRanked(a[1..]) && StrictlyRanked(b[1..])
    ensures multiset(a[1..]) == multiset(b[1..])
  {
    assert a == [a[0]] + a[1..] && b == [b[0]] + b[1..];
    assert multiset(a) == multiset{a[0]} + multiset(a[1..]);
    assert multiset(b) == multiset{a[0]} + multiset(b[1..]);
    assert multiset(a[1..]) == multiset(a) - multiset{a[0]};
    StrictlyRankedTail(a);
    StrictlyRankedTail(b);
  }

  lemma StrictlyRankedTail(s: seq<RankedCount>)
    requires StrictlyRanked(s) && s != []
    ensures StrictlyRanked(s[1..])
  {
    forall i, j | 0 <= i < j < |s| - 1
      ensures Before(s[1..][i], s[1..][j])
    {
      assert s[1..][i] == s[i + 1] && s[1..][j] == s[j + 1];
    }
  }

  // ---------------------------------------------------------------------------
  // What the entries count.

  /** The sum of the counts of a list of entries. */
  function Sum(s: seq<RankedCount>): int
  {
    if s == [] then 0 else s[0].count + Sum(s[1..])
  }

  /**
   * `groups` tallies `keys`: one entry per distinct key, and each entry's count
   * is the number of times its key occurs (so no count is zero).
   */
  ghost predicate Tallies(groups: seq<RankedCount>, keys: seq<string>)
  {
    && DistinctKeys(groups)
    && (forall i :: 0 <= i < |groups| ==> 1 <= groups[i].count == Occurrences(keys, groups[i].key))
    && (forall k :: k in keys ==> exists i :: 0 <= i < |groups| && groups[i].key == k)
  }

  lemma {:induction false} SumAppend(s: seq<RankedCount>, e: RankedCount)
    ensures Sum(s + [e]) == Sum(s) + e.count
  {
    if s != [] {
      assert (s + [e])[1..] == s[1..] + [e];
      SumAppend(s[1..], e);
    }
  }

  lemma {:induction false} SumUpdate(s: seq<RankedCount>, k: int, e: RankedCount)
    requires 0 <= k < |s|
    ensures Sum(s[k := e]) == Sum(s) - s[k].count + e.count
  {
    if k > 0 {
      assert s[k := e][1..] == s[1..][k - 1 := e];
      SumUpdate(s[1..], k - 1, e);
    }
  }

  lemma {:induction false} SumConcat(a: seq<RankedCount>, b: seq<RankedCount>)
    ensures Sum(a + b) == Sum(a) + Sum(b)
  {
    if a == [] {
      assert a + b == b;
    } else {
      assert (a + b)[1..] == a[1..] + b;
      SumConcat(a[1..], b);
    }
  }

  /** Taking entry `i` out of a list takes its count out of the sum. */
  lemma SumRemove(b: seq<RankedCount>, i: int)
    requires 0 <= i < |b|
    ensures Sum(b) == b[i].count + Sum(b[..i] + b[i + 1..])
  {
    assert b == b[..i] + ([b[i]] + b[i + 1..]);
    assert ([b[i]] + b[i + 1..])[1..] == b[i + 1..];
    SumConcat(b[..i], [b[i]] + b[i + 1..]);
    SumConcat(b[..i], b[i + 1..]);
  }

  lemma MultisetRemove(b: seq<RankedCount>, i: int)
    requires 0 <= i < |b|
    ensures multiset(b[..i] + b[i + 1..]) == multiset(b) - multiset{b[i]}
  {
    assert b == b[..i] + [b[i]] + b[i + 1..];
  }

  /** Reordering a list of entries does not change their sum. */
  lemma {:induction false} SumPermutation(a: seq<RankedCount>, b: seq<RankedCount>)
    requires multiset(a) == multiset(b)
    ensures Sum(a) == Sum(b)
    decreases |a|
  {
    if a == [] {
      assert |b| == |multiset(b)|;
    } else {
      var rest := a[1..];
      assert a == [a[0]] + rest;
      assert multiset(a) == multiset{a[0]} + multiset(rest);
      assert a[0] in b by {
        assert a[0] in multiset(b);
      }
      var i :| 0 <= i < |b| && b[i] == a[0];
      var others := b[..i] + b[i + 1..];
      MultisetRemove(b, i);
      assert multiset(rest) == multiset(others);
      SumPermutation(rest, others);
      SumRemove(b, i);
    }
  }

  /** A list without duplicate keys holds no entry twice. */
  lemma {:induction false} DistinctKeysAtMostOnce(s: seq<RankedCount>, e: RankedCount)
    requires DistinctKeys(s)
    ensures multiset(s)[e] <= 1
  {
    if s != [] {
      assert s == [s[0]] + s[1..];
      DistinctKeysAtMostOnce(s[1..], e);
      if s[0] == e {
        assert e !in s[1..];
      }
    }
  }

  lemma RepeatedTwice(s: seq<RankedCount>, i: int, j: int)
    requires 0 <= i < j < |s| && s[i] == s[j]
    ensures multiset(s)[s[i]] >= 2
  {
    assert s == s[..j] + [s[j]] + s[j + 1..];
    assert s[i] in s[..j];
  }

  /** Reordering entries keeps them a tally of the same keys, with the same sum. */
  lemma TalliesPermutation(groups: seq<RankedCount>, ranked: seq<RankedCount>, keys: seq<string>)
    requires Tallies(groups, keys)
    requires multiset(ranked) == multiset(groups)
    ensures Tallies(ranked, keys)
    ensures Sum(ranked) == Sum(groups)
  {
    SumPermutation(ranked, groups);
    forall i | 0 <= i < |ranked|
      ensures 1 <= ranked[i].count == Occurrences(keys, ranked[i].key)
    {
      assert ranked[i] in multiset(groups);
    }
    forall i, j | 0 <= i < j < |ranked|
      ensures ranked[i].key != ranked[j].key
    {
      if ranked[i].key == ranked[j].key {
        assert ranked[i] == ranked[j];
        RepeatedTwice(ranked, i, j);
        DistinctKeysAtMostOnce(groups, ranked[i]);
        assert false;
      }
    }
    forall k | k in keys
      ensures exists j :: 0 <= j < |ranked| && ranked[j].key == k
    {
      var i :| 0 <= i < |groups| && groups[i].key == k;
      assert groups[i] in multiset(ranked);
    }
  }

  // ---------------------------------------------------------------------------
  // The grouping loop's step and the sort.

  /** The first entry for `key`, as its index, or -1 when there is none. */
  method FindKey(groups: seq<RankedCount>, key: string) returns (k: int)
    ensures -1 <= k < |groups|
    ensures k >= 0 ==> groups[k].key == key && forall j :: 0 <= j < k ==> groups[j].key != key
    ensures k == -1 ==> forall j :: 0 <= j < |groups| ==> groups[j].key != key
  {
    k := 0;
    while k < |groups|
      invariant 0 <= k <= |groups|
      invariant forall j :: 0 <= j < k ==> groups[j].key != key
    {
      if groups[k].key == key {
        return;
      }
      k := k + 1;
    }
    k := -1;
  }

  /**
   * One key seen: find its entry, or push `{key, count: 0}`, then `count++`.
   * A tally of `keys` becomes a tally of `keys + [key]` whose sum is one more.
   */
  method Bump(groups: seq<RankedCount>, key: string, ghost keys: seq<string>) returns (next: seq<RankedCount>)
    requires Tallies(groups, keys)
    ensures Tallies(next, keys + [key])
    ensures Sum(next) == Sum(groups) + 1
  {
    var k := FindKey(groups, key);
    if k == -1 {
      next := groups + [RankedCount(key, 1)];
      TalliesPush(groups, keys, key);
      SumAppend(groups, RankedCount(key, 1));
    } else {
      next := groups[k := RankedCount(key, groups[k].count + 1)];
      TalliesIncrement(groups, keys, k);
      SumUpdate(groups, k, RankedCount(key, groups[k].count + 1));
    }
  }

  /** A key with no entry yet gets a new entry at count 1. */
  lemma TalliesPush(groups: seq<RankedCount>, keys: seq<string>, key: string)
    requires Tallies(groups, keys)
    requires forall j :: 0 <= j < |groups| ==> groups[j].key != key
    ensures Tallies(groups + [RankedCount(key, 1)], keys + [key])
  {
    var next := groups + [RankedCount(key, 1)];
    assert key !in keys;
    forall i | 0 <= i < |next|
      ensures 1 <= next[i].count == Occurrences(keys + [key], next[i].key)
    {
      OccurrencesAppend(keys, key, next[i].key);
    }
    forall k' | k' in keys + [key]
      ensures exists j :: 0 <= j < |next| && next[j].key == k'
    {
      if k' == key {
        assert next[|groups|].key == key;
      } else {
        assert k' in keys;
        var j :| 0 <= j < |groups| && groups[j].key == k';
        assert next[j].key == k';
      }
    }
  }

  /** A key that has entry `k` gets that entry's count raised by one. */
  lemma TalliesIncrement(groups: seq<RankedCount>, keys: seq<string>, k: int)
    requires Tallies(groups, keys)
    requires 0 <= k < |groups|
    ensures Tallies(groups[k := RankedCount(groups[k].key, groups[k].count + 1)], keys + [groups[k].key])
  {
    var key := groups[k].key;
    var next := groups[k := RankedCount(key, groups[k].count + 1)];
    forall i | 0 <= i < |next|
      ensures 1 <= next[i].count == Occurrences(keys + [key], next[i].key)
    {
      OccurrencesAppend(keys, key, next[i].key);
    }
    forall k' | k' in keys + [key]
      ensures exists j :: 0 <= j < |next| && next[j].key == k'
    {
      if k' == key {
        assert next[k].key == key;
      } else {
        assert k' in keys;
        var j :| 0 <= j < |groups| && groups[j].key == k';
        assert next[j].key == k';
      }
    }
  }

  /** `result.sort(comparator)`: an insertion sort in place. */
  method SortInPlace(a: array<RankedCount>)
    modifies a
    ensures Ranked(a[..])
    ensures multiset(a[..]) == multiset(old(a[..]))
  {
    for i := 0 to a.Length
      invariant Ranked(a[..i])
      invariant multiset(a[..]) == multiset(old(a[..]))
    {
      InsertNext(a, i);
    }
    assert a[..a.Length] == a[..];
  }

  /** Entries `0..hi` of `a` are in comparator order, leaving out position `skip`. */
  ghost predicate RankedExcept(a: array<RankedCount>, hi: int, skip: int)
    reads a
  {
    forall p, q :: 0 <= p < q <= hi && q < a.Length && p != skip && q != skip ==> !Before(a[q], a[p])
  }

  method Swap(a: array<RankedCount>, i: int, j: int)
    requires 0 <= i < j < a.Length
    modifies a
    ensures a[..] == old(a[..])[i := old(a[j])][j := old(a[i])]
    ensures multiset(a[..]) == multiset(old(a[..]))
  {
    a[i], a[j] := a[j], a[i];
  }

  /** Moves `a[i]` left past every entry the comparator puts after it. */
  method InsertNext(a: array<RankedCount>, i: int)
    requires 0 <= i < a.Length
    requires Ranked(a[..i])
    modifies a
    ensures Ranked(a[..i + 1])
    ensures multiset(a[..]) == multiset(old(a[..]))
    ensures a[i + 1..] == old(a[i + 1..])
  {
    var j := i;
    assert RankedExcept(a, i, i) by {
      forall p, q | 0 <= p < q <= i && p != i && q != i
        ensures !Before(a[q], a[p])
      {
        assert a[..i][p] == a[p] && a[..i][q] == a[q];
      }
    }
    while j > 0 && Before(a[j], a[j - 1])
      invariant 0 <= j <= i
      invariant multiset(a[..]) == multiset(old(a[..]))
      invariant a[i + 1..] == old(a[i + 1..])
      invariant RankedExcept(a, i, j)
      invariant forall q :: j < q <= i ==> !Before(a[q], a[j])
    {
      ghost var b := a[..];
      BeforeAsymmetric(a[j], a[j - 1]);
      Swap(a, j - 1, j);
      assert forall k :: 0 <= k < a.Length ==> a[k] == a[..][k];
      assert a[j - 1] == b[j] && a[j] == b[j - 1];
      assert forall k :: 0 <= k < a.Length && k != j - 1 && k != j ==> a[k] == b[k];
      j := j - 1;
    }
    forall p | 0 <= p < j
      ensures !Before(a[j], a[p])
    {
      NotBeforeTransitive(a[p], a[j - 1], a[j]);
    }
    ghost var done := a[..i + 1];
    forall p, q | 0 <= p < q < |done|
      ensures !Before(done[q], done[p])
    {
      assert done[q] == a[q] && done[p] == a[p];
    }
  }

  /** Sorts a copy of the entries: the same entries, in the comparator's order. */
  method Rank(groups: seq<RankedCount>) returns (ranked: seq<RankedCount>)
    ensures multiset(ranked) == multiset(groups)
    ensures Ranked(ranked)
  {
    var a := new RankedCount[|groups|](i requires 0 <= i < |groups| => groups[i]);
    assert a[..] == groups;
    SortInPlace(a);
    ranked := a[..];
  }
}
