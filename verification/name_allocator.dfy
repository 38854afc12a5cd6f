/**
 * The export-name allocator: a case-insensitive set of taken names, seeded with
 * reserved words, and the retry loop that appends numeric suffixes 2, 3, ...
 * until a candidate is free. Case-insensitive comparison is modelled by an
 * abstract `fold`: two names clash exactly when their folds are equal.
 */
module NameAllocator {
  import opened Wrappers

  /** The folded forms of some names. */
  function FoldAll(names: seq<string>, fold: string -> string): set<string> {
    set n | n in names :: fold(n)
  }

  /** No two names clash. */
  predicate PairwiseDistinct(names: seq<string>, fold: string -> string) {
    forall i, j :: 0 <= i < j < |names| ==> fold(names[i]) != fold(names[j])
  }

  /** The suffixed candidates 2, 3, ... never clash with one another. */
  ghost predicate SuffixesDistinct(suffixed: nat -> string, fold: string -> string) {
    forall i, j :: 2 <= i < j ==> fold(suffixed(i)) != fold(suffixed(j))
  }

  /**
   * `name` is what the retry loop yields for these candidates: the unsuffixed
   * candidate when it is free, otherwise the suffixed candidate with the least
   * suffix (from 2) that is free.
   */
  ghost predicate IsFirstFree(name: string, first: string, suffixed: nat -> string,
                              taken: set<string>, fold: string -> string)
  {
    && fold(name) !in taken
    && (fold(first) !in taken ==> name == first)
    && (fold(first) in taken ==>
          exists k :: k >= 2 && name == suffixed(k) && forall j :: 2 <= j < k ==> fold(suffixed(j)) in taken)
  }

  /**
   * The `i`-th word is the first to clash: the words before it were added
   * without a clash, and it clashes with a name already taken or with an
   * earlier word.
   */
  ghost predicate FirstClash(words: seq<string>, taken: set<string>, fold: string -> string, i: int) {
    && 0 <= i < |words|
    && PairwiseDistinct(words[..i], fold) && FoldAll(words[..i], fold) !! taken
    && (fold(words[i]) in taken || exists k :: 0 <= k < i && fold(words[k]) == fold(words[i]))
  }

  /**
   * Adds each word to the taken set as `Dictionary.Add` does: a word that is
   * already taken (including one that clashes with an earlier word) throws,
   * which is a failure naming that word here.
   */
  method Seed(taken: set<string>, words: seq<string>, fold: string -> string) returns (r: Result<set<string>, string>)
    ensures r.Success? <==> PairwiseDistinct(words, fold) && FoldAll(words, fold) !! taken
    ensures r.Success? ==> r.value == taken + FoldAll(words, fold)
    ensures r.Failure? ==> exists i :: FirstClash(words, taken, fold, i) && words[i] == r.error
  {
    var t := taken;
    var i := 0;
    while i < |words|
      invariant 0 <= i <= |words|
      invariant PairwiseDistinct(words[..i], fold) && FoldAll(words[..i], fold) !! taken
      invariant t == taken + FoldAll(words[..i], fold)
    {
      if fold(words[i]) in t {
        if fold(words[i]) !in taken {
          var j :| j in words[..i] && fold(j) == fold(words[i]);
          var k :| 0 <= k < i && words[k] == j;
          assert fold(words[k]) == fold(words[i]);
        }
        assert FirstClash(words, taken, fold, i);
        return Failure(words[i]);
      }
      assert words[..i + 1] == words[..i] + [words[i]];
      t := t + {fold(words[i])};
      i := i + 1;
    }
    assert words[..i] == words;
    return Success(t);
  }

  /** The folds of a concatenation are the union of the folds. */
  lemma FoldAllAppend(a: seq<string>, b: seq<string>, fold: string -> string)
    ensures FoldAll(a + b, fold) == FoldAll(a, fold) + FoldAll(b, fold)
  {
    assert forall n :: n in a + b <==> n in a || n in b;
  }

  /** A first clash among some words stays the first clash when more words follow. */
  lemma FirstClashExtend(a: seq<string>, b: seq<string>, fold: string -> string, i: int)
    requires FirstClash(a, {}, fold, i)
    ensures FirstClash(a + b, {}, fold, i)
  {
    assert (a + b)[..i] == a[..i];
    var k :| 0 <= k < i && fold(a[k]) == fold(a[i]);
    assert (a + b)[k] == a[k];
  }

  /**
   * A first clash among words added after the clash-free words `a` (so with
   * the folds of `a` taken) is the first clash of the whole list.
   */
  lemma FirstClashAfter(a: seq<string>, b: seq<string>, fold: string -> string, i: int)
    requires PairwiseDistinct(a, fold) && FirstClash(b, FoldAll(a, fold), fold, i)
    ensures FirstClash(a + b, {}, fold, |a| + i)
  {
    var ab := a + b;
    assert ab[..|a| + i] == a + b[..i];
    PairwiseDistinctAppend(a, b[..i], fold);
    assert ab[|a| + i] == b[i];
    if fold(b[i]) in FoldAll(a, fold) {
      var n :| n in a && fold(n) == fold(b[i]);
      var k :| 0 <= k < |a| && a[k] == n;
      assert ab[k] == n;
    } else {
      var k :| 0 <= k < i && fold(b[k]) == fold(b[i]);
      assert ab[|a| + k] == b[k];
    }
  }

  /** Names of two lists are pairwise distinct exactly when each list is and no name of one clashes with one of the other. */
  lemma PairwiseDistinctAppend(a: seq<string>, b: seq<string>, fold: string -> string)
    ensures PairwiseDistinct(a + b, fold) <==>
      PairwiseDistinct(a, fold) && PairwiseDistinct(b, fold) && FoldAll(a, fold) !! FoldAll(b, fold)
  {
    var ab := a + b;
    if PairwiseDistinct(ab, fold) {
      forall i, j | 0 <= i < j < |a| ensures fold(a[i]) != fold(a[j]) {
        assert a[i] == ab[i] && a[j] == ab[j];
      }
      forall i, j | 0 <= i < j < |b| ensures fold(b[i]) != fold(b[j]) {
        assert b[i] == ab[|a| + i] && b[j] == ab[|a| + j];
      }
      forall i, j | 0 <= i < |a| && 0 <= j < |b| ensures fold(a[i]) != fold(b[j]) {
        assert a[i] == ab[i] && b[j] == ab[|a| + j];
      }
    }
    if PairwiseDistinct(a, fold) && PairwiseDistinct(b, fold) && FoldAll(a, fold) !! FoldAll(b, fold) {
      forall i, j | 0 <= i < j < |ab| ensures fold(ab[i]) != fold(ab[j]) {
        if j < |a| {
          assert ab[i] == a[i] && ab[j] == a[j];
        } else if i >= |a| {
          assert ab[i] == b[i - |a|] && ab[j] == b[j - |a|];
        } else {
          assert ab[i] == a[i] && ab[j] == b[j - |a|];
          assert fold(ab[i]) in FoldAll(a, fold) && fold(ab[j]) in FoldAll(b, fold);
        }
      }
    }
  }

  /** Adding a name adds its fold. */
  lemma FoldAllSnoc(names: seq<string>, name: string, fold: string -> string)
    ensures FoldAll(names + [name], fold) == FoldAll(names, fold) + {fold(name)}
  {
    FoldAllAppend(names, [name], fold);
    assert FoldAll([name], fold) == {fold(name)};
  }

  /**
   * `names[k]` is the first free name for `items[k]` once the reserved words and
   * the names before it are taken: the names the retry loop hands out, in order.
   */
  ghost predicate AllocatedInOrder<T>(items: seq<T>, names: seq<string>, first: T -> string,
                                      suffixed: T -> nat -> string, reserved: seq<string>,
                                      fold: string -> string)
  {
    && |names| == |items|
    && forall k :: 0 <= k < |items| ==> NamedAt(items, names, k, first, suffixed, reserved, fold)
  }

  /** The `k`-th name is the first free one for the `k`-th item. */
  ghost predicate NamedAt<T>(items: seq<T>, names: seq<string>, k: int, first: T -> string,
                             suffixed: T -> nat -> string, reserved: seq<string>, fold: string -> string)
  {
    && 0 <= k < |items|
    && k < |names|
    && IsFirstFree(names[k], first(items[k]), suffixed(items[k]), FoldAll(reserved + names[..k], fold), fold)
  }

  /** Handing out one more first-free name extends an in-order allocation. */
  lemma AllocatedInOrderAppend<T>(items: seq<T>, names: seq<string>, first: T -> string,
                                  suffixed: T -> nat -> string, reserved: seq<string>,
                                  fold: string -> string, item: T, name: string)
    requires AllocatedInOrder(items, names, first, suffixed, reserved, fold)
    requires IsFirstFree(name, first(item), suffixed(item), FoldAll(reserved + names, fold), fold)
    ensures AllocatedInOrder(items + [item], names + [name], first, suffixed, reserved, fold)
  {
    var items', names' := items + [item], names + [name];
    forall k | 0 <= k < |items'|
      ensures NamedAt(items', names', k, first, suffixed, reserved, fold)
    {
      if k < |items| {
        assert NamedAt(items, names, k, first, suffixed, reserved, fold);
        assert names'[..k] == names[..k] && names'[k] == names[k] && items'[k] == items[k];
      } else {
        assert names'[..k] == names;
      }
    }
  }

  /** Names handed out in order never clash with the reserved words or with each other. */
  lemma {:induction false} AllocatedInOrderDistinct<T>(items: seq<T>, names: seq<string>, first: T -> string,
                                                      suffixed: T -> nat -> string, reserved: seq<string>,
                                                      fold: string -> string)
    requires PairwiseDistinct(reserved, fold)
    requires AllocatedInOrder(items, names, first, suffixed, reserved, fold)
    ensures PairwiseDistinct(reserved + names, fold)
    decreases |items|
  {
    if items != [] {
      var n := |items| - 1;
      assert names[..n][..n] == names[..n];
      forall k | 0 <= k < n
        ensures NamedAt(items[..n], names[..n], k, first, suffixed, reserved, fold)
      {
        assert NamedAt(items, names, k, first, suffixed, reserved, fold);
        assert names[..n][..k] == names[..k] && names[..n][k] == names[k] && items[..n][k] == items[k];
      }
      AllocatedInOrderDistinct(items[..n], names[..n], first, suffixed, reserved, fold);
      var all := reserved + names;
      assert NamedAt(items, names, n, first, suffixed, reserved, fold);
      forall i, j | 0 <= i < j < |all| ensures fold(all[i]) != fold(all[j]) {
        if j < |all| - 1 {
          assert all[i] == (reserved + names[..n])[i] && all[j] == (reserved + names[..n])[j];
        } else {
          assert all[j] == names[n];
          assert all[i] in reserved + names[..n];
        }
      }
    }
  }

  /**
   * The retry loop: try `first`; while the candidate is taken, try
   * `suffixed(2)`, `suffixed(3)`, ... The loop ends because distinct suffixes
   * give distinct candidates, so at most |taken| + 1 candidates are taken.
   * What it yields is the first free candidate in that order.
   */
  method Allocate(first: string, suffixed: nat -> string, taken: set<string>, fold: string -> string)
    returns (name: string, suffix: Option<nat>)
    requires SuffixesDistinct(suffixed, fold)
    ensures fold(name) !in taken
    ensures suffix.None? <==> fold(first) !in taken
    ensures suffix.None? ==> name == first
    ensures suffix.Some? ==> suffix.value >= 2 && name == suffixed(suffix.value)
    ensures suffix.Some? ==> forall j :: 2 <= j < suffix.value ==> fold(suffixed(j)) in taken
    ensures IsFirstFree(name, first, suffixed, taken, fold)
  {
    name := first;
    var index := 2;
    var retrying := false;
    while fold(name) in taken
      invariant 2 <= index <= |taken| + 3
      invariant !retrying ==> name == first && index == 2
      invariant retrying ==> index >= 3 && fold(first) in taken && name == suffixed(index - 1)
      invariant forall j :: 2 <= j < index - 1 ==> fold(suffixed(j)) in taken
      decreases |taken| + 3 - index + (if retrying then 0 else 1)
    {
      if retrying {
        TakenBound(suffixed, fold, taken, index);
      }
      name := suffixed(index);
      retrying := true;
      index := index + 1;
    }
    suffix := if retrying then Some(index - 1) else None;
  }

  /**
   * Distinct suffixes give distinct folds, so when suffixes 2 .. k - 1 are all
   * taken there are at least k - 2 taken names.
   */
  lemma {:induction false} TakenBound(suffixed: nat -> string, fold: string -> string, taken: set<string>, k: nat)
    requires SuffixesDistinct(suffixed, fold) && k >= 2
    requires forall j :: 2 <= j < k ==> fold(suffixed(j)) in taken
    ensures k - 2 <= |taken|
    decreases k
  {
    if k > 2 {
      var x := fold(suffixed(k - 1));
      forall j | 2 <= j < k - 1 ensures fold(suffixed(j)) in taken - {x} {
        assert fold(suffixed(j)) != x;
      }
      TakenBound(suffixed, fold, taken - {x}, k - 1);
      assert |taken - {x}| == |taken| - 1;
    }
  }
}
