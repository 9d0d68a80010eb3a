/** The sort at the end of lws_wifi_scan_insert_trim() (`plugins/protocol_esp32_lws_scan.c`), for any
    way of ranking entries: the worst entry left on the old list goes to the head of the new one, until
    the old list is empty.  The search for the worst starts from rank 0, so an entry ranked above 0 is
    never picked. */
module SelectionSort {
  import opened Sequences

  // ----- what sorting means -----

  ghost predicate BestFirst<T(!new)>(rank: T -> int, s: seq<T>) {
    forall i, j :: 0 <= i < j < |s| ==> rank(s[i]) >= rank(s[j])
  }

  /** The entries of one rank, in the order they come in */
  function Ranked<T>(rank: T -> int, s: seq<T>, r: int): (sub: seq<T>) {
    if s == [] then []
    else (if rank(s[0]) == r then [s[0]] else []) + Ranked(rank, s[1..], r)
  }

  lemma {:induction false} RankedAppend<T>(rank: T -> int, a: seq<T>, b: seq<T>, r: int)
    ensures Ranked(rank, a + b, r) == Ranked(rank, a, r) + Ranked(rank, b, r)
  {
    if a == [] {
      assert a + b == b;
    } else {
      assert (a + b)[1..] == a[1..] + b;
      RankedAppend(rank, a[1..], b, r);
      Assoc(if rank(a[0]) == r then [a[0]] else [], Ranked(rank, a[1..], r), Ranked(rank, b, r));
    }
  }

  lemma {:induction false} RankedIsEmpty<T>(rank: T -> int, s: seq<T>, r: int)
    requires forall i :: 0 <= i < |s| ==> rank(s[i]) != r
    ensures Ranked(rank, s, r) == []
  {
    if s != [] {
      RankedIsEmpty(rank, s[1..], r);
    }
  }

  lemma {:induction false} RankedMember<T>(rank: T -> int, s: seq<T>, i: nat)
    requires i < |s|
    ensures s[i] in Ranked(rank, s, rank(s[i]))
  {
    if i > 0 {
      RankedMember(rank, s[1..], i - 1);
      assert s[1..][i - 1] == s[i];
    }
  }

  lemma {:induction false} RankedSubset<T>(rank: T -> int, s: seq<T>, r: int, x: T)
    requires x in Ranked(rank, s, r)
    ensures x in s && rank(x) == r
  {
    if x in Ranked(rank, s[1..], r) {
      RankedSubset(rank, s[1..], r, x);
    }
  }

  /** `a` has the same entries as `b`, and those of equal rank in the same order. */
  ghost predicate StablePermutation<T(!new)>(rank: T -> int, a: seq<T>, b: seq<T>) {
    forall r :: Ranked(rank, a, r) == Ranked(rank, b, r)
  }

  lemma {:induction false} StablePermutationKeepsCounts<T(!new)>(rank: T -> int, a: seq<T>, b: seq<T>)
    requires StablePermutation(rank, a, b)
    ensures multiset(a) == multiset(b)
  {
    forall x: T ensures multiset(a)[x] == multiset(b)[x] {
      CountInRank(rank, a, x);
      CountInRank(rank, b, x);
      assert Ranked(rank, a, rank(x)) == Ranked(rank, b, rank(x));
    }
  }

  lemma {:induction false} CountInRank<T>(rank: T -> int, s: seq<T>, x: T)
    ensures multiset(s)[x] == multiset(Ranked(rank, s, rank(x)))[x]
  {
    if s != [] {
      CountInRank(rank, s[1..], x);
      assert s == [s[0]] + s[1..];
      var head := if rank(s[0]) == rank(x) then [s[0]] else [];
      assert multiset(s) == multiset([s[0]]) + multiset(s[1..]);
      assert Ranked(rank, s, rank(x)) == head + Ranked(rank, s[1..], rank(x));
    }
  }

  /** There is only one way to sort stably. */
  lemma {:induction false} StableSortIsUnique<T(!new)>(rank: T -> int, a: seq<T>, b: seq<T>)
    requires BestFirst(rank, a) && BestFirst(rank, b) && StablePermutation(rank, a, b)
    ensures a == b
  {
    if a != [] {
      RankedMember(rank, a, 0);
      RankedSubset(rank, b, rank(a[0]), a[0]);
      RankedMember(rank, b, 0);
      RankedSubset(rank, a, rank(b[0]), b[0]);
      var r := rank(a[0]);
      assert rank(b[0]) == r;
      assert Ranked(rank, a, r)[0] == a[0] && Ranked(rank, b, r)[0] == b[0];
      forall q ensures Ranked(rank, a[1..], q) == Ranked(rank, b[1..], q) {
        TailRanked(rank, a, q);
        TailRanked(rank, b, q);
      }
      StableSortIsUnique(rank, a[1..], b[1..]);
    }
  }

  lemma TailRanked<T>(rank: T -> int, s: seq<T>, r: int)
    requires s != []
    ensures var sub := Ranked(rank, s, r);
            Ranked(rank, s[1..], r) == if rank(s[0]) == r then sub[1..] else sub
  {
  }

  // ----- a reference sort -----

  function InsertInto<T>(rank: T -> int, x: T, sorted: seq<T>): (s: seq<T>) {
    if sorted == [] || rank(x) >= rank(sorted[0]) then [x] + sorted
    else [sorted[0]] + InsertInto(rank, x, sorted[1..])
  }

  function Sort<T>(rank: T -> int, s: seq<T>): (sorted: seq<T>) {
    if s == [] then [] else InsertInto(rank, s[0], Sort(rank, s[1..]))
  }

  /** Entries of different rank may change places. */
  lemma ExchangeIsStable<T(!new)>(rank: T -> int, x: T, y: T, t: seq<T>, rest: seq<T>)
    requires rank(x) != rank(y) && StablePermutation(rank, t, [x] + rest)
    ensures StablePermutation(rank, [y] + t, [x] + ([y] + rest))
  {
    forall r ensures Ranked(rank, [y] + t, r) == Ranked(rank, [x] + ([y] + rest), r) {
      RankedAppend(rank, [y], t, r);
      RankedAppend(rank, [x], [y] + rest, r);
      RankedAppend(rank, [y], rest, r);
      RankedAppend(rank, [x], rest, r);
      assert Ranked(rank, t, r) == Ranked(rank, [x] + rest, r);
    }
  }

  lemma {:induction false} InsertIntoIsStable<T(!new)>(rank: T -> int, x: T, sorted: seq<T>)
    requires BestFirst(rank, sorted)
    ensures BestFirst(rank, InsertInto(rank, x, sorted))
    ensures StablePermutation(rank, InsertInto(rank, x, sorted), [x] + sorted)
    ensures forall y :: y in InsertInto(rank, x, sorted) ==> y == x || y in sorted
  {
    if sorted != [] && rank(x) < rank(sorted[0]) {
      var t := InsertInto(rank, x, sorted[1..]);
      InsertIntoIsStable(rank, x, sorted[1..]);
      forall i | 0 <= i < |t| ensures rank(sorted[0]) >= rank(t[i]) {
        assert t[i] in t;
      }
      ExchangeIsStable(rank, x, sorted[0], t, sorted[1..]);
      assert sorted == [sorted[0]] + sorted[1..];
    }
  }

  /** Sorting is a stable permutation, best first. */
  lemma {:induction false} SortIsStable<T(!new)>(rank: T -> int, s: seq<T>)
    ensures BestFirst(rank, Sort(rank, s)) && StablePermutation(rank, Sort(rank, s), s)
    ensures |Sort(rank, s)| == |s| && multiset(Sort(rank, s)) == multiset(s)
  {
    if s != [] {
      var t := Sort(rank, s[1..]);
      SortIsStable(rank, s[1..]);
      InsertIntoIsStable(rank, s[0], t);
      forall r ensures Ranked(rank, Sort(rank, s), r) == Ranked(rank, s, r) {
        assert Ranked(rank, InsertInto(rank, s[0], t), r) == Ranked(rank, [s[0]] + t, r);
        RankedAppend(rank, [s[0]], t, r);
        RankedAppend(rank, [s[0]], s[1..], r);
        assert s == [s[0]] + s[1..];
        assert Ranked(rank, t, r) == Ranked(rank, s[1..], r);
      }
    }
    StablePermutationKeepsCounts(rank, Sort(rank, s), s);
    assert |multiset(s)| == |s| && |multiset(Sort(rank, s))| == |Sort(rank, s)|;
  }

  // ----- the code -----

  /** Among entries ranked 0 or less, the last of the worst */
  method FindWorst<T>(rank: T -> int, list: seq<T>) returns (found: bool, w: nat)
    ensures found <==> exists i :: 0 <= i < |list| && rank(list[i]) <= 0
    ensures found ==> w < |list| && rank(list[w]) <= 0
    ensures found ==> forall i :: 0 <= i < |list| ==> rank(list[w]) <= rank(list[i])
    ensures found ==> forall i :: w < i < |list| ==> rank(list[w]) < rank(list[i])
  {
    var worst := 0;
    found, w := false, 0;
    for i := 0 to |list|
      invariant found <==> exists j :: 0 <= j < i && rank(list[j]) <= 0
      invariant !found ==> worst == 0
      invariant found ==> w < i && rank(list[w]) == worst <= 0
      invariant forall j :: 0 <= j < i ==> worst <= rank(list[j]) || !found
      invariant found ==> forall j :: w < j < i ==> worst < rank(list[j])
    {
      if rank(list[i]) <= worst {
        worst, found, w := rank(list[i]), true, i;
      }
    }
  }

  /** An entry passes others of another rank. */
  lemma MoveRanked<T>(rank: T -> int, pre: seq<T>, x: T, post: seq<T>, newlist: seq<T>, r: int)
    requires forall i :: 0 <= i < |post| ==> rank(x) != rank(post[i])
    ensures Ranked(rank, pre + post + ([x] + newlist), r) == Ranked(rank, pre + [x] + post + newlist, r)
  {
    var p, o, q, n := Ranked(rank, pre, r), Ranked(rank, post, r), Ranked(rank, [x], r), Ranked(rank, newlist, r);
    RankedAppend(rank, pre + post, [x] + newlist, r);
    RankedAppend(rank, pre, post, r);
    RankedAppend(rank, [x], newlist, r);
    RankedAppend(rank, pre + [x] + post, newlist, r);
    RankedAppend(rank, pre + [x], post, r);
    RankedAppend(rank, pre, [x], r);
    if rank(x) == r {
      RankedIsEmpty(rank, post, r);
      assert p + [] == p && p + q + [] == p + q;
      Assoc(p, q, n);
    } else {
      RankedIsEmpty(rank, [x], r);
      assert [] + n == n && p + [] == p;
    }
  }

  lemma MoveWorst<T(!new)>(rank: T -> int, all: seq<T>, list: seq<T>, newlist: seq<T>, w: nat)
    requires w < |list|
    requires forall i :: w < i < |list| ==> rank(list[w]) < rank(list[i])
    requires StablePermutation(rank, list + newlist, all)
    ensures StablePermutation(rank, list[..w] + list[w + 1..] + ([list[w]] + newlist), all)
  {
    var pre, x, post := list[..w], list[w], list[w + 1..];
    assert list == pre + [x] + post;
    forall r ensures Ranked(rank, pre + post + ([x] + newlist), r) == Ranked(rank, all, r) {
      MoveRanked(rank, pre, x, post, newlist, r);
      assert Ranked(rank, list + newlist, r) == Ranked(rank, all, r);
    }
  }

  /** The sorting loop, which ends if no entry is ranked above 0 */
  method SelectionSort<T(!new)>(rank: T -> int, list0: seq<T>) returns (newlist: seq<T>)
    requires forall i :: 0 <= i < |list0| ==> rank(list0[i]) <= 0
    ensures newlist == Sort(rank, list0)
  {
    var list := list0;
    newlist := [];
    assert list + newlist == list0;
    while list != []
      invariant forall i :: 0 <= i < |list| ==> rank(list[i]) <= 0
      invariant BestFirst(rank, newlist)
      invariant forall i, j :: 0 <= i < |list| && 0 <= j < |newlist| ==> rank(list[i]) >= rank(newlist[j])
      invariant StablePermutation(rank, list + newlist, list0)
      decreases |list|
    {
      var found, w := FindWorst(rank, list);
      assert rank(list[0]) <= 0;
      MoveWorst(rank, list0, list, newlist, w);
      newlist := [list[w]] + newlist;
      list := list[..w] + list[w + 1..];
    }
    assert list + newlist == newlist;
    SortIsStable(rank, list0);
    StableSortIsUnique(rank, newlist, Sort(rank, list0));
  }

  // ----- when the loop ends -----

  /** One pass of the loop: an entry ranked 0 or less is moved, if there is one. */
  ghost predicate Pass<T(!new)>(rank: T -> int, list: seq<T>, list': seq<T>) {
    if exists i :: 0 <= i < |list| && rank(list[i]) <= 0 then
      exists w :: 0 <= w < |list| && rank(list[w]) <= 0 && list' == list[..w] + list[w + 1..]
    else list' == list
  }

  /** The lists left after each of a number of passes */
  ghost predicate Passes<T(!new)>(rank: T -> int, lists: seq<seq<T>>) {
    forall i :: 0 <= i < |lists| - 1 ==> Pass(rank, lists[i], lists[i + 1])
  }

  /** An entry ranked above 0 outlasts every pass ... */
  lemma {:induction false} PositiveEntryIsNeverMoved<T(!new)>(rank: T -> int, lists: seq<seq<T>>, x: T, k: nat)
    requires Passes(rank, lists) && k < |lists| && x in lists[0] && rank(x) > 0
    ensures x in lists[k]
  {
    if k > 0 {
      PositiveEntryIsNeverMoved(rank, lists, x, k - 1);
      var list := lists[k - 1];
      assert Pass(rank, list, lists[k]);
      var i :| 0 <= i < |list| && list[i] == x;
      forall w | 0 <= w < |list| && rank(list[w]) <= 0 ensures x in list[..w] + list[w + 1..] {
        var rest := list[..w] + list[w + 1..];
        assert rest[if i < w then i else i - 1] == x;
      }
    }
  }

  /** ... and each other pass takes one entry away. */
  lemma {:induction false} PassesShorten<T(!new)>(rank: T -> int, lists: seq<seq<T>>, k: nat)
    requires Passes(rank, lists) && k < |lists|
    requires forall i :: 0 <= i < |lists[0]| ==> rank(lists[0][i]) <= 0
    ensures forall i :: 0 <= i < |lists[k]| ==> rank(lists[k][i]) <= 0
    ensures |lists[k]| == if k <= |lists[0]| then |lists[0]| - k else 0
  {
    if k > 0 {
      PassesShorten(rank, lists, k - 1);
      assert Pass(rank, lists[k - 1], lists[k]);
      if lists[k - 1] != [] {
        assert rank(lists[k - 1][0]) <= 0;
      }
    }
  }

  /** The old list is empty after as many passes as it has entries, or it never is: exactly when no entry is
      ranked above 0, or some entry is. */
  lemma SortingEndsIffNoEntryIsPositive<T(!new)>(rank: T -> int, lists: seq<seq<T>>)
    requires Passes(rank, lists) && lists != [] && |lists| > |lists[0]|
    ensures (forall x :: x in lists[0] ==> rank(x) <= 0) <==> lists[|lists[0]|] == []
    ensures (exists x :: x in lists[0] && rank(x) > 0) ==> forall k :: 0 <= k < |lists| ==> lists[k] != []
  {
    if forall x :: x in lists[0] ==> rank(x) <= 0 {
      PassesShorten(rank, lists, |lists[0]|);
    } else {
      var x :| x in lists[0] && rank(x) > 0;
      forall k | 0 <= k < |lists| ensures lists[k] != [] {
        PositiveEntryIsNeverMoved(rank, lists, x, k);
      }
    }
  }
}
