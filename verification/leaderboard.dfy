/** The drops leaderboard: `get_all_drops` (karuta/karuta.py:243-246) and the
    numbered lines the leaderboard command and the reset summaries build from
    it (karuta/karuta.py:26-37, 136-141, 294-300).

    `sorted(drops.items(), key=lambda x: x[1], reverse=True)` is a stable sort
    in descending order of count: entries with equal counts keep their
    dictionary order. `SortDesc` is an insertion sort with that behaviour, and
    `SortDescStable` states stability as "the entries of each count appear in
    the same order as in the input". */
module Leaderboard {
  import opened Counters

  /** How many entries a leaderboard shows. */
  const TopSize: nat := 10

  const FirstPlace: string := "\U{1F947}"
  const SecondPlace: string := "\U{1F948}"
  const ThirdPlace: string := "\U{1F949}"
  const SmallSquare: string := "\U{25AA}"

  /** The line prefixes, one per leaderboard place. */
  const Emoji: seq<string> := [
    FirstPlace, SecondPlace, ThirdPlace,
    SmallSquare, SmallSquare, SmallSquare, SmallSquare, SmallSquare, SmallSquare, SmallSquare
  ]

  predicate NonIncreasing(s: seq<Entry>) {
    forall i, j :: 0 <= i < j < |s| ==> s[i].count >= s[j].count
  }

  /** The entries of `s` whose count is `n`, in their order in `s`. */
  function WithCount(s: seq<Entry>, n: nat): seq<Entry> {
    if |s| == 0 then []
    else (if s[0].count == n then [s[0]] else []) + WithCount(s[1..], n)
  }

  lemma WithCountCons(x: Entry, s: seq<Entry>, n: nat)
    ensures WithCount([x] + s, n) == (if x.count == n then [x] else []) + WithCount(s, n)
  {
  }

  /** Puts `e` in front of the first entry whose count does not exceed `e`'s. */
  function Insert(e: Entry, t: seq<Entry>): (r: seq<Entry>)
    ensures |r| == |t| + 1
  {
    if |t| == 0 || t[0].count <= e.count then [e] + t
    else [t[0]] + Insert(e, t[1..])
  }

  /** `sorted(items, key=count, reverse=True)`, as an insertion sort. */
  function SortDesc(s: seq<Entry>): (r: seq<Entry>)
    ensures |r| == |s|
  {
    if |s| == 0 then [] else Insert(s[0], SortDesc(s[1..]))
  }

  lemma InsertUnfold(e: Entry, t: seq<Entry>)
    requires |t| > 0 && t[0].count > e.count
    ensures Insert(e, t) == [t[0]] + Insert(e, t[1..])
  {
  }

  lemma {:induction false} InsertPerm(e: Entry, t: seq<Entry>)
    ensures multiset(Insert(e, t)) == multiset(t) + multiset{e}
  {
    if |t| > 0 && t[0].count > e.count {
      InsertPerm(e, t[1..]);
      InsertUnfold(e, t);
      assert t == [t[0]] + t[1..];
    }
  }

  lemma InsertMembers(e: Entry, t: seq<Entry>)
    ensures forall x :: x in Insert(e, t) <==> x == e || x in t
  {
  }

  lemma {:induction false} InsertSorted(e: Entry, t: seq<Entry>)
    requires NonIncreasing(t)
    ensures NonIncreasing(Insert(e, t))
  {
    if |t| > 0 && t[0].count > e.count {
      var rest := Insert(e, t[1..]);
      InsertSorted(e, t[1..]);
      InsertMembers(e, t[1..]);
      InsertUnfold(e, t);
      var r := [t[0]] + rest;
      forall x | x in rest
        ensures t[0].count >= x.count
      {
        if x != e {
          var k :| 0 <= k < |t[1..]| && t[1..][k] == x;
          assert t[k + 1] == x;
        }
      }
      forall i, j | 0 <= i < j < |r|
        ensures r[i].count >= r[j].count
      {
        assert r[j] == rest[j - 1];
        if i > 0 {
          assert r[i] == rest[i - 1];
        } else {
          assert rest[j - 1] in rest;
        }
      }
    }
  }

  lemma ConsUsers(x: Entry, s: seq<Entry>)
    ensures Users([x] + s) == {x.user} + Users(s)
    ensures IsDict([x] + s) <==> IsDict(s) && x.user !in Users(s)
  {
    var r := [x] + s;
    assert r[0] == x;
    assert forall i :: 0 <= i < |s| ==> r[i + 1] == s[i];
    if IsDict(s) && x.user !in Users(s) {
      forall i, j | 0 <= i < j < |r|
        ensures r[i].user != r[j].user
      {
        if i == 0 {
          assert r[j].user in Users(s);
        }
      }
    }
  }

  lemma {:induction false} InsertUsers(e: Entry, t: seq<Entry>)
    ensures Users(Insert(e, t)) == Users(t) + {e.user}
    ensures IsDict(t) && e.user !in Users(t) ==> IsDict(Insert(e, t))
  {
    if |t| == 0 || t[0].count <= e.count {
      ConsUsers(e, t);
    } else {
      var rest := Insert(e, t[1..]);
      InsertUsers(e, t[1..]);
      InsertUnfold(e, t);
      ConsUsers(t[0], rest);
      assert t == [t[0]] + t[1..];
      ConsUsers(t[0], t[1..]);
    }
  }

  lemma {:induction false} InsertWithCount(e: Entry, t: seq<Entry>, n: nat)
    ensures WithCount(Insert(e, t), n) == WithCount([e] + t, n)
  {
    if |t| > 0 && t[0].count > e.count {
      var tail := t[1..];
      var inserted := Insert(e, tail);
      var head := if t[0].count == n then [t[0]] else [];
      var mid := if e.count == n then [e] else [];
      assert head == [] || mid == [];
      calc {
        WithCount(Insert(e, t), n);
      == { InsertUnfold(e, t); }
        WithCount([t[0]] + inserted, n);
      == { WithCountCons(t[0], inserted, n); }
        head + WithCount(inserted, n);
      == { InsertWithCount(e, tail, n); }
        head + WithCount([e] + tail, n);
      == { WithCountCons(e, tail, n); }
        head + (mid + WithCount(tail, n));
      == { assert head + (mid + WithCount(tail, n)) == mid + (head + WithCount(tail, n)); }
        mid + (head + WithCount(tail, n));
      == { assert t == [t[0]] + tail; WithCountCons(t[0], tail, n); }
        mid + WithCount(t, n);
      == { WithCountCons(e, t, n); }
        WithCount([e] + t, n);
      }
    }
  }

  /** The sort rearranges the items without adding or losing any. */
  lemma {:induction false} SortDescPerm(s: seq<Entry>)
    ensures multiset(SortDesc(s)) == multiset(s)
  {
    if |s| > 0 {
      SortDescPerm(s[1..]);
      InsertPerm(s[0], SortDesc(s[1..]));
      assert s == [s[0]] + s[1..];
    }
  }

  /** The sort puts higher counts first. */
  lemma {:induction false} SortDescSorted(s: seq<Entry>)
    ensures NonIncreasing(SortDesc(s))
  {
    if |s| > 0 {
      SortDescSorted(s[1..]);
      InsertSorted(s[0], SortDesc(s[1..]));
    }
  }

  /** Sorting a dictionary's items neither loses nor duplicates a user. */
  lemma {:induction false} SortDescUsers(s: seq<Entry>)
    ensures Users(SortDesc(s)) == Users(s)
    ensures IsDict(s) ==> IsDict(SortDesc(s))
  {
    if |s| > 0 {
      var tail := s[1..];
      SortDescUsers(tail);
      InsertUsers(s[0], SortDesc(tail));
      assert s == [s[0]] + tail;
      ConsUsers(s[0], tail);
    }
  }

  /** The sort is stable: for every count, the entries with that count come
      out in the order they went in. */
  lemma {:induction false} SortDescStable(s: seq<Entry>, n: nat)
    ensures WithCount(SortDesc(s), n) == WithCount(s, n)
  {
    if |s| > 0 {
      SortDescStable(s[1..], n);
      InsertWithCount(s[0], SortDesc(s[1..]), n);
      WithCountCons(s[0], SortDesc(s[1..]), n);
      assert s == [s[0]] + s[1..];
      WithCountCons(s[0], s[1..], n);
    }
  }

  /** Cutting a sequence short keeps a prefix of each count's entries. */
  lemma {:induction false} WithCountOfPrefix(s: seq<Entry>, k: nat, n: nat)
    requires k <= |s|
    ensures WithCount(s[..k], n) <= WithCount(s, n)
  {
    if k > 0 {
      WithCountOfPrefix(s[1..], k - 1, n);
      assert s[..k] == [s[0]] + s[1..][..k - 1];
      WithCountCons(s[0], s[1..][..k - 1], n);
      assert s == [s[0]] + s[1..];
      WithCountCons(s[0], s[1..], n);
    }
  }

  /** Entries of a permutation are entries of the original. */
  lemma PermutationMembers(a: seq<Entry>, b: seq<Entry>)
    requires multiset(a) == multiset(b)
    ensures forall x :: x in a <==> x in b
  {
    forall x
      ensures x in a <==> x in b
    {
      assert x in a <==> x in multiset(a);
      assert x in b <==> x in multiset(b);
    }
  }

  /** What a cut after `k` places of a non-increasing sequence leaves out
      ranks no higher than the last place kept. */
  lemma CutOfSorted(sorted: seq<Entry>, k: nat)
    requires NonIncreasing(sorted)
    requires k <= |sorted| && (k == 0 ==> |sorted| == 0)
    ensures NonIncreasing(sorted[..k])
    ensures forall e :: e in sorted && e !in sorted[..k] ==> 0 < k && e.count <= sorted[k - 1].count
  {
  }

  /** What the cut after `k` places of the sorted items keeps and drops. */
  lemma TopOfSorted(c: seq<Entry>, k: nat)
    requires k <= |c| && (k == 0 ==> |c| == 0)
    ensures NonIncreasing(SortDesc(c)[..k])
    ensures forall i :: 0 <= i < k ==> SortDesc(c)[..k][i] in c
    ensures forall e :: e in c && e !in SortDesc(c)[..k] ==> 0 < k && e.count <= SortDesc(c)[k - 1].count
    ensures IsDict(c) ==> IsDict(SortDesc(c)[..k])
  {
    var sorted := SortDesc(c);
    var r := sorted[..k];
    assert forall x :: x in sorted <==> x in c by {
      SortDescPerm(c);
      PermutationMembers(sorted, c);
    }
    assert forall i :: 0 <= i < k ==> r[i] in c by {
      forall i | 0 <= i < k
        ensures r[i] in c
      {
        assert r[i] == sorted[i];
      }
    }
    assert NonIncreasing(r) && forall e :: e in sorted && e !in r ==> 0 < k && e.count <= sorted[k - 1].count by {
      SortDescSorted(c);
      CutOfSorted(sorted, k);
    }
    assert IsDict(c) ==> IsDict(r) by {
      SortDescUsers(c);
    }
  }

  lemma TopStable(c: seq<Entry>, k: nat)
    requires k <= |c|
    ensures forall n :: WithCount(SortDesc(c)[..k], n) <= WithCount(c, n)
  {
    forall n
      ensures WithCount(SortDesc(c)[..k], n) <= WithCount(c, n)
    {
      SortDescStable(c, n);
      WithCountOfPrefix(SortDesc(c), k, n);
    }
  }

  /** `get_all_drops`: the ten highest counts, highest first. */
  function TopDrops(c: seq<Entry>): (r: seq<Entry>)
    ensures |r| == if |c| < TopSize then |c| else TopSize
    ensures NonIncreasing(r)
    // every returned pair is stored with the same count
    ensures forall i :: 0 <= i < |r| ==> r[i] in c
    // nothing left out outranks the last place shown
    ensures forall e :: e in c && e !in r ==> 0 < |r| && e.count <= r[|r| - 1].count
    // ties keep their dictionary order
    ensures forall n :: WithCount(r, n) <= WithCount(c, n)
    ensures IsDict(c) ==> IsDict(r)
  {
    var k := if |c| < TopSize then |c| else TopSize;
    TopOfSorted(c, k);
    TopStable(c, k);
    SortDesc(c)[..k]
  }

  /** One leaderboard line before display names are filled in: the place's
      emoji, the user id and the count. */
  datatype Line = Line(prefix: string, user: string, count: nat)

  /** Numbers the entries: line `i` is prefixed with `emoji[i]`, which exists
      only for the first ten places. */
  function Lines(top: seq<Entry>): (r: seq<Line>)
    requires |top| <= |Emoji|
    ensures |r| == |top|
    ensures forall i :: 0 <= i < |r| ==> r[i].user == top[i].user && r[i].count == top[i].count
    ensures forall i :: 0 <= i < |r| ==> r[i].prefix == Emoji[i]
    // the same prefixes, read off the emoji table
    ensures |r| > 0 ==> r[0].prefix == FirstPlace
    ensures |r| > 1 ==> r[1].prefix == SecondPlace
    ensures |r| > 2 ==> r[2].prefix == ThirdPlace
    ensures forall i :: 3 <= i < |r| ==> r[i].prefix == SmallSquare
  {
    seq(|top|, i requires 0 <= i < |top| => Line(Emoji[i], top[i].user, top[i].count))
  }

  /** The leaderboard of a counter: one line per `get_all_drops` entry, each
      prefixed with its place's emoji, highest count on the first-place line. */
  function Board(c: seq<Entry>): (r: seq<Line>)
    ensures |r| == if |c| < TopSize then |c| else TopSize
    ensures forall i :: 0 <= i < |r| ==> r[i].prefix == Emoji[i]
    ensures forall i :: 0 <= i < |r| ==> r[i].prefix == Emoji[i]
    // the same prefixes, read off the emoji table
    ensures |r| > 0 ==> r[0].prefix == FirstPlace && forall e :: e in c ==> e.count <= r[0].count
    ensures forall i, j :: 0 <= i < j < |r| ==> r[i].count >= r[j].count
    // line i shows the i-th `get_all_drops` entry, so its distinct users and
    // tie order carry over
    ensures forall i :: 0 <= i < |r| ==> Entry(r[i].user, r[i].count) == TopDrops(c)[i]
    ensures forall i :: 0 <= i < |r| ==> Entry(r[i].user, r[i].count) in c
    // no entry left off the board has a higher count than the last line
    ensures forall e :: e in c && (forall i :: 0 <= i < |r| ==> Entry(r[i].user, r[i].count) != e) ==>
      0 < |r| && e.count <= r[|r| - 1].count
  {
    var top := TopDrops(c);
    var r := Lines(top);
    assert forall i :: 0 <= i < |r| ==> Entry(r[i].user, r[i].count) == top[i];
    r
  }

}
