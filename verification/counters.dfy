/** A per-guild drop counter: the `daily_drops` / `weekly_drops` dictionary
    from user id (as a decimal string) to a count.

    A Python dict keeps insertion order, and the leaderboard's stable sort
    makes that order visible, so the dictionary is a sequence of entries with
    pairwise distinct users. Assigning to an existing key keeps its position;
    a new key goes to the end. */
module Counters {

  datatype Entry = Entry(user: string, count: nat)

  /** The dictionary invariant: no user appears twice. */
  predicate IsDict(c: seq<Entry>) {
    forall i, j :: 0 <= i < j < |c| ==> c[i].user != c[j].user
  }

  function Users(c: seq<Entry>): set<string> {
    set i | 0 <= i < |c| :: c[i].user
  }

  /** `d.get(u, 0)`: the stored count of `u`, or 0 when `u` has no entry. */
  function Get(c: seq<Entry>, u: string): (n: nat)
    ensures u !in Users(c) ==> n == 0
    ensures IsDict(c) ==> forall i :: 0 <= i < |c| && c[i].user == u ==> n == c[i].count
  {
    if |c| == 0 then 0
    else if c[0].user == u then c[0].count
    else Get(c[1..], u)
  }

  /** Position of `u`'s entry, or `|c|` when it has none. */
  function Find(c: seq<Entry>, u: string): (i: nat)
    ensures i <= |c|
    ensures i < |c| ==> c[i].user == u
    ensures forall j :: 0 <= j < i ==> c[j].user != u
  {
    if |c| == 0 then 0
    else if c[0].user == u then 0
    else 1 + Find(c[1..], u)
  }

  /** `d[u] = d.get(u, 0) + 1`: an existing key keeps its place, a new key is
      appended with count 1. */
  function Increment(c: seq<Entry>, u: string): (r: seq<Entry>)
    requires IsDict(c)
    ensures IsDict(r)
    ensures Users(r) == Users(c) + {u}
    ensures u in Users(c) ==> |r| == |c| && forall i :: 0 <= i < |c| && c[i].user != u ==> r[i] == c[i]
    ensures u !in Users(c) ==> r == c + [Entry(u, 1)]
  {
    var i := Find(c, u);
    if i < |c| then
      var r := c[i := Entry(u, c[i].count + 1)];
      assert forall j :: 0 <= j < |r| ==> r[j].user == c[j].user;
      r
    else
      var r := c + [Entry(u, 1)];
      assert r[|c|].user == u;
      assert forall j :: 0 <= j < |c| ==> r[j] == c[j];
      r
  }

  /** Recording a drop adds one to `u`'s count, a missing entry counting as 0,
      and leaves every other user's count as it was. */
  lemma IncrementCounts(c: seq<Entry>, u: string)
    requires IsDict(c)
    ensures Get(Increment(c, u), u) == Get(c, u) + 1
    ensures forall v :: v != u ==> Get(Increment(c, u), v) == Get(c, v)
  {
  }

}
