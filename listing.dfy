/**
  The two public draw lists: active draws in id order, and archived draws
  sorted by finishing time, newest first. `Object.values` visits integer
  keys in ascending order, and `Array.prototype.sort` is stable, so ties in
  finishing time keep ascending id order.
*/
module Listing {
  import opened Wrappers
  import opened Records

  /** Every draw is stored under its own id. */
  predicate KeyedById(table: map<int, Draw>) {
    forall id :: id in table ==> table[id].id == id
  }

  /** A table keyed by id whose ids were issued from 1 up to `counter`. */
  predicate IssuedUpTo(table: map<int, Draw>, counter: nat) {
    KeyedById(table) && forall id :: id in table ==> 1 <= id <= counter
  }

  /**
    `Object.values(table)` for a table keyed by draw id: the draws whose ids
    lie in [lo, hi), in ascending id order.
  */
  function InIdOrder(table: map<int, Draw>, lo: int, hi: int): (r: seq<Draw>)
    requires KeyedById(table)
    decreases hi - lo
    ensures forall d :: d in r ==> d.id in table && table[d.id] == d && lo <= d.id < hi
    ensures forall id :: id in table && lo <= id < hi ==> table[id] in r
    ensures AscendingIds(r)
  {
    if lo >= hi then []
    else
      var rest := InIdOrder(table, lo + 1, hi);
      if lo in table then
        var r := [table[lo]] + rest;
        assert forall d :: d in r <==> d == table[lo] || d in rest;
        assert AscendingIds(r) by {
          forall i, j | 0 <= i < j < |r| ensures r[i].id < r[j].id {
            assert r[j] == rest[j - 1] && rest[j - 1] in rest;
            if i > 0 { assert r[i] == rest[i - 1]; }
          }
        }
        r
      else rest
  }

  /** `.filter(d => !d.finished && d.endsAt > now)`: the active draws, in their original order. */
  function ActiveOnly(ds: seq<Draw>, now: int): (r: seq<Draw>)
    ensures forall d :: d in r <==> d in ds && IsActive(d, now)
    ensures AscendingIds(ds) ==> AscendingIds(r)
  {
    if ds == [] then []
    else
      var rest := ActiveOnly(ds[1..], now);
      if IsActive(ds[0], now) then
        assert AscendingIds(ds) ==> forall i :: 0 <= i < |rest| ==> ds[0].id < rest[i].id by {
          if AscendingIds(ds) {
            forall i | 0 <= i < |rest| ensures ds[0].id < rest[i].id {
              assert rest[i] in ds[1..];
              var k :| 0 <= k < |ds| - 1 && ds[1..][k] == rest[i];
              assert ds[k + 1] == rest[i];
            }
          }
        }
        [ds[0]] + rest
      else rest
  }

  /** One entry of the active list: a summary without participant identities. */
  datatype ActiveSummary = ActiveSummary(
    id: int,
    prize: string,
    endsAt: int,
    imageUrl: Option<string>,
    participantsCount: nat,
    winnersCount: nat,
    isMoney: bool)

  function Summary(d: Draw): ActiveSummary {
    ActiveSummary(d.id, d.prize, d.endsAt, d.imageUrl, |d.participants|,
                  if d.winnersCount == 0 then 1 else d.winnersCount, IsMoney(d.prize))
  }

  /** One entry of the finished list: the full record, with participants and winners. */
  datatype FinishedView = FinishedView(
    id: int,
    prize: string,
    imageUrl: Option<string>,
    isMoney: bool,
    participants: seq<Participant>,
    winners: seq<Participant>,
    finishedAt: Option<int>,
    winnersCount: nat)

  /** `.map(...)` to summaries, entry by entry. */
  function Summaries(ds: seq<Draw>): (r: seq<ActiveSummary>)
    ensures |r| == |ds| && forall i :: 0 <= i < |ds| ==> r[i] == Summary(ds[i]) && r[i].id == ds[i].id
    ensures forall d :: d in ds ==> Summary(d) in r
  {
    if ds == [] then [] else [Summary(ds[0])] + Summaries(ds[1..])
  }

  function View(d: Draw): FinishedView {
    FinishedView(d.id, d.prize, d.imageUrl, IsMoney(d.prize), d.participants, d.winners,
                 d.finishedAt, if d.winnersCount == 0 then 1 else d.winnersCount)
  }

  /** `.map(...)` to archive views, entry by entry. */
  function Views(ds: seq<Draw>): (r: seq<FinishedView>)
    ensures |r| == |ds| && forall i :: 0 <= i < |ds| ==> r[i] == View(ds[i]) && r[i].id == ds[i].id
    ensures forall d :: d in ds ==> View(d) in r
  {
    if ds == [] then [] else [View(ds[0])] + Views(ds[1..])
  }

  // ---------------------------------------------------------------------------
  // Stable sort by finishing time, newest first

  function FinishedKey(d: Draw): int {
    d.finishedAt.GetOr(0)
  }

  predicate NewestFirst(s: seq<Draw>) {
    forall i, j :: 0 <= i < j < |s| ==> FinishedKey(s[i]) >= FinishedKey(s[j])
  }

  /** Draws finished at the same time appear in ascending id order. */
  predicate TiesById(s: seq<Draw>) {
    forall i, j :: 0 <= i < j < |s| && FinishedKey(s[i]) == FinishedKey(s[j]) ==> s[i].id < s[j].id
  }

  predicate AscendingIds(s: seq<Draw>) {
    forall i, j :: 0 <= i < j < |s| ==> s[i].id < s[j].id
  }

  predicate DistinctIds(s: seq<Draw>) {
    forall i, j :: 0 <= i < j < |s| ==> s[i].id != s[j].id
  }

  /** `a` may head a list sorted newest first when it comes no later than, and before in a tie, each element. */
  predicate Heads(a: Draw, s: seq<Draw>) {
    forall x :: x in s ==>
      && FinishedKey(a) >= FinishedKey(x)
      && (FinishedKey(a) == FinishedKey(x) ==> a.id < x.id)
      && a.id != x.id
  }

  predicate WellOrdered(s: seq<Draw>) {
    NewestFirst(s) && TiesById(s) && DistinctIds(s)
  }

  lemma ConsWellOrdered(a: Draw, s: seq<Draw>)
    requires WellOrdered(s) && Heads(a, s)
    ensures WellOrdered([a] + s)
  {
    var r := [a] + s;
    forall i, j | 0 <= i < j < |r|
      ensures FinishedKey(r[i]) >= FinishedKey(r[j])
      ensures FinishedKey(r[i]) == FinishedKey(r[j]) ==> r[i].id < r[j].id
      ensures r[i].id != r[j].id
    {
      if i == 0 {
        assert r[j] == s[j - 1] && s[j - 1] in s;
      } else {
        assert r[i] == s[i - 1] && r[j] == s[j - 1];
      }
    }
  }

  lemma HeadOfWellOrdered(s: seq<Draw>)
    requires s != [] && WellOrdered(s)
    ensures Heads(s[0], s[1..])
  {
    forall x | x in s[1..]
      ensures FinishedKey(s[0]) >= FinishedKey(x)
      ensures FinishedKey(s[0]) == FinishedKey(x) ==> s[0].id < x.id
      ensures s[0].id != x.id
    {
      var k :| 0 <= k < |s| - 1 && s[1..][k] == x;
      assert s[k + 1] == x;
    }
  }

  /** Inserts `d`, whose id exceeds every id in `s`, after every draw finished no later than it. */
  function InsertByFinished(d: Draw, s: seq<Draw>): (r: seq<Draw>)
    requires WellOrdered(s)
    requires forall x :: x in s ==> x.id < d.id
    ensures |r| == |s| + 1
    ensures forall x :: x in r <==> x in s || x == d
    ensures WellOrdered(r)
  {
    if s == [] then [d]
    else if FinishedKey(s[0]) < FinishedKey(d) then
      HeadOfWellOrdered(s);
      assert s == [s[0]] + s[1..];
      assert Heads(d, s);
      ConsWellOrdered(d, s);
      [d] + s
    else
      HeadOfWellOrdered(s);
      assert s == [s[0]] + s[1..];
      var rest := InsertByFinished(d, s[1..]);
      assert Heads(s[0], rest);
      ConsWellOrdered(s[0], rest);
      [s[0]] + rest
  }

  /**
    `sort((a, b) => b.finishedAt - a.finishedAt)` applied to draws in
    ascending id order: the same draws, newest first, ties in id order.
  */
  function SortByFinished(s: seq<Draw>): (r: seq<Draw>)
    requires AscendingIds(s)
    ensures |r| == |s|
    ensures forall x :: x in r <==> x in s
    ensures WellOrdered(r)
  {
    if s == [] then []
    else
      var init := s[..|s| - 1];
      var sorted := SortByFinished(init);
      assert forall x :: x in sorted ==> x.id < s[|s| - 1].id by {
        forall x | x in sorted ensures x.id < s[|s| - 1].id {
          var k :| 0 <= k < |init| && init[k] == x;
        }
      }
      assert s == init + [s[|s| - 1]];
      InsertByFinished(s[|s| - 1], sorted)
  }

  // ---------------------------------------------------------------------------
  // The two lists

  /** The open draws the active list shows, in ascending id order. */
  function ActiveDrawsOf(draws: map<int, Draw>, counter: nat, now: int): (ds: seq<Draw>)
    requires IssuedUpTo(draws, counter)
    ensures forall d :: d in ds ==> d.id in draws && draws[d.id] == d && IsActive(d, now)
    ensures forall id :: id in draws && IsActive(draws[id], now) ==> draws[id] in ds
    ensures AscendingIds(ds)
  {
    var ordered := InIdOrder(draws, 1, counter + 1);
    ActiveOnly(ordered, now)
  }

  /**
    GET /api/draws over the table of open draws: the draws that are not
    finished and not yet past their end, in ascending id order, as summaries.
  */
  function ActiveList(draws: map<int, Draw>, counter: nat, now: int): (r: seq<ActiveSummary>)
    requires IssuedUpTo(draws, counter)
    ensures forall i :: 0 <= i < |r| ==>
      r[i].id in draws && IsActive(draws[r[i].id], now) && r[i] == Summary(draws[r[i].id])
    ensures forall id :: id in draws && IsActive(draws[id], now) ==> Summary(draws[id]) in r
    ensures forall i, j :: 0 <= i < j < |r| ==> r[i].id < r[j].id
  {
    var active := ActiveDrawsOf(draws, counter, now);
    var r := Summaries(active);
    forall i | 0 <= i < |r|
      ensures r[i].id in draws && IsActive(draws[r[i].id], now) && r[i] == Summary(draws[r[i].id])
    {
      assert active[i] in active;
    }
    r
  }

  /**
    Newest first by `finishedAt` (a missing time counting as 0), equal times
    in ascending id order, and no id twice.
  */
  predicate ViewsOrdered(r: seq<FinishedView>) {
    forall i, j :: 0 <= i < j < |r| ==>
      && r[i].finishedAt.GetOr(0) >= r[j].finishedAt.GetOr(0)
      && (r[i].finishedAt.GetOr(0) == r[j].finishedAt.GetOr(0) ==> r[i].id < r[j].id)
      && r[i].id != r[j].id
  }

  lemma ViewsKeepOrder(ds: seq<Draw>)
    requires WellOrdered(ds)
    ensures ViewsOrdered(Views(ds))
  {
    var r := Views(ds);
    forall i, j | 0 <= i < j < |r|
      ensures r[i].finishedAt.GetOr(0) >= r[j].finishedAt.GetOr(0)
      ensures r[i].finishedAt.GetOr(0) == r[j].finishedAt.GetOr(0) ==> r[i].id < r[j].id
      ensures r[i].id != r[j].id
    {
      assert r[i] == View(ds[i]) && r[j] == View(ds[j]);
    }
  }

  /** The archived draws in the order the finished list shows them. */
  function FinishedDrawsOf(finished: map<int, Draw>, counter: nat): (ds: seq<Draw>)
    requires IssuedUpTo(finished, counter)
    ensures forall d :: d in ds ==> d.id in finished && finished[d.id] == d
    ensures forall id :: id in finished ==> finished[id] in ds
    ensures WellOrdered(ds)
  {
    var ordered := InIdOrder(finished, 1, counter + 1);
    SortByFinished(ordered)
  }

  /**
    GET /api/draws/finished over the archive: every archived draw exactly
    once, newest first, and draws finished at the same time in ascending id
    order.
  */
  function FinishedList(finished: map<int, Draw>, counter: nat): (r: seq<FinishedView>)
    requires IssuedUpTo(finished, counter)
    ensures forall i :: 0 <= i < |r| ==> r[i].id in finished && r[i] == View(finished[r[i].id])
    ensures forall id :: id in finished ==> View(finished[id]) in r
    ensures ViewsOrdered(r)
  {
    var sorted := FinishedDrawsOf(finished, counter);
    var r := Views(sorted);
    ViewsKeepOrder(sorted);
    forall i | 0 <= i < |r| ensures r[i].id in finished && r[i] == View(finished[r[i].id]) {
      assert sorted[i] in sorted;
    }
    r
  }
}
