/** The claim lifecycle of a case as the architecture document draws it: one state per case and five
    arrows. Nothing here knows about the keys of a run. */
module Lifecycle {
  import opened Redis
  import opened Models

  /** n counts deliveries so far. */
  datatype CaseState =
    | Waiting(n: int)
    | Leased(n: int, token: string, expiry: int)
    | Finished(result: CaseResult)

  type Board = map<string, CaseState>

  datatype Arrow =
    | Grant(id: string, token: string, until: int)
    | Extend(id: string, token: string, until: int)
    | Lapse(id: string)
    | Accept(id: string, token: string, result: CaseResult)
    | Exhaust(id: string, result: CaseResult)

  /** The token owns a lease on the case that is still running at time now. */
  predicate Live(b: Board, id: string, token: string, now: int) {
    id in b && b[id].Leased? && b[id].token == token && b[id].expiry > now
  }

  /** Which arrows the lifecycle allows at time now when a case may be delivered at most limit times. */
  predicate Legal(b: Board, limit: int, now: int, a: Arrow) {
    a.id in b &&
    match a
    case Grant(id, _, _) => b[id].Waiting? && b[id].n < limit
    case Extend(id, token, _) => Live(b, id, token, now)
    case Lapse(id) => b[id].Leased? && b[id].expiry <= now
    case Accept(id, token, result) => Live(b, id, token, now) && result.caseId == id
    case Exhaust(id, result) =>
      && b[id].Waiting? && b[id].n == limit
      && result == CaseResult(id, Error, "queue", limit, [], Some("worker delivery limit exhausted"))
  }

  function Fire(b: Board, a: Arrow): Board
    requires a.id in b
    requires a.Grant? ==> b[a.id].Waiting?
    requires a.Extend? || a.Lapse? ==> b[a.id].Leased?
  {
    match a
    case Grant(id, token, until) => b[id := Leased(b[id].n + 1, token, until)]
    case Extend(id, token, until) => b[id := Leased(b[id].n, token, until)]
    case Lapse(id) => b[id := Waiting(b[id].n)]
    case Accept(id, _, result) => b[id := Finished(result)]
    case Exhaust(id, result) => b[id := Finished(result)]
  }

  /** The arrows, fired in order at time now, are all legal and lead from b to c. */
  ghost predicate Follows(b: Board, limit: int, now: int, arrows: seq<Arrow>, c: Board)
    decreases |arrows|
  {
    if arrows == [] then b == c
    else Legal(b, limit, now, arrows[0]) && Follows(Fire(b, arrows[0]), limit, now, arrows[1..], c)
  }

  lemma {:induction false} Chain(b: Board, limit: int, now: int, xs: seq<Arrow>, c: Board, ys: seq<Arrow>, d: Board)
    requires Follows(b, limit, now, xs, c) && Follows(c, limit, now, ys, d)
    ensures Follows(b, limit, now, xs + ys, d)
    decreases |xs|
  {
    if xs == [] {
      assert xs + ys == ys;
    } else {
      Chain(Fire(b, xs[0]), limit, now, xs[1..], c, ys, d);
      assert (xs + ys)[1..] == xs[1..] + ys;
    }
  }

  /** A terminal result is never overwritten or removed, and no case is added or lost. */
  lemma {:induction false} FinishedStays(b: Board, limit: int, now: int, arrows: seq<Arrow>, c: Board)
    requires Follows(b, limit, now, arrows, c)
    ensures b.Keys == c.Keys
    ensures forall id :: id in b && b[id].Finished? ==> c[id] == b[id]
    decreases |arrows|
  {
    if arrows != [] { FinishedStays(Fire(b, arrows[0]), limit, now, arrows[1..], c); }
  }

  /** A token that does not own a live lease does not get one back, unless it is granted anew. */
  lemma {:induction false} LostStays(b: Board, limit: int, now: int, arrows: seq<Arrow>, c: Board,
                                     id: string, token: string, later: int)
    requires Follows(b, limit, now, arrows, c)
    requires !Live(b, id, token, now) && now <= later
    requires forall i :: 0 <= i < |arrows| && arrows[i].Grant? ==> arrows[i].token != token
    ensures !Live(c, id, token, later)
    decreases |arrows|
  {
    if arrows != [] {
      assert arrows[0].Grant? ==> arrows[0].token != token;
      LostStays(Fire(b, arrows[0]), limit, now, arrows[1..], c, id, token, later);
    }
  }

  /** Without a grant of its own, a leased case was leased before, by the same token and delivery. */
  lemma {:induction false} LeaseOrigin(b: Board, limit: int, now: int, arrows: seq<Arrow>, c: Board, id: string)
    requires Follows(b, limit, now, arrows, c)
    requires forall i :: 0 <= i < |arrows| && arrows[i].Grant? ==> arrows[i].id != id
    requires id in c && c[id].Leased?
    ensures id in b && b[id].Leased? && b[id].token == c[id].token && b[id].n == c[id].n
    decreases |arrows|
  {
    if arrows != [] {
      assert arrows[0].Grant? ==> arrows[0].id != id;
      LeaseOrigin(Fire(b, arrows[0]), limit, now, arrows[1..], c, id);
    }
  }

  function Finishes(arrows: seq<Arrow>): nat {
    if arrows == [] then 0 else (if arrows[0].Accept? || arrows[0].Exhaust? then 1 else 0) + Finishes(arrows[1..])
  }

  ghost function Done(b: Board): set<string> {
    set id | id in b && b[id].Finished?
  }

  /** Every acceptance and exhaustion finishes one more case; no other arrow does. */
  lemma {:induction false} FinishesCount(b: Board, limit: int, now: int, arrows: seq<Arrow>, c: Board)
    requires Follows(b, limit, now, arrows, c)
    ensures |Done(c)| == |Done(b)| + Finishes(arrows)
    decreases |arrows|
  {
    if arrows != [] {
      var d := Fire(b, arrows[0]);
      if arrows[0].Accept? || arrows[0].Exhaust? {
        assert Done(d) == Done(b) + {arrows[0].id};
      } else {
        assert Done(d) == Done(b);
      }
      FinishesCount(d, limit, now, arrows[1..], c);
    }
  }

  /** A case that becomes finished does so by an acceptance or an exhaustion with just that result. */
  lemma {:induction false} FinishSource(b: Board, limit: int, now: int, arrows: seq<Arrow>, c: Board, id: string)
      returns (i: nat)
    requires Follows(b, limit, now, arrows, c) && id in b && id in c && !b[id].Finished? && c[id].Finished?
    ensures i < |arrows| && arrows[i].id == id && (arrows[i].Accept? || arrows[i].Exhaust?)
    ensures arrows[i].result == c[id].result
    ensures arrows[i].Exhaust? ==>
      c[id].result == CaseResult(id, Error, "queue", limit, [], Some("worker delivery limit exhausted"))
    decreases |arrows|
  {
    var d := Fire(b, arrows[0]);
    if d[id].Finished? {
      FinishedStays(d, limit, now, arrows[1..], c);
      i := 0;
    } else {
      i := FinishSource(d, limit, now, arrows[1..], c, id);
      i := i + 1;
    }
  }

  /** Delivery counts stay within the limit. */
  ghost predicate Bounded(b: Board, limit: int) {
    forall id :: id in b ==>
      (b[id].Waiting? ==> 0 <= b[id].n <= limit) && (b[id].Leased? ==> 1 <= b[id].n <= limit)
  }

  /** What an unfinished case still owes, out of k. */
  function Owed(c: CaseState, k: int): int {
    match c
    case Waiting(n) => k - n
    case Leased(n, _, _) => k - n
    case Finished(_) => 0
  }

  function Total(b: Board, ids: seq<string>, k: int): int {
    if ids == [] then 0
    else (if ids[0] in b then Owed(b[ids[0]], k) else 0) + Total(b, ids[1..], k)
  }

  lemma {:induction false} TotalUpdate(b: Board, ids: seq<string>, k: int, id: string, c: CaseState)
    requires id in b
    requires forall i, j :: 0 <= i < j < |ids| ==> ids[i] != ids[j]
    ensures Total(b[id := c], ids, k) == Total(b, ids, k) + if id in ids then Owed(c, k) - Owed(b[id], k) else 0
  {
    if ids != [] {
      TotalUpdate(b, ids[1..], k, id, c);
      assert id in ids <==> id == ids[0] || id in ids[1..];
    }
  }

  function Weight(a: Arrow): nat {
    if a.Grant? || a.Accept? || a.Exhaust? then 1 else 0
  }

  function Weights(arrows: seq<Arrow>): nat {
    if arrows == [] then 0 else Weight(arrows[0]) + Weights(arrows[1..])
  }

  function Grants(arrows: seq<Arrow>): nat {
    if arrows == [] then 0 else (if arrows[0].Grant? then 1 else 0) + Grants(arrows[1..])
  }

  /** Every grant, acceptance and exhaustion takes at least one unit off the measure Total(limit + 1),
      no other arrow adds to it; and every grant takes at least one unit off Total(limit). */
  lemma {:induction false} MeasureFalls(b: Board, limit: int, now: int, arrows: seq<Arrow>, c: Board, ids: seq<string>)
    requires Follows(b, limit, now, arrows, c) && Bounded(b, limit)
    requires forall i, j :: 0 <= i < j < |ids| ==> ids[i] != ids[j]
    requires forall id :: id in b ==> id in ids
    ensures Bounded(c, limit)
    ensures Total(c, ids, limit + 1) + Weights(arrows) <= Total(b, ids, limit + 1)
    ensures Total(c, ids, limit) + Grants(arrows) <= Total(b, ids, limit)
    decreases |arrows|
  {
    if arrows != [] {
      var a := arrows[0];
      var d := Fire(b, a);
      TotalUpdate(b, ids, limit + 1, a.id, d[a.id]);
      TotalUpdate(b, ids, limit, a.id, d[a.id]);
      assert d == b[a.id := d[a.id]];
      MeasureFalls(d, limit, now, arrows[1..], c, ids);
    }
  }

  /** The measure is zero exactly when every case has its result. */
  lemma {:induction false} MeasureZero(b: Board, limit: int, ids: seq<string>)
    requires Bounded(b, limit) && forall i :: 0 <= i < |ids| ==> ids[i] in b
    ensures Total(b, ids, limit + 1) >= 0 && Total(b, ids, limit) >= 0
    ensures Total(b, ids, limit + 1) == 0 <==> forall i :: 0 <= i < |ids| ==> b[ids[i]].Finished?
  {
    if ids != [] {
      MeasureZero(b, limit, ids[1..]);
      assert ids[0] in b;
      if Total(b, ids, limit + 1) == 0 {
        forall i | 0 <= i < |ids| ensures b[ids[i]].Finished? {
          if i > 0 { assert ids[i] == ids[1..][i - 1]; }
        }
      }
      if forall i :: 0 <= i < |ids| ==> b[ids[i]].Finished? {
        assert b[ids[0]].Finished?;
        forall i | 0 <= i < |ids[1..]| ensures b[ids[1..][i]].Finished? { assert ids[1..][i] == ids[i + 1]; }
      }
    }
  }

  lemma {:induction false} TotalFresh(b: Board, ids: seq<string>, k: int)
    requires forall i :: 0 <= i < |ids| ==> ids[i] in b && b[ids[i]] == Waiting(0)
    ensures Total(b, ids, k) == |ids| * k
  {
    if ids != [] {
      assert forall i :: 0 <= i < |ids[1..]| ==> ids[1..][i] == ids[i + 1];
      TotalFresh(b, ids[1..], k);
      assert ids[0] in b;
    }
  }
}
