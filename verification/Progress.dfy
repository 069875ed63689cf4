/** Runs wind down: a measure that every useful call lowers, bounds on hand-outs, the order of hand-outs,
    and what it means when a claim returns nothing. */
module Progress {
  import opened Redis
  import opened Models
  import opened Queue
  import opened Refinement
  import opened Steps
  import opened Runs
  import L = Lifecycle

  function Ids(suite: seq<Case>): seq<string> {
    seq(|suite|, i requires 0 <= i < |suite| => suite[i].id)
  }

  /** ids enumerates the cases of the board without repetition. */
  ghost predicate Lists(ids: seq<string>, b: L.Board) {
    && (forall i, j :: 0 <= i < j < |ids| ==> ids[i] != ids[j])
    && (forall i :: 0 <= i < |ids| ==> ids[i] in b)
    && (forall x :: x in b ==> x in ids)
  }

  lemma BoardFacts(db: Db)
    requires Good(db)
    ensures L.Bounded(Abs(db), db.meta.deliveries)
    ensures Lists(Ids(db.meta.suite), Abs(db))
    ensures L.Done(Abs(db)) == db.results.m.Keys
  {
    var suite, ids := db.meta.suite, Ids(db.meta.suite);
    forall x | x in Abs(db) ensures x in ids && (Abs(db)[x].Finished? <==> x in db.results.m) {
      assert CaseOk(db, x);
      assert ids[Rank(suite, x) - 1] == x;
    }
    forall x | x in Abs(db)
      ensures Abs(db)[x].Waiting? ==> 0 <= Abs(db)[x].n <= db.meta.deliveries
      ensures Abs(db)[x].Leased? ==> 1 <= Abs(db)[x].n <= db.meta.deliveries
    {
      assert CaseOk(db, x);
    }
    forall i | 0 <= i < |ids| ensures ids[i] in Abs(db) {
      assert Rank(suite, suite[i].id) > 0 && CaseOk(db, suite[i].id);
    }
    forall x | x in db.results.m ensures x in L.Done(Abs(db)) { assert CaseOk(db, x); }
  }

  // The measure

  /** What the unfinished cases of a run may still cost: deliveries left plus one each. */
  function Measure(db: Db): int {
    if db.meta.NoMeta? then 0 else L.Total(Abs(db), Ids(db.meta.suite), db.meta.deliveries + 1)
  }

  /** How many hand-outs the unfinished cases may still get. */
  function Budget(db: Db): int {
    if db.meta.NoMeta? then 0 else L.Total(Abs(db), Ids(db.meta.suite), db.meta.deliveries)
  }

  lemma {:induction false} WeightsCoverFinishes(arrows: seq<L.Arrow>)
    ensures L.Weights(arrows) == L.Finishes(arrows) + L.Grants(arrows)
  {
    if arrows != [] { WeightsCoverFinishes(arrows[1..]); }
  }

  lemma BoardFalls(b: L.Board, limit: int, now: int, arrows: seq<L.Arrow>, c: L.Board, ids: seq<string>)
    requires L.Follows(b, limit, now, arrows, c) && L.Bounded(b, limit) && Lists(ids, b)
    ensures L.Total(c, ids, limit + 1) + (|L.Done(c)| - |L.Done(b)|) + L.Grants(arrows) <= L.Total(b, ids, limit + 1)
    ensures L.Total(c, ids, limit) + L.Grants(arrows) <= L.Total(b, ids, limit)
    ensures |L.Done(c)| == |L.Done(b)| + L.Finishes(arrows)
  {
    L.MeasureFalls(b, limit, now, arrows, c, ids);
    L.FinishesCount(b, limit, now, arrows, c);
    WeightsCoverFinishes(arrows);
  }

  /** An accepted completion records exactly one result, for a case that had none. */
  lemma AcceptRecords(db: Db, now: int, call: Call)
    requires Inv(db) && call.Complete? && Perform(db, now, call).1 == Accepted
    ensures Seen(db, now) == db && call.id !in db.results.m
    ensures Perform(db, now, call).0.results.m == db.results.m[call.id := call.result]
    ensures |Perform(db, now, call).0.results.m| == |db.results.m| + 1
  {
    SeenAllOrNothing(db, now);
    HoldsIsLive(Seen(db, now), now, call.id, call.token);
    assert db.results.m[call.id := call.result].Keys == db.results.m.Keys + {call.id};
  }

  lemma Moves(db: Db, now: int, call: Call) returns (arrows: seq<L.Arrow>, after: Db, reply: Reply)
    requires Inv(db) && Seen(db, now).meta.Meta? && !call.Delete?
    ensures (after, reply) == Perform(db, now, call)
    ensures Good(db) && Good(after) && SamePlan(db.meta, after.meta)
    ensures L.Follows(Abs(db), db.meta.deliveries, now, arrows, Abs(after))
    ensures L.Grants(arrows) == if reply.Granted? then 1 else 0
  {
    arrows, after, reply := CallAdvances(db, now, call);
  }

  /** No call on a run raises the measure; it falls by at least one for a hand-out and for every result
      recorded, be it accepted (see AcceptRecords) or an exhaustion. */
  lemma MeasureFalls(db: Db, now: int, call: Call) returns (after: Db, reply: Reply)
    requires Inv(db) && Seen(db, now).meta.Meta? && !call.Delete?
    ensures (after, reply) == Perform(db, now, call) && after.meta.Meta?
    ensures Measure(after) + (|after.results.m| - |db.results.m|) + (if reply.Granted? then 1 else 0) <= Measure(db)
    ensures |after.results.m| >= |db.results.m|
    ensures Budget(after) + (if reply.Granted? then 1 else 0) <= Budget(db)
  {
    hide Perform, Seen, Good, Inv, Abs, Ids, Lists, L.Follows, L.Total, L.Done, L.Bounded, L.Grants;
    var arrows;
    arrows, after, reply := Moves(db, now, call);
    BoardFacts(db);
    BoardFacts(after);
    var b, c, ids, limit := Abs(db), Abs(after), Ids(db.meta.suite), db.meta.deliveries;
    BoardFalls(b, limit, now, arrows, c, ids);
    assert |after.results.m| == |L.Done(c)| && |db.results.m| == |L.Done(b)|;
  }

  /** The measure is never negative, and zero exactly when every case has its result. */
  lemma MeasureZero(db: Db)
    requires Inv(db) && db.meta.Meta?
    ensures Measure(db) >= 0 && Budget(db) >= 0
    ensures Measure(db) == 0 <==> db.results.m.Keys == db.tasks.m.Keys
  {
    BoardFacts(db);
    var ids := Ids(db.meta.suite);
    L.MeasureZero(Abs(db), db.meta.deliveries, ids);
    if forall i :: 0 <= i < |ids| ==> Abs(db)[ids[i]].Finished? {
      forall x | x in db.tasks.m ensures x in db.results.m {
        assert x in Abs(db);
        assert x in L.Done(Abs(db));
      }
    }
    if db.results.m.Keys == db.tasks.m.Keys {
      forall i | 0 <= i < |ids| ensures Abs(db)[ids[i]].Finished? { assert ids[i] in L.Done(Abs(db)); }
    }
    forall x | x in db.results.m ensures x in db.tasks.m { assert CaseOk(db, x); }
  }

  // Hand-outs of a run

  /** How many of the calls i .. j - 1 handed a case out. */
  function Jobs(t: Trace, i: nat, j: nat): nat
    requires i <= j <= |t|
    decreases j - i
  {
    if i == j then 0 else Jobs(t, i, j - 1) + if ReplyOf(t, j - 1).Granted? then 1 else 0
  }

  /** One call that does not create a run pays for its hand-out from the budget. */
  lemma BudgetPays(db: Db, now: int, call: Call)
    requires Inv(db) && Perform(db, now, call).1 != Created
    ensures 0 <= Budget(Perform(db, now, call).0) + (if Perform(db, now, call).1.Granted? then 1 else 0) <= Budget(db)
  {
    hide Perform, Seen, Good, Expiry, L.Total;
    CallKeepsInv(db, now, call);
    if db.meta.Meta? { MeasureZero(db); }
    if Seen(db, now).meta.NoMeta? || call.Delete? {
      var _, _ := CallOnNothing(db, now, call);
    } else {
      var after, _ := MeasureFalls(db, now, call);
      MeasureZero(after);
    }
  }

  lemma BudgetSign(db: Db)
    requires Inv(db)
    ensures Budget(db) >= 0
  {
    if db.meta.Meta? { MeasureZero(db); }
  }

  lemma {:induction false} BudgetCovers(t: Trace, i: nat, j: nat)
    requires i <= j <= |t| && forall k :: i <= k < j ==> ReplyOf(t, k) != Created
    ensures Jobs(t, i, j) + Budget(Exec(t[..j])) <= Budget(Exec(t[..i])) && Budget(Exec(t[..j])) >= 0
    decreases j - i
  {
    hide Perform, Exec, Inv, Budget;
    InvAlways(t[..j]);
    BudgetSign(Exec(t[..j]));
    if i < j {
      BudgetCovers(t, i, j - 1);
      InvAlways(t[..j - 1]);
      ExecNext(t, j - 1);
      BudgetPays(Exec(t[..j - 1]), t[j - 1].now, t[j - 1].call);
    }
  }

  lemma FreshBudget(db: Db, now: int, call: Call)
    requires Inv(db) && Perform(db, now, call).1 == Created
    ensures call.Create? && Budget(Perform(db, now, call).0) == |call.suite| * call.deliveries
  {
    if Seen(db, now).meta.Meta? && !call.Delete? {
      var _, _, _ := CallAdvances(db, now, call);
      assert false;
    } else {
      var after, _ := CallOnNothing(db, now, call);
      hide Perform, Inv;
      BoardFacts(after);
      L.TotalFresh(Abs(after), Ids(call.suite), call.deliveries);
    }
  }

  /** From one creation to the next, at most total * deliveries jobs are handed out. */
  lemma JobsAreBounded(t: Trace, c: nat, j: nat)
    requires c < j <= |t| && ReplyOf(t, c) == Created
    requires forall k :: c < k < j ==> ReplyOf(t, k) != Created
    ensures t[c].call.Create? && Jobs(t, c + 1, j) <= |t[c].call.suite| * t[c].call.deliveries
  {
    hide Perform, Exec, Inv, Budget;
    InvAlways(t[..c]);
    ExecNext(t, c);
    FreshBudget(Exec(t[..c]), t[c].now, t[c].call);
    BudgetCovers(t, c + 1, j);
  }

  // Order of hand-outs

  lemma RankAt(suite: Suite, i: nat)
    requires i < |suite|
    ensures Rank(suite, suite[i].id) == i + 1
  {
  }

  /** After any calls, the cases delivered at least once are a prefix of the suite, and a ready case has
      score 0 exactly when it was delivered before, its suite position otherwise. */
  lemma DeliveredPrefix(t: Trace)
    requires Exec(t).meta.Meta?
    ensures var db := Exec(t);
            && (forall i, j :: 0 <= i < j < |db.meta.suite| && Attempts(db, db.meta.suite[j].id) > 0
                 ==> Attempts(db, db.meta.suite[i].id) > 0)
            && (forall i :: 0 <= i < |db.meta.suite| && db.meta.suite[i].id in db.ready.m ==>
                 db.ready.m[db.meta.suite[i].id] == if Attempts(db, db.meta.suite[i].id) > 0 then 0 else i + 1)
  {
    var db := Exec(t);
    InvAlways(t);
    hide Exec;
    forall i, j | 0 <= i < j < |db.meta.suite| && Attempts(db, db.meta.suite[j].id) > 0
      ensures Attempts(db, db.meta.suite[i].id) > 0
    {
      RankAt(db.meta.suite, i);
      RankAt(db.meta.suite, j);
      assert InOrder(db, db.meta.suite[i].id, db.meta.suite[j].id);
    }
    forall i | 0 <= i < |db.meta.suite| && db.meta.suite[i].id in db.ready.m
      ensures db.ready.m[db.meta.suite[i].id] == if Attempts(db, db.meta.suite[i].id) > 0 then 0 else i + 1
    {
      RankAt(db.meta.suite, i);
      assert CaseOk(db, db.meta.suite[i].id);
    }
  }

  /** A case is handed out for the first time only when no case delivered before is left in ready; its
      delivery number is its count of deliveries, between 1 and the limit. */
  lemma FirstTimeComesLast(t: Trace, i: nat)
    requires i < |t| && ReplyOf(t, i).Granted?
    ensures var db := Exec(t[..i + 1]);
            && db.meta.Meta? && 1 <= ReplyOf(t, i).delivery <= db.meta.deliveries
            && ReplyOf(t, i).delivery == Attempts(db, ReplyOf(t, i).testCase.id)
            && (ReplyOf(t, i).delivery == 1 ==> forall x :: x in db.ready.m ==> Attempts(db, x) == 0)
  {
    InvAlways(t[..i]);
    ExecNext(t, i);
    var db, now, call := Exec(t[..i]), t[i].now, t[i].call;
    hide Exec;
    if Seen(db, now).meta.NoMeta? || call.Delete? {
      var _, _ := CallOnNothing(db, now, call);
      assert false;
    } else {
      var _, after, reply := CallAdvances(db, now, call);
      assert CaseOk(after, reply.testCase.id) && ViewOf(after, reply.testCase.id).n == reply.delivery;
    }
  }
}
