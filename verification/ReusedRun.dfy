/** What goes wrong when a run id is used again, for another suite, before the coordinator's last read. */
module ReusedRuns {
  import opened Redis
  import opened Models
  import opened Queue
  import opened Refinement
  import opened Steps
  import opened Runs
  import opened Refusal
  import opened Progress
  import opened Coordinator
  import L = Lifecycle

  const CASE_A := SAMPLE
  const CASE_B := SAMPLE.(id := "b")
  const SUITE_A: Suite := [CASE_A]
  const SUITE_B: Suite := [CASE_B]
  const RESULT_B := CaseResult("b", Passed, "w", 1, [], None)

  /** The run is created for one suite, deleted and created for another one, whose case is completed. */
  const REUSED: Trace := [
    At(0, Create(SUITE_A, 10.0, 1, 1, 0)),
    At(0, Delete),
    At(0, Create(SUITE_B, 10.0, 1, 1, 0)),
    At(0, Claim("t", 1000)),
    At(0, Complete("b", "t", RESULT_B))]

  const FOREIGN_REPORT := RunReport("r", 1, [RESULT_B, ErrorEntry("a", "missing result")], None)

  lemma DeliveriesPositive(db: Db, id: string)
    requires Good(db) && id in db.ready.m
    ensures db.meta.Meta? && db.meta.deliveries >= 1 && db.meta.deadline <= db.meta.expires && id in db.tasks.m
              && db.tasks.m[id].id == id
  {
    assert CaseOk(db, id);
  }

  lemma GrantFresh(db: Db, now: int, call: Call, id: string)
    requires Good(db) && call.Claim? && (forall x :: x in db.ready.m <==> x == id) && Attempts(db, id) == 0
    ensures var after := GrantOne(db, id, call.token, now + call.leaseMs);
            Good(after) && after.meta == db.meta && after.results.m == db.results.m
  {
    hide Good, Abs, L.Legal, L.Fire, SameBut;
    DeliveriesPositive(db, id);
    assert First(db.ready.m) in db.ready.m;
    FirstTimeInOrder(db);
    GrantOneStep(db, id, now, call.token, now + call.leaseMs);
  }

  /** A claim on an active run with one ready case, and none leased, hands that case out. */
  lemma FreshClaim(db: Db, now: int, call: Call, id: string)
    requires Good(db) && Expiry(db) && Seen(db, now) == db && Active(db, now) && call.Claim?
    requires (forall x :: x in db.ready.m <==> x == id) && db.leases.m == map[] && Attempts(db, id) == 0
    ensures Perform(db, now, call).1.Granted? && Perform(db, now, call).1.testCase.id == id
    ensures Perform(db, now, call).0.results.m == db.results.m
  {
    hide Touch, Good, GrantOne, PopLoop;
    DeliveriesPositive(db, id);
    assert Due(db.leases.m, now, BATCH) == [] && Reclaim(db, []) == db;
    assert First(db.ready.m) in db.ready.m;
    PopUnfolds(db, id, now, call.token, call.leaseMs, BATCH);
    GrantFresh(db, now, call, id);
    Settle(GrantOne(db, id, call.token, now + call.leaseMs), now);
  }

  lemma ReusedCreations()
    ensures ReplyOf(REUSED, 0) == Created && ReplyOf(REUSED, 2) == Created && Exec(REUSED[..2]) == EMPTY
  {
    assert REUSED[..0] == [] && Exec([]) == EMPTY;
    CreateStartsClean(REUSED, 0);
    ExecNext(REUSED, 1);
    CreateStartsClean(REUSED, 2);
  }

  /** A board of waiting cases without delivery: all are ready. */
  lemma FreshViews(db: Db, suite: Suite)
    requires Inv(db) && db.meta.Meta? && db.meta.suite == suite
    requires (forall x :: x in Abs(db) <==> Rank(suite, x) > 0)
    requires forall x :: x in Abs(db) ==> Abs(db)[x] == L.Waiting(0)
    ensures Good(db) && Expiry(db)
    ensures forall x :: x in db.ready.m <==> Rank(suite, x) > 0
    ensures forall x :: Attempts(db, x) == 0
  {
    forall x ensures (x in db.ready.m <==> Rank(suite, x) > 0) && Attempts(db, x) == 0 {
      assert CaseOk(db, x);
      if x in Abs(db) { assert Abs(db)[x] == L.Waiting(0); }
    }
  }

  /** What the second creation leaves. */
  lemma ReusedCreated() returns (db: Db)
    ensures db == Exec(REUSED[..3]) && Inv(db)
    ensures db.meta == Meta(SUITE_B, true, 10_000, 11_000, 1, 1, Some(11_000))
    ensures db.leases.m == map[] && db.results.m == map[]
    ensures forall x :: x in Abs(db) <==> Rank(SUITE_B, x) > 0
    ensures forall x :: x in Abs(db) ==> Abs(db)[x] == L.Waiting(0)
  {
    hide Exec, Perform, Inv, Abs, Rank;
    ReusedCreations();
    ExecNext(REUSED, 2);
    InvAlways(REUSED[..2]);
    assert REUSED[2].call.Create? && Seen(EMPTY, 0) == EMPTY;
    var reply;
    db, reply := CallOnNothing(EMPTY, 0, REUSED[2].call);
  }

  lemma ReusedFresh()
    ensures var db := Exec(REUSED[..3]);
      && Good(db) && Expiry(db) && Seen(db, 0) == db && Active(db, 0) && db.meta.expires > 0
      && (forall x :: x in db.ready.m <==> x == "b") && db.leases.m == map[] && db.results.m == map[]
      && Attempts(db, "b") == 0
  {
    hide Exec, Perform, Good, Expiry, Abs, Inv;
    var db := ReusedCreated();
    SeenAllOrNothing(db, 0);
    FreshViews(db, SUITE_B);
    RankAt(SUITE_B, 0);
    forall x ensures x in db.ready.m <==> x == "b" { assert Rank(SUITE_B, x) > 0 <==> x == "b"; }
  }

  lemma ActiveLater(db: Db, after: Db)
    requires Active(db, 0) && SamePlan(db.meta, after.meta) && after.meta.open == db.meta.open
    requires Inv(after) && after.meta.expires > 0
    ensures Active(after, 0) && Seen(after, 0) == after
  {
    SeenAllOrNothing(after, 0);
  }

  lemma ReusedCompletes()
    ensures ReplyOf(REUSED, 4) == Accepted && Exec(REUSED[..5]).results.m == map["b" := RESULT_B]
    ensures Seen(Exec(REUSED[..5]), 0) == Exec(REUSED[..5])
  {
    hide Exec, Perform, Good, Expiry, Seen, Active;
    ReusedFresh();
    var db, claim, complete := Exec(REUSED[..3]), REUSED[3].call, REUSED[4].call;
    InvAlways(REUSED[..3]);
    FreshClaim(db, 0, claim, "b");
    LeaseAfterGrant(db, 0, claim);
    var _, held, _ := CallAdvances(db, 0, claim);
    ExecNext(REUSED, 3);
    InvAlways(REUSED[..4]);
    ActiveLater(db, held);
    var _, done, reply := CallAdvances(held, 0, complete);
    ExecNext(REUSED, 4);
    AcceptedWrites(REUSED, 4);
    InvAlways(REUSED[..5]);
    SeenAllOrNothing(done, 0);
  }

  /** Without the condition of OneEachExactly the report can hold a case of another suite and more entries
      than cases. */
  lemma ReusedRunBreaks()
    ensures REUSED[0].call.Create? && REUSED[0].call.suite == SUITE_A && ReplyOf(REUSED, 0) == Created
    ensures Faithful(REUSED, 5, Some(0), [RESULT_B], SUITE_A, FOREIGN_REPORT)
    ensures |FOREIGN_REPORT.results| > |SUITE_A| && "b" in IdsOf(FOREIGN_REPORT.results)
    ensures !OneEach(SUITE_A, FOREIGN_REPORT) && !ReadsSuite(REUSED, 5, Some(0), SUITE_A)
  {
    hide Exec, Perform, ReplyOf, Seen;
    ReusedCreations();
    ReusedCompletes();
    RankAt(SUITE_A, 0);
    var entry := ErrorEntry("a", "missing result");
    assert IdsOf([RESULT_B]) == ["b"] && IdsOf(FOREIGN_REPORT.results) == ["b", "a"];
    assert SUITE_A[0].id == "a";
    assert Missing(SUITE_A, "missing result", entry);
    OneEachExactly(REUSED, 5, Some(0), [RESULT_B], SUITE_A, FOREIGN_REPORT);
  }
}
