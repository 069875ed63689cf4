/** What a claim without a job, a full count and a closed run mean to the worker that sees them. */
module Idle {
  import opened Redis
  import opened Sets
  import opened Models
  import opened Queue
  import opened Refinement
  import opened Steps
  import opened Progress
  import L = Lifecycle

  lemma {:induction false} LapsesFinish(ids: seq<string>)
    ensures L.Finishes(Lapses(ids)) == 0
  {
    if ids != [] {
      assert Lapses(ids)[1..] == Lapses(ids[1..]);
      LapsesFinish(ids[1..]);
    }
  }

  lemma {:induction false} ExhaustsFinish(ids: seq<string>, limit: int)
    ensures L.Finishes(Exhausts(ids, limit)) == |ids|
  {
    if ids != [] {
      assert Exhausts(ids, limit)[1..] == Exhausts(ids[1..], limit);
      ExhaustsFinish(ids[1..], limit);
    }
  }

  lemma {:induction false} FinishesPlus(xs: seq<L.Arrow>, ys: seq<L.Arrow>)
    ensures L.Finishes(xs + ys) == L.Finishes(xs) + L.Finishes(ys)
  {
    if xs == [] {
      assert xs + ys == ys;
    } else {
      assert (xs + ys)[1..] == xs[1..] + ys;
      FinishesPlus(xs[1..], ys);
    }
  }

  lemma NilArrowsFinish(lapsed: seq<string>, exhausted: seq<string>, limit: int, token: string, until: int)
    ensures L.Finishes(Lapses(lapsed) + PopArrows(exhausted, limit, NoJob, token, until)) == |exhausted|
  {
    LapsesFinish(lapsed);
    ExhaustsFinish(exhausted, limit);
    assert PopArrows(exhausted, limit, NoJob, token, until) == Exhausts(exhausted, limit);
    FinishesPlus(Lapses(lapsed), Exhausts(exhausted, limit));
  }

  lemma NilScript(db: Db, now: int, token: string, leaseMs: int)
      returns (lapsed: seq<string>, exhausted: seq<string>, arrows: seq<L.Arrow>, after: Db)
    requires Good(db) && Active(db, now) && ClaimScript(db, now, token, leaseMs).1 == NoJob
    ensures after == ClaimScript(db, now, token, leaseMs).0 && Good(after)
    ensures lapsed == Due(db.leases.m, now, BATCH)
    ensures L.Follows(Abs(db), db.meta.deliveries, now, arrows, Abs(after)) && L.Finishes(arrows) == |exhausted|
    ensures after.ready.m == map[] || |exhausted| == BATCH
    ensures db.ready.m != map[] || lapsed != [] ==> |exhausted| > 0
  {
    hide ClaimScript, Good, Expiry, Abs, L.Follows, Handed, PopArrows, Lapses;
    var reply;
    lapsed, exhausted, after, reply := ClaimRefines(db, now, token, leaseMs);
    arrows := Lapses(lapsed) + PopArrows(exhausted, db.meta.deliveries, NoJob, token, now + leaseMs);
    NilArrowsFinish(lapsed, exhausted, db.meta.deliveries, token, now + leaseMs);
  }

  lemma ClaimIsScript(db: Db, now: int, token: string, leaseMs: int)
    requires Inv(db) && Active(Seen(db, now), now)
    ensures Seen(db, now) == db && Good(db)
    ensures Perform(db, now, Claim(token, leaseMs)) == ClaimScript(db, now, token, leaseMs)
  {
    SeenAllOrNothing(db, now);
  }

  /** A claim without a job on an active run leaves nothing ready, or has recorded exactly one full batch
      of exhaustions; and it has recorded at least one if any case was ready or its lease had run out. */
  lemma NilClaim(db: Db, now: int, token: string, leaseMs: int) returns (after: Db)
    requires Inv(db) && Active(Seen(db, now), now) && Perform(db, now, Claim(token, leaseMs)).1 == NoJob
    ensures after == Perform(db, now, Claim(token, leaseMs)).0
    ensures after.ready.m == map[] || |after.results.m| == |db.results.m| + 100
    ensures (db.ready.m != map[] || exists x :: x in db.leases.m && db.leases.m[x] <= now)
      ==> |after.results.m| > |db.results.m|
  {
    hide Perform, ClaimScript, Good, Expiry, Abs, L.Follows, Due;
    ClaimIsScript(db, now, token, leaseMs);
    var lapsed, exhausted, arrows;
    lapsed, exhausted, arrows, after := NilScript(db, now, token, leaseMs);
    L.FinishesCount(Abs(db), db.meta.deliveries, now, arrows, Abs(after));
    BoardFacts(db);
    BoardFacts(after);
    assert |after.results.m| == |after.results.m.Keys| && |db.results.m| == |db.results.m.Keys|;
    if x :| x in db.leases.m && db.leases.m[x] <= now {
      if lapsed == [] { DueMisses(db.leases.m, now, BATCH, x); }
    }
  }

  lemma {:induction false} IdsCount(ids: seq<string>)
    requires forall i, j :: 0 <= i < j < |ids| ==> ids[i] != ids[j]
    ensures |set x | x in ids| == |ids|
  {
    if ids != [] {
      IdsCount(ids[1..]);
      assert (set x | x in ids) == {ids[0]} + set x | x in ids[1..];
    }
  }

  lemma Partition(db: Db)
    requires Good(db)
    ensures db.results.m.Keys == db.tasks.m.Keys <==> db.ready.m == map[] && db.leases.m == map[]
    ensures db.owners.m.Keys == db.leases.m.Keys
    ensures db.tasks.m.Keys == db.ready.m.Keys + db.leases.m.Keys + db.results.m.Keys
    ensures db.ready.m.Keys !! db.leases.m.Keys && db.ready.m.Keys !! db.results.m.Keys
    ensures db.leases.m.Keys !! db.results.m.Keys
  {
    forall x
      ensures x in db.owners.m <==> x in db.leases.m
      ensures x in db.tasks.m <==> x in db.ready.m || x in db.leases.m || x in db.results.m
      ensures !(x in db.ready.m && x in db.leases.m) && !(x in db.ready.m && x in db.results.m)
      ensures !(x in db.leases.m && x in db.results.m)
    {
      assert CaseOk(db, x);
    }
  }

  /** The results count reaches the number of cases exactly when every case has its result, and exactly
      when nothing is ready or leased. */
  lemma CountMeansAllDone(db: Db)
    requires Inv(db) && db.meta.Meta?
    ensures |db.results.m| <= |db.meta.suite|
    ensures |db.results.m| >= |db.meta.suite| <==> db.results.m.Keys == db.tasks.m.Keys
    ensures |db.results.m| >= |db.meta.suite| <==> db.ready.m == map[] && db.leases.m == map[]
  {
    BoardFacts(db);
    IdsCount(Ids(db.meta.suite));
    assert (set x | x in Ids(db.meta.suite)) == db.tasks.m.Keys;
    assert |db.results.m| == |db.results.m.Keys|;
    forall x ensures x in db.results.m ==> x in db.tasks.m { assert CaseOk(db, x); }
    SubsetSize(db.results.m.Keys, db.tasks.m.Keys);
    Partition(db);
  }

  lemma WholeMilliseconds(deadline: int, micros: int)
    ensures deadline as real <= micros as real / 1000.0 <==> deadline <= micros / 1000
  {
    assert micros as real / 1000.0 * 1000.0 == micros as real;
    assert deadline as real <= micros as real / 1000.0 <==> deadline * 1000 <= micros;
  }

  /** The client's comparison of the whole deadline with fractional milliseconds agrees with the scripts'
      comparison with the rounded-down clock, at the same state and instant. */
  lemma IsOpenIsActive(db: Db, micros: int)
    ensures IsOpen(db, micros) <==> Active(Seen(db, micros / 1000), micros / 1000)
  {
    var seen := Seen(db, micros / 1000);
    if seen.meta.Meta? { WholeMilliseconds(seen.meta.deadline, micros); }
  }
}
