/** The seven Redis keys of a run always hold exactly one lifecycle state per case, and every script
    moves them along lifecycle arrows. */
module Refinement {
  import opened Redis
  import opened Models
  import opened Queue
  import L = Lifecycle

  // The invariant of the keys

  /** Everything the keys say about one case id. */
  datatype View = View(ready: Option<int>, lease: Option<int>, owner: Option<string>, n: int,
                       result: Option<CaseResult>)

  const BLANK := View(None, None, None, 0, None)

  function ViewOf(db: Db, id: string): View {
    View(HGet(db.ready, id), HGet(db.leases, id), HGet(db.owners, id), Attempts(db, id), HGet(db.results, id))
  }

  /** The position of a case in its suite, counted from 1; 0 for a foreign id. */
  function Rank(suite: seq<Case>, id: string): (r: nat)
    ensures r <= |suite|
    ensures r > 0 ==> suite[r - 1].id == id
    ensures r == 0 ==> forall i :: 0 <= i < |suite| ==> suite[i].id != id
  {
    if suite == [] then 0
    else if suite[|suite| - 1].id == id then |suite|
    else Rank(suite[..|suite| - 1], id)
  }

  /** A case is in exactly one of ready, leases and results, and in owners when it is in leases. It waits
      with score 0 when it was delivered before and with its suite position otherwise. An exhaustion
      error names the full number of deliveries. */
  predicate ViewOk(v: View, id: string, rank: int, limit: int) {
    match v
    case View(Some(score), None, None, n, None) => 0 <= n <= limit && score == (if n == 0 then rank else 0)
    case View(None, Some(_), Some(_), n, None) => 1 <= n <= limit
    case View(None, None, None, n, Some(result)) =>
      result.caseId == id && (1 <= n <= limit || (n == limit + 1 && result == Exhausted(id, limit)))
    case _ => false
  }

  ghost predicate CaseOk(db: Db, id: string)
    requires db.meta.Meta?
  {
    var rank := Rank(db.meta.suite, id);
    if rank == 0 then (id !in db.tasks.m && ViewOf(db, id) == BLANK)
    else (id in db.tasks.m && db.tasks.m[id] == db.meta.suite[rank - 1]
          && ViewOk(ViewOf(db, id), id, rank, db.meta.deliveries))
  }

  /** y is not delivered before x, when x comes first in the suite. */
  ghost predicate InOrder(db: Db, x: string, y: string)
    requires db.meta.Meta?
  {
    0 < Rank(db.meta.suite, x) < Rank(db.meta.suite, y) && Attempts(db, y) > 0 ==> Attempts(db, x) > 0
  }

  /** The cases delivered at least once are a prefix of the suite. */
  ghost predicate Prefix(db: Db)
    requires db.meta.Meta?
  {
    forall x, y :: InOrder(db, x, y)
  }

  ghost predicate Good(db: Db) {
    && db.meta.Meta?
    && db.meta.deliveries >= 1 && db.meta.total == |db.meta.suite| && db.meta.deadline <= db.meta.expires
    && (forall id :: CaseOk(db, id))
    && Prefix(db)
  }

  /** An existing key carries the expiry e and no other; a missing one carries none. */
  predicate KeyOk<V>(h: Hash<V>, e: int) {
    h.px == if h.m == map[] then None else Some(e)
  }

  /** All keys expire together, at the instant fixed at creation. */
  predicate Expiry(db: Db)
    requires db.meta.Meta?
  {
    var e := db.meta.expires;
    db.meta.px == Some(e) && KeyOk(db.tasks, e) && KeyOk(db.ready, e) && KeyOk(db.leases, e)
    && KeyOk(db.owners, e) && KeyOk(db.attempts, e) && KeyOk(db.results, e)
  }

  /** What holds after every call: nothing without meta, and with it the case and expiry invariants. */
  ghost predicate Inv(db: Db) {
    if db.meta.NoMeta? then db == EMPTY else Good(db) && Expiry(db)
  }

  // The abstraction

  function StateOf(v: View): L.CaseState {
    if v.result.Some? then L.Finished(v.result.value)
    else if v.lease.Some? && v.owner.Some? then L.Leased(v.n, v.owner.value, v.lease.value)
    else L.Waiting(v.n)
  }

  function Abs(db: Db): L.Board {
    map id | id in db.tasks.m :: StateOf(ViewOf(db, id))
  }

  // Framing: one command sequence changes the view of one case

  ghost predicate SameBut(db: Db, after: Db, id: string, v: View) {
    && after.meta == db.meta && after.tasks.m == db.tasks.m
    && forall x :: ViewOf(after, x) == if x == id then v else ViewOf(db, x)
  }

  lemma SameButMeta(db: Db, after: Db, id: string, v: View)
    requires SameBut(db, after, id, v)
    ensures after.meta == db.meta
  {
  }

  lemma ChangedCases(db: Db, after: Db, id: string, v: View)
    requires Good(db) && id in db.tasks.m && SameBut(db, after, id, v)
    requires ViewOk(v, id, Rank(db.meta.suite, id), db.meta.deliveries)
    ensures forall x :: CaseOk(after, x)
  {
    assert CaseOk(db, id);
    forall x ensures CaseOk(after, x) {
      assert CaseOk(db, x);
      assert ViewOf(after, x) == if x == id then v else ViewOf(db, x);
    }
  }

  lemma ChangedPrefix(db: Db, after: Db, id: string, v: View)
    requires db.meta.Meta? && Prefix(db) && SameBut(db, after, id, v)
    requires v.n >= Attempts(db, id)
    requires Attempts(db, id) <= 0 < v.n ==>
      forall x :: 0 < Rank(db.meta.suite, x) < Rank(db.meta.suite, id) ==> Attempts(db, x) > 0
    ensures Prefix(after)
  {
    forall x, y ensures InOrder(after, x, y) {
      assert InOrder(db, x, y) && InOrder(db, x, id);
      assert ViewOf(after, x).n == if x == id then v.n else ViewOf(db, x).n;
      assert ViewOf(after, y).n == if y == id then v.n else ViewOf(db, y).n;
    }
  }

  lemma ChangedBoard(db: Db, after: Db, id: string, v: View)
    requires id in db.tasks.m && SameBut(db, after, id, v)
    ensures Abs(after) == Abs(db)[id := StateOf(v)]
  {
    forall x | x in Abs(after) ensures Abs(after)[x] == Abs(db)[id := StateOf(v)][x] {
      assert ViewOf(after, x) == if x == id then v else ViewOf(db, x);
    }
  }

  lemma Changed(db: Db, after: Db, id: string, v: View)
    requires Good(db) && id in db.tasks.m && SameBut(db, after, id, v)
    requires ViewOk(v, id, Rank(db.meta.suite, id), db.meta.deliveries)
    requires v.n >= Attempts(db, id)
    requires Attempts(db, id) <= 0 < v.n ==>
      forall x :: 0 < Rank(db.meta.suite, x) < Rank(db.meta.suite, id) ==> Attempts(db, x) > 0
    ensures Good(after) && Abs(after) == Abs(db)[id := StateOf(v)]
  {
    ChangedCases(db, after, id, v);
    ChangedPrefix(db, after, id, v);
    ChangedBoard(db, after, id, v);
  }

  lemma ReclaimOneStep(db: Db, id: string, now: int)
    requires Good(db) && id in db.leases.m && db.leases.m[id] <= now
    ensures var after := ReclaimOne(db, id);
            && Good(after)
            && SameBut(db, after, id, View(Some(0), None, None, Attempts(db, id), None))
            && L.Legal(Abs(db), db.meta.deliveries, now, L.Lapse(id))
            && Abs(after) == L.Fire(Abs(db), L.Lapse(id))
  {
    assert CaseOk(db, id);
    Changed(db, ReclaimOne(db, id), id, View(Some(0), None, None, Attempts(db, id), None));
  }

  lemma ExhaustOneStep(db: Db, id: string, now: int)
    requires Good(db) && id in db.ready.m && Attempts(db, id) + 1 > db.meta.deliveries
    ensures var after := ExhaustOne(db, id);
            var arrow := L.Exhaust(id, Exhausted(id, db.meta.deliveries));
            && Good(after)
            && SameBut(db, after, id, View(None, None, None, Attempts(db, id) + 1, Some(arrow.result)))
            && L.Legal(Abs(db), db.meta.deliveries, now, arrow)
            && Abs(after) == L.Fire(Abs(db), arrow)
  {
    assert CaseOk(db, id);
    Changed(db, ExhaustOne(db, id), id,
            View(None, None, None, Attempts(db, id) + 1, Some(Exhausted(id, db.meta.deliveries))));
  }

  /** The first ready case, when it was never delivered, comes right after the delivered ones. */
  lemma FirstTimeInOrder(db: Db)
    requires Good(db) && db.ready.m != map[] && Attempts(db, First(db.ready.m)) == 0
    ensures forall x :: 0 < Rank(db.meta.suite, x) < Rank(db.meta.suite, First(db.ready.m)) ==> Attempts(db, x) > 0
    ensures forall x :: x in db.ready.m ==> Attempts(db, x) == 0
  {
    var id := First(db.ready.m);
    assert CaseOk(db, id);
    forall x | 0 < Rank(db.meta.suite, x) < Rank(db.meta.suite, id) ensures Attempts(db, x) > 0 {
      assert CaseOk(db, x);
      assert x in db.ready.m ==> Before(db.ready.m, id, x);
    }
    forall x | x in db.ready.m ensures Attempts(db, x) == 0 {
      assert CaseOk(db, x);
      assert x != id ==> Before(db.ready.m, id, x);
    }
  }

  lemma GrantOneView(db: Db, id: string, token: string, until: int)
    requires HGet(db.results, id) == None
    ensures SameBut(db, GrantOne(db, id, token, until), id,
                    View(None, Some(until), Some(token), Attempts(db, id) + 1, None))
  {
  }

  lemma GrantLegal(db: Db, id: string, now: int, token: string, until: int)
    requires Good(db) && id in db.ready.m && Attempts(db, id) + 1 <= db.meta.deliveries
    ensures L.Legal(Abs(db), db.meta.deliveries, now, L.Grant(id, token, until))
    ensures Abs(db)[id] == L.Waiting(Attempts(db, id)) && HGet(db.results, id) == None
    ensures id in db.tasks.m
  {
    assert CaseOk(db, id);
  }

  lemma GrantFires(b: L.Board, n: int, id: string, token: string, until: int)
    requires id in b && b[id] == L.Waiting(n)
    ensures L.Fire(b, L.Grant(id, token, until)) == b[id := L.Leased(n + 1, token, until)]
  {
  }

  lemma GrantOneStep(db: Db, id: string, now: int, token: string, until: int)
    requires Good(db) && id in db.ready.m && Attempts(db, id) + 1 <= db.meta.deliveries
    requires Attempts(db, id) == 0 ==>
      forall x :: 0 < Rank(db.meta.suite, x) < Rank(db.meta.suite, id) ==> Attempts(db, x) > 0
    ensures var after := GrantOne(db, id, token, until);
            var arrow := L.Grant(id, token, until);
            && Good(after)
            && SameBut(db, after, id, View(None, Some(until), Some(token), Attempts(db, id) + 1, None))
            && L.Legal(Abs(db), db.meta.deliveries, now, arrow)
            && Abs(after) == L.Fire(Abs(db), arrow)
  {
    GrantLegal(db, id, now, token, until);
    GrantOneView(db, id, token, until);
    var v := View(None, Some(until), Some(token), Attempts(db, id) + 1, None);
    assert ViewOk(v, id, Rank(db.meta.suite, id), db.meta.deliveries) by { assert CaseOk(db, id); }
    Changed(db, GrantOne(db, id, token, until), id, v);
    GrantFires(Abs(db), Attempts(db, id), id, token, until);
  }

  // TOUCH leaves the data alone and fixes every expiry

  /** Same members in every key and same plan; expiries may differ. */
  predicate SameData(db: Db, after: Db) {
    && db.meta.Meta? && after.meta.Meta? && after.meta == db.meta.(px := after.meta.px)
    && after.tasks.m == db.tasks.m && after.ready.m == db.ready.m && after.leases.m == db.leases.m
    && after.owners.m == db.owners.m && after.attempts.m == db.attempts.m && after.results.m == db.results.m
  }

  lemma SameDataGood(db: Db, after: Db)
    requires SameData(db, after) && Good(db)
    ensures Good(after) && Abs(after) == Abs(db)
  {
    forall x ensures ViewOf(after, x) == ViewOf(db, x) && CaseOk(after, x) { assert CaseOk(db, x); }
    forall x, y ensures InOrder(after, x, y) {
      assert InOrder(db, x, y);
      assert Attempts(after, x) == Attempts(db, x) && Attempts(after, y) == Attempts(db, y);
    }
  }

  lemma TouchSets(db: Db, now: int)
    requires db.meta.Meta? && db.meta.expires > now
    ensures SameData(db, Touch(db, now)) && Expiry(Touch(db, now))
  {
  }

  // CLAIM

  function Lapses(ids: seq<string>): seq<L.Arrow> {
    seq(|ids|, i requires 0 <= i < |ids| => L.Lapse(ids[i]))
  }

  function Exhausts(ids: seq<string>, limit: int): seq<L.Arrow> {
    seq(|ids|, i requires 0 <= i < |ids| => L.Exhaust(ids[i], Exhausted(ids[i], limit)))
  }

  lemma StillDue(db: Db, next: Db, ids: seq<string>, now: int)
    requires ids != [] && Distinct(ids)
    requires forall i :: 0 <= i < |ids| ==> ids[i] in db.leases.m && db.leases.m[ids[i]] <= now
    requires SameBut(db, next, ids[0], View(Some(0), None, None, Attempts(db, ids[0]), None))
    ensures Distinct(ids[1..])
    ensures forall i :: 0 <= i < |ids[1..]| ==> ids[1..][i] in next.leases.m && next.leases.m[ids[1..][i]] <= now
  {
    forall i | 0 <= i < |ids[1..]| ensures ids[1..][i] in next.leases.m && next.leases.m[ids[1..][i]] <= now {
      assert ids[1..][i] == ids[i + 1] != ids[0];
      assert ViewOf(next, ids[i + 1]) == ViewOf(db, ids[i + 1]);
    }
  }

  lemma ReclaimedView(db: Db, next: Db, after: Db, ids: seq<string>, x: string)
    requires ids != []
    requires SameBut(db, next, ids[0], View(Some(0), None, None, Attempts(db, ids[0]), None))
    requires ViewOf(after, x) == if x in ids[1..] then View(Some(0), None, None, Attempts(next, x), None)
                                 else ViewOf(next, x)
    ensures ViewOf(after, x) == if x in ids then View(Some(0), None, None, Attempts(db, x), None) else ViewOf(db, x)
  {
    hide HGet;
    assert x in ids <==> x == ids[0] || x in ids[1..];
    assert ViewOf(next, x) == if x == ids[0] then View(Some(0), None, None, Attempts(db, x), None) else ViewOf(db, x);
  }

  /** The reclaim loop: every due case goes back to ready with score 0, nothing else changes. */
  lemma {:induction false} ReclaimRefines(db: Db, ids: seq<string>, now: int)
    requires Good(db) && Distinct(ids)
    requires forall i :: 0 <= i < |ids| ==> ids[i] in db.leases.m && db.leases.m[ids[i]] <= now
    ensures var after := Reclaim(db, ids);
            && after.meta == db.meta && Good(after)
            && L.Follows(Abs(db), db.meta.deliveries, now, Lapses(ids), Abs(after))
    ensures forall x :: ViewOf(Reclaim(db, ids), x) ==
              if x in ids then View(Some(0), None, None, Attempts(db, x), None) else ViewOf(db, x)
    decreases |ids|
  {
    hide Good, SameBut, ViewOf, Abs, ReclaimOne, Attempts;
    if ids != [] {
      var id, next := ids[0], ReclaimOne(db, ids[0]);
      ReclaimOneStep(db, id, now);
      SameButMeta(db, next, id, View(Some(0), None, None, Attempts(db, id), None));
      StillDue(db, next, ids, now);
      ReclaimRefines(next, ids[1..], now);
      assert Lapses(ids)[1..] == Lapses(ids[1..]);
      forall x ensures ViewOf(Reclaim(db, ids), x) ==
              if x in ids then View(Some(0), None, None, Attempts(db, x), None) else ViewOf(db, x) {
        ReclaimedView(db, next, Reclaim(db, ids), ids, x);
      }
    }
  }

  /** The arrows of the pop loop: exhaustions, then the grant if there is one. */
  function PopArrows(exhausted: seq<string>, limit: int, reply: Reply, token: string, until: int): seq<L.Arrow> {
    Exhausts(exhausted, limit) + if reply.Granted? then [L.Grant(reply.testCase.id, token, until)] else []
  }

  lemma Settle(db: Db, now: int)
    requires Good(db) && db.meta.expires > now
    ensures var after := Touch(db, now);
            && SameData(db, after) && Expiry(after) && Good(after) && Abs(after) == Abs(db)
  {
    TouchSets(db, now);
    SameDataGood(db, Touch(db, now));
  }

  lemma GoodHasMeta(db: Db)
    requires Good(db)
    ensures db.meta.Meta?
  {
  }

  lemma SameViews(db: Db, after: Db, x: string)
    requires SameData(db, after)
    ensures ViewOf(after, x) == ViewOf(db, x)
  {
  }

  /** A case with anything in the keys is a task of the suite. */
  lemma ViewedTask(db: Db, id: string)
    requires Good(db) && ViewOf(db, id) != BLANK
    ensures id in db.tasks.m && db.tasks.m[id].id == id && db.tasks.m[id] in db.meta.suite
  {
    assert CaseOk(db, id);
  }

  /** A single legal arrow is a sequence of legal arrows. */
  ghost predicate Follows1(b: L.Board, limit: int, now: int, a: L.Arrow, c: L.Board)
    ensures Follows1(b, limit, now, a, c) ==> L.Follows(b, limit, now, [a], c)
  {
    L.Legal(b, limit, now, a) && L.Fire(b, a) == c
  }

  lemma GrantSettles(db: Db, id: string, now: int, token: string, until: int)
      returns (after: Db)
    requires Good(db) && db.meta.expires > now
    requires id in db.ready.m && Attempts(db, id) + 1 <= db.meta.deliveries
    requires Attempts(db, id) == 0 ==>
      forall x :: 0 < Rank(db.meta.suite, x) < Rank(db.meta.suite, id) ==> Attempts(db, x) > 0
    ensures after == Touch(GrantOne(db, id, token, until), now)
    ensures Good(after) && Expiry(after) && after.meta == db.meta.(px := after.meta.px)
    ensures L.Follows(Abs(db), db.meta.deliveries, now, [L.Grant(id, token, until)], Abs(after))
    ensures forall x :: ViewOf(after, x) ==
              if x == id then View(None, Some(until), Some(token), Attempts(db, id) + 1, None) else ViewOf(db, x)
    ensures id in after.tasks.m && after.tasks.m[id].id == id && after.tasks.m[id] in db.meta.suite
    ensures after.tasks.m == db.tasks.m
  {
    hide Good, Expiry, ViewOf, Abs, GrantOne, Touch, Attempts, Rank;
    var granted := GrantOne(db, id, token, until);
    after := Touch(granted, now);
    assert db.meta.Meta? by { GoodHasMeta(db); }
    GrantOneStep(db, id, now, token, until);
    Settle(granted, now);
    assert Follows1(Abs(db), db.meta.deliveries, now, L.Grant(id, token, until), Abs(after));
    var v := View(None, Some(until), Some(token), Attempts(db, id) + 1, None);
    forall x ensures ViewOf(after, x) == if x == id then v else ViewOf(db, x) {
      SameViews(granted, after, x);
      assert ViewOf(granted, x) == if x == id then v else ViewOf(db, x);
    }
    ViewedTask(after, id);
  }

  /** The granted case is leased with this token and counted; a case is handed out for the first time
      only when no case delivered before is left in ready. */
  ghost predicate Handed(suite: seq<Case>, token: string, until: int, after: Db, testCase: Case, delivery: int) {
    && (var rank := Rank(suite, testCase.id); rank > 0 && suite[rank - 1] == testCase)
    && ViewOf(after, testCase.id) == View(None, Some(until), Some(token), delivery, None)
    && (delivery == 1 ==> forall x :: x in after.ready.m ==> Attempts(after, x) == 0)
  }

  /** What the pop loop did: it granted the first deliverable ready case and recorded an exhaustion for
      every one it met before; without a grant it ran out of ready cases or of rounds. */
  ghost predicate Popped(meta: MetaKey, b: L.Board, now: int, token: string, until: int, rounds: nat,
                         exhausted: seq<string>, after: Db, reply: Reply)
    requires meta.Meta?
  {
    && Good(after) && Expiry(after) && after.meta == meta.(px := after.meta.px)
    && L.Follows(b, meta.deliveries, now, PopArrows(exhausted, meta.deliveries, reply, token, until), Abs(after))
    && |exhausted| <= rounds
    && (reply.Granted? || reply.NoJob?)
    && (reply.NoJob? ==> after.ready.m == map[] || |exhausted| == rounds)
    && (reply.Granted? ==> Handed(meta.suite, token, until, after, reply.testCase, reply.delivery))
  }

  lemma GrantHands(db: Db, id: string, token: string, until: int, after: Db)
    requires Good(db) && Good(after) && after.meta.suite == db.meta.suite && after.tasks.m == db.tasks.m
    requires id in db.ready.m && id in after.tasks.m && after.tasks.m[id].id == id
    requires Attempts(db, id) == 0 ==> forall x :: x in db.ready.m ==> Attempts(db, x) == 0
    requires forall x :: ViewOf(after, x) ==
              if x == id then View(None, Some(until), Some(token), Attempts(db, id) + 1, None) else ViewOf(db, x)
    ensures Handed(db.meta.suite, token, until, after, after.tasks.m[id], Attempts(db, id) + 1)
  {
    assert CaseOk(db, id);
    forall x | x in after.ready.m && Attempts(db, id) == 0 ensures Attempts(after, x) == 0 {
      assert ViewOf(after, x)
        == if x == id then View(None, Some(until), Some(token), Attempts(db, id) + 1, None) else ViewOf(db, x);
    }
  }

  lemma GrantPops(db: Db, id: string, now: int, token: string, until: int, rounds: nat)
    returns (after: Db, reply: Reply)
    requires Good(db) && db.meta.expires > now
    requires db.ready.m != map[] && id == First(db.ready.m) && Attempts(db, id) + 1 <= db.meta.deliveries
    ensures after == Touch(GrantOne(db, id, token, until), now)
    ensures id in db.tasks.m && reply == Granted(db.tasks.m[id], Attempts(db, id) + 1)
    ensures Popped(db.meta, Abs(db), now, token, until, rounds, [], after, reply)
  {
    hide Good, Expiry, ViewOf, Abs, GrantOne, Touch, Attempts, Rank, First, Handed, L.Follows;
    GoodHasMeta(db);
    if Attempts(db, id) == 0 { FirstTimeInOrder(db); }
    after := GrantSettles(db, id, now, token, until);
    reply := Granted(after.tasks.m[id], Attempts(db, id) + 1);
    assert PopArrows([], db.meta.deliveries, reply, token, until) == [L.Grant(id, token, until)];
    GrantHands(db, id, token, until, after);
  }

  lemma NothingPops(db: Db, now: int, token: string, until: int, rounds: nat)
    requires Good(db) && db.meta.expires > now && (rounds == 0 || db.ready.m == map[])
    ensures Popped(db.meta, Abs(db), now, token, until, rounds, [], Touch(db, now), NoJob)
  {
    hide Good, Expiry, Touch;
    GoodHasMeta(db);
    Settle(db, now);
  }

  lemma ReadyTask(db: Db, id: string)
    requires Good(db) && id in db.ready.m
    ensures id in db.tasks.m
  {
    assert CaseOk(db, id);
  }

  lemma PopUnfolds(db: Db, id: string, now: int, token: string, leaseMs: int, rounds: nat)
    requires db.meta.Meta? && rounds > 0 && db.ready.m != map[] && id == First(db.ready.m) && id in db.tasks.m
    ensures PopLoop(db, now, token, leaseMs, rounds) ==
              if Attempts(db, id) + 1 > db.meta.deliveries then
                PopLoop(ExhaustOne(db, id), now, token, leaseMs, rounds - 1)
              else
                (Touch(GrantOne(db, id, token, now + leaseMs), now), Granted(db.tasks.m[id], Attempts(db, id) + 1))
  {
  }

  lemma ConsPopArrows(id: string, rest: seq<string>, limit: int, reply: Reply, token: string, until: int)
    ensures PopArrows([id] + rest, limit, reply, token, until) != []
    ensures PopArrows([id] + rest, limit, reply, token, until)[0] == L.Exhaust(id, Exhausted(id, limit))
    ensures PopArrows([id] + rest, limit, reply, token, until)[1..] == PopArrows(rest, limit, reply, token, until)
  {
  }

  lemma ExhaustPops(db: Db, id: string, now: int, token: string, leaseMs: int, rounds: nat)
      returns (exhausted: seq<string>, after: Db, reply: Reply)
    requires Good(db) && db.meta.expires > now && rounds > 0
    requires id in db.ready.m && Attempts(db, id) + 1 > db.meta.deliveries
    ensures ExhaustOne(db, id).meta == db.meta
    ensures (after, reply) == PopLoop(ExhaustOne(db, id), now, token, leaseMs, rounds - 1)
    ensures Popped(db.meta, Abs(db), now, token, now + leaseMs, rounds, exhausted, after, reply) && |exhausted| > 0
    decreases rounds, 0
  {
    hide Good, Rank, ViewOf, Handed, Expiry, PopLoop, PopArrows;
    ExhaustOneStep(db, id, now);
    var rest;
    rest, after, reply := PopRefines(ExhaustOne(db, id), now, token, leaseMs, rounds - 1);
    exhausted := [id] + rest;
    ConsPopArrows(id, rest, db.meta.deliveries, reply, token, now + leaseMs);
  }

  lemma {:induction false} PopRefines(db: Db, now: int, token: string, leaseMs: int, rounds: nat)
      returns (exhausted: seq<string>, after: Db, reply: Reply)
    requires Good(db) && db.meta.expires > now
    ensures (after, reply) == PopLoop(db, now, token, leaseMs, rounds)
    ensures Popped(db.meta, Abs(db), now, token, now + leaseMs, rounds, exhausted, after, reply)
    ensures db.ready.m != map[] && rounds > 0 && reply.NoJob? ==> |exhausted| > 0
    decreases rounds, 1
  {
    hide Good, Popped, Touch, First, GrantOne, ExhaustOne;
    GoodHasMeta(db);
    if rounds == 0 || db.ready.m == map[] {
      exhausted, after, reply := [], Touch(db, now), NoJob;
      NothingPops(db, now, token, now + leaseMs, rounds);
    } else {
      var id := First(db.ready.m);
      ReadyTask(db, id);
      PopUnfolds(db, id, now, token, leaseMs, rounds);
      if Attempts(db, id) + 1 > db.meta.deliveries {
        exhausted, after, reply := ExhaustPops(db, id, now, token, leaseMs, rounds);
      } else {
        exhausted := [];
        after, reply := GrantPops(db, id, now, token, now + leaseMs, rounds);
      }
    }
  }

  /** One CLAIM on an active run: every lapsed case is the reclaim batch, then the pop loop. */
  lemma ClaimRefines(db: Db, now: int, token: string, leaseMs: int)
      returns (lapsed: seq<string>, exhausted: seq<string>, after: Db, reply: Reply)
    requires Good(db) && Active(db, now)
    ensures (after, reply) == ClaimScript(db, now, token, leaseMs)
    ensures lapsed == Due(db.leases.m, now, BATCH)
    ensures Good(after) && Expiry(after) && after.meta == db.meta.(px := after.meta.px)
    ensures |lapsed| <= BATCH && |exhausted| <= BATCH
    ensures L.Follows(Abs(db), db.meta.deliveries, now,
              Lapses(lapsed) + PopArrows(exhausted, db.meta.deliveries, reply, token, now + leaseMs), Abs(after))
    ensures reply.Granted? || reply.NoJob?
    ensures reply.NoJob? ==> after.ready.m == map[] || |exhausted| == BATCH
    ensures reply.NoJob? && (db.ready.m != map[] || lapsed != []) ==> |exhausted| > 0
    ensures reply.Granted? ==> Handed(db.meta.suite, token, now + leaseMs, after, reply.testCase, reply.delivery)
  {
    hide Rank, Handed, Expiry, PopArrows, PopLoop;
    lapsed := Due(db.leases.m, now, BATCH);
    DueMembers(db.leases.m, now, BATCH);
    forall i | 0 <= i < |lapsed| ensures lapsed[i] in db.leases.m && db.leases.m[lapsed[i]] <= now {
      assert lapsed[i] in lapsed;
    }
    ReclaimRefines(db, lapsed, now);
    var mid := Reclaim(db, lapsed);
    exhausted, after, reply := PopRefines(mid, now, token, leaseMs, BATCH);
    L.Chain(Abs(db), db.meta.deliveries, now, Lapses(lapsed), Abs(mid),
            PopArrows(exhausted, db.meta.deliveries, reply, token, now + leaseMs), Abs(after));
    if lapsed != [] {
      assert ViewOf(mid, lapsed[0]).ready == Some(0);
    } else if db.ready.m != map[] {
      assert ViewOf(mid, First(db.ready.m)) == ViewOf(db, First(db.ready.m));
    }
  }

  // RENEW, COMPLETE and CLOSE

  /** The three checks of RENEW and COMPLETE are exactly: the run is active and the token owns a live lease. */
  lemma HoldsIsLive(db: Db, now: int, id: string, token: string)
    requires Good(db)
    ensures Holds(db, now, id, token) <==> Active(db, now) && L.Live(Abs(db), id, token, now)
    ensures Holds(db, now, id, token) ==> id !in db.results.m && id in db.tasks.m && id in db.leases.m
  {
    assert CaseOk(db, id);
  }

  lemma RenewRefines(db: Db, now: int, id: string, token: string, leaseMs: int) returns (after: Db, reply: Reply)
    requires Good(db) && Expiry(db)
    ensures (after, reply) == RenewScript(db, now, id, token, leaseMs)
    ensures Good(after) && Expiry(after) && after.meta == db.meta
    ensures reply == if Active(db, now) && L.Live(Abs(db), id, token, now) then Accepted else Refused
    ensures reply == Refused ==> after == db
    ensures reply == Accepted ==>
      L.Follows(Abs(db), db.meta.deliveries, now, [L.Extend(id, token, now + leaseMs)], Abs(after))
  {
    var r := RenewScript(db, now, id, token, leaseMs);
    after, reply := r.0, r.1;
    HoldsIsLive(db, now, id, token);
    if reply == Accepted {
      assert CaseOk(db, id);
      var mid := db.(leases := HSet(db.leases, id, now + leaseMs));
      var v := View(None, Some(now + leaseMs), Some(token), Attempts(db, id), None);
      Changed(db, mid, id, v);
      Settle(mid, now);
      var arrow := L.Extend(id, token, now + leaseMs);
      assert Abs(mid) == L.Fire(Abs(db), arrow);
      assert Follows1(Abs(db), db.meta.deliveries, now, arrow, Abs(after));
    }
  }

  lemma CompleteRefines(db: Db, now: int, id: string, token: string, result: CaseResult)
    returns (after: Db, reply: Reply)
    requires Good(db) && Expiry(db) && result.caseId == id
    ensures (after, reply) == CompleteScript(db, now, id, token, result)
    ensures Good(after) && Expiry(after) && after.meta == db.meta
    ensures reply == if Active(db, now) && L.Live(Abs(db), id, token, now) then Accepted else Refused
    ensures reply == Refused ==> after == db
    ensures reply == Accepted ==>
      L.Follows(Abs(db), db.meta.deliveries, now, [L.Accept(id, token, result)], Abs(after))
  {
    var r := CompleteScript(db, now, id, token, result);
    after, reply := r.0, r.1;
    HoldsIsLive(db, now, id, token);
    if reply == Accepted {
      assert CaseOk(db, id);
      var stored := db.(results := HSet(db.results, id, result));
      var mid := stored.(owners := HDel(stored.owners, id), leases := HDel(stored.leases, id));
      Changed(db, mid, id, View(None, None, None, Attempts(db, id), Some(result)));
      Settle(mid, now);
      var arrow := L.Accept(id, token, result);
      assert Abs(mid) == L.Fire(Abs(db), arrow);
      assert Follows1(Abs(db), db.meta.deliveries, now, arrow, Abs(after));
    }
  }

  lemma OpenIsIrrelevant(db: Db, after: Db)
    requires Good(db) && after == db.(meta := db.meta.(open := false))
    ensures Good(after) && Abs(after) == Abs(db)
  {
    hide Rank, HGet;
    forall x ensures ViewOf(after, x) == ViewOf(db, x) && CaseOk(after, x) { assert CaseOk(db, x); }
    forall x, y ensures InOrder(after, x, y) { assert InOrder(db, x, y); }
  }

  lemma CloseKeeps(db: Db)
    requires Good(db) && Expiry(db)
    ensures var after := CloseScript(db);
            && Good(after) && Expiry(after) && Abs(after) == Abs(db) && after.meta == db.meta.(open := false)
  {
    hide Good, Abs;
    GoodHasMeta(db);
    OpenIsIrrelevant(db, CloseScript(db));
  }

  // CREATE

  ghost predicate EnqueuedAt(db: Db, suite: Suite, k: nat, x: string) {
    if 0 < Rank(suite, x) <= k then
      (x in db.tasks.m && db.tasks.m[x] == suite[Rank(suite, x) - 1]
       && ViewOf(db, x) == View(Some(Rank(suite, x)), None, None, 0, None))
    else (x !in db.tasks.m && ViewOf(db, x) == BLANK)
  }

  /** The first k cases of the suite are enqueued, the others are not. */
  ghost predicate Enqueued(db: Db, suite: Suite, k: nat) {
    forall x :: EnqueuedAt(db, suite, k, x)
  }

  lemma AddCaseEnqueues(db: Db, suite: Suite, k: nat)
    requires k < |suite| && Enqueued(db, suite, k)
    ensures Enqueued(AddCase(db, suite[k], k + 1), suite, k + 1)
  {
    var rank := k + 1;
    var next := AddCase(db, suite[k], rank);
    assert Rank(suite, suite[k].id) == rank;
    forall x ensures EnqueuedAt(next, suite, rank, x) {
      assert EnqueuedAt(db, suite, k, x);
      assert ViewOf(next, x) == if x == suite[k].id then ViewOf(db, x).(ready := Some(rank)) else ViewOf(db, x);
    }
  }

  lemma {:induction false} AddCasesEnqueues(db: Db, suite: Suite, k: nat)
    requires k <= |suite| && Enqueued(db, suite, k)
    ensures Enqueued(AddCases(db, suite, k), suite, |suite|) && AddCases(db, suite, k).meta == db.meta
    decreases |suite| - k
  {
    if k < |suite| {
      AddCaseEnqueues(db, suite, k);
      AddCasesEnqueues(AddCase(db, suite[k], k + 1), suite, k + 1);
    }
  }

  lemma NoneEnqueued(db: Db, suite: Suite)
    requires db == EMPTY.(meta := db.meta)
    ensures Enqueued(db, suite, 0)
  {
    hide Rank;
  }

  lemma EnqueuedIsGood(db: Db, suite: Suite)
    requires db.meta.Meta? && db.meta.suite == suite && db.meta.deliveries >= 1
    requires db.meta.total == |suite| && db.meta.deadline <= db.meta.expires && Enqueued(db, suite, |suite|)
    ensures Good(db)
    ensures forall x :: x in Abs(db) <==> Rank(suite, x) > 0
    ensures forall x :: x in Abs(db) ==> Abs(db)[x] == L.Waiting(0)
  {
    forall x ensures CaseOk(db, x) { assert EnqueuedAt(db, suite, |suite|, x); }
    forall x, y ensures InOrder(db, x, y) { assert EnqueuedAt(db, suite, |suite|, y); }
    forall x ensures x in Abs(db) <==> Rank(suite, x) > 0 { assert EnqueuedAt(db, suite, |suite|, x); }
    forall x | x in Abs(db) ensures Abs(db)[x] == L.Waiting(0) { assert EnqueuedAt(db, suite, |suite|, x); }
  }

  /** A successful CREATE leaves every case of the suite waiting with no delivery. */
  lemma CreateRefines(now: int, suite: Suite, timeoutMs: int, retentionMs: int,
                      deliveries: int) returns (after: Db, reply: Reply)
    requires timeoutMs >= 0 && retentionMs > 0 && deliveries >= 1
    ensures (after, reply) == CreateScript(EMPTY, now, suite, timeoutMs, retentionMs, deliveries)
    ensures reply == Created && Good(after) && Expiry(after)
    ensures after.meta == Meta(suite, true, now + timeoutMs, now + timeoutMs + retentionMs, deliveries, |suite|,
                               Some(now + timeoutMs + retentionMs))
    ensures forall x :: x in Abs(after) <==> Rank(suite, x) > 0
    ensures forall x :: x in Abs(after) ==> Abs(after)[x] == L.Waiting(0)
  {
    hide Good, Expiry, Touch, Abs, Rank, IsSuite, Enqueued, AddCases;
    var r := CreateScript(EMPTY, now, suite, timeoutMs, retentionMs, deliveries);
    after, reply := r.0, r.1;
    var meta := Meta(suite, true, now + timeoutMs, now + timeoutMs + retentionMs, deliveries, |suite|, None);
    var start := EMPTY.(meta := meta);
    NoneEnqueued(start, suite);
    AddCasesEnqueues(start, suite, 0);
    var full := AddCases(start, suite, 0);
    EnqueuedIsGood(full, suite);
    Settle(full, now);
  }
}
