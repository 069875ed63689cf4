/** The five Lua scripts of the run queue and the client methods around them, as functions on the
    seven keys of one run. now is the server time in whole milliseconds. */
module Queue {
  import opened Redis
  import opened Models

  datatype MetaKey =
    | NoMeta
    | Meta(suite: Suite, open: bool, deadline: int, expires: int, deliveries: int, total: int, px: Option<int>)

  datatype Db = Db(
    meta: MetaKey,
    tasks: Hash<Case>,
    ready: Hash<int>,
    leases: Hash<int>,
    owners: Hash<string>,
    attempts: Hash<int>,
    results: Hash<CaseResult>)

  const EMPTY := Db(NoMeta, Absent(), Absent(), Absent(), Absent(), Absent(), Absent())

  datatype Reply =
    | Invalid                               // the client method raises ValueError
    | RunExists
    | Created
    | NoJob
    | Granted(testCase: Case, delivery: int)
    | Accepted
    | Refused
    | Done

  datatype Call =
    | Create(suite: Suite, timeout: real, retention: int, deliveries: int, payloadBytes: nat)
    | Claim(token: string, leaseMs: int)
    | Renew(id: string, token: string, leaseMs: int)
    | Complete(id: string, token: string, result: CaseResult)
    | Close
    | Delete

  /** The keys as seen at time now: expired keys are gone. */
  function Seen(db: Db, now: int): Db {
    Db(if db.meta.Meta? && db.meta.px.Some? && db.meta.px.value < now then NoMeta else db.meta,
       Visible(db.tasks, now), Visible(db.ready, now), Visible(db.leases, now),
       Visible(db.owners, now), Visible(db.attempts, now), Visible(db.results, now))
  }

  function Touch(db: Db, now: int): Db {
    if db.meta.NoMeta? then db
    else
      var at := db.meta.expires;
      Db(if at <= now then NoMeta else db.meta.(px := Some(at)),
         PExpireAt(db.tasks, at, now), PExpireAt(db.ready, at, now), PExpireAt(db.leases, at, now),
         PExpireAt(db.owners, at, now), PExpireAt(db.attempts, at, now), PExpireAt(db.results, at, now))
  }

  predicate Active(db: Db, now: int) {
    db.meta.Meta? && db.meta.open && db.meta.deadline > now
  }

  function Attempts(db: Db, id: string): int {
    if id in db.attempts.m then db.attempts.m[id] else 0
  }

  // CREATE

  function AddCase(db: Db, testCase: Case, score: int): Db {
    db.(tasks := HSet(db.tasks, testCase.id, testCase), ready := HSet(db.ready, testCase.id, score))
  }

  function AddCases(db: Db, cases: seq<Case>, from: nat): Db
    requires from <= |cases|
    decreases |cases| - from
  {
    if from == |cases| then db else AddCases(AddCase(db, cases[from], from + 1), cases, from + 1)
  }

  function CreateScript(db: Db, now: int, suite: Suite, timeoutMs: int, retentionMs: int, deliveries: int)
    : (Db, Reply)
  {
    if db.meta.Meta? then (db, RunExists)
    else
      var meta := Meta(suite, true, now + timeoutMs, now + timeoutMs + retentionMs, deliveries, |suite|, None);
      (Touch(AddCases(db.(meta := meta), suite, 0), now), Created)
  }

  // CLAIM

  const BATCH: nat := 100

  function ReclaimOne(db: Db, id: string): Db {
    var freed := db.(leases := HDel(db.leases, id), owners := HDel(db.owners, id));
    if id in freed.results.m then freed else freed.(ready := HSet(freed.ready, id, 0))
  }

  function Reclaim(db: Db, ids: seq<string>): Db
    decreases |ids|
  {
    if ids == [] then db else Reclaim(ReclaimOne(db, ids[0]), ids[1..])
  }

  function Exhausted(id: string, delivery: int): CaseResult {
    CaseResult(id, Error, "queue", delivery, [], Some("worker delivery limit exhausted"))
  }

  /** ZPOPMIN followed by HINCRBY. */
  function Pop(db: Db, id: string): Db {
    db.(ready := HDel(db.ready, id), attempts := HSet(db.attempts, id, Attempts(db, id) + 1))
  }

  function ExhaustOne(db: Db, id: string): Db {
    var popped := Pop(db, id);
    popped.(results := HSet(popped.results, id, Exhausted(id, Attempts(popped, id) - 1)))
  }

  function GrantOne(db: Db, id: string, token: string, until: int): Db {
    var popped := Pop(db, id);
    popped.(owners := HSet(popped.owners, id, token), leases := HSet(popped.leases, id, until))
  }

  function PopLoop(db: Db, now: int, token: string, leaseMs: int, rounds: nat): (Db, Reply)
    requires db.meta.Meta?
    decreases rounds
  {
    if rounds == 0 || db.ready.m == map[] then (Touch(db, now), NoJob)
    else
      var id := First(db.ready.m);
      if Attempts(db, id) + 1 > db.meta.deliveries then
        PopLoop(ExhaustOne(db, id), now, token, leaseMs, rounds - 1)
      else
        var granted := GrantOne(db, id, token, now + leaseMs);
        (Touch(granted, now),
         if id in granted.tasks.m then Granted(granted.tasks.m[id], Attempts(granted, id)) else Invalid)
  }

  lemma {:induction false} ReclaimKeepsMeta(db: Db, ids: seq<string>)
    ensures Reclaim(db, ids).meta == db.meta
    decreases |ids|
  {
    if ids != [] { ReclaimKeepsMeta(ReclaimOne(db, ids[0]), ids[1..]); }
  }

  function ClaimScript(db: Db, now: int, token: string, leaseMs: int): (Db, Reply) {
    if !Active(db, now) then (db, NoJob)
    else
      var due := Due(db.leases.m, now, BATCH);
      ReclaimKeepsMeta(db, due);
      PopLoop(Reclaim(db, due), now, token, leaseMs, BATCH)
  }

  // RENEW and COMPLETE

  /** The three checks shared by RENEW and COMPLETE; a missing lease has score 0. */
  predicate Holds(db: Db, now: int, id: string, token: string) {
    && Active(db, now)
    && HGet(db.owners, id) == Some(token)
    && (if id in db.leases.m then db.leases.m[id] else 0) > now
  }

  function RenewScript(db: Db, now: int, id: string, token: string, leaseMs: int): (Db, Reply) {
    if !Holds(db, now, id, token) then (db, Refused)
    else (Touch(db.(leases := HSet(db.leases, id, now + leaseMs)), now), Accepted)
  }

  function CompleteScript(db: Db, now: int, id: string, token: string, result: CaseResult): (Db, Reply) {
    if !Holds(db, now, id, token) || id in db.results.m then (db, Refused)
    else
      var stored := db.(results := HSet(db.results, id, result));
      (Touch(stored.(owners := HDel(stored.owners, id), leases := HDel(stored.leases, id)), now), Accepted)
  }

  function CloseScript(db: Db): Db {
    if db.meta.NoMeta? then db else db.(meta := db.meta.(open := false))
  }

  // The client methods

  function Milliseconds(seconds: real): int
    requires seconds >= 0.0
  {
    (seconds * 1000.0).Floor
  }

  predicate CreateAllowed(suite: Suite, timeout: real, retention: int, deliveries: int, payloadBytes: nat) {
    && timeout > 0.0 && retention >= 1 && deliveries >= 1
    && (forall i :: 0 <= i < |suite| ==> suite[i].replaySafe)
    && payloadBytes <= 10_000_000
  }

  /** One call of a client method at server time now. */
  function Perform(db: Db, now: int, call: Call): (Db, Reply) {
    var db := Seen(db, now);
    match call
    case Create(suite, timeout, retention, deliveries, payloadBytes) =>
      if CreateAllowed(suite, timeout, retention, deliveries, payloadBytes) then
        CreateScript(db, now, suite, Milliseconds(timeout), retention * 1000, deliveries)
      else (db, Invalid)
    case Claim(token, leaseMs) => ClaimScript(db, now, token, leaseMs)
    case Renew(id, token, leaseMs) => RenewScript(db, now, id, token, leaseMs)
    case Complete(id, token, result) =>
      if result.caseId != id then (db, Invalid) else CompleteScript(db, now, id, token, result)
    case Close => (CloseScript(db), Done)
    case Delete => (EMPTY, Done)
  }

  // Reads

  function Count(db: Db, now: int): nat { |Seen(db, now).results.m| }

  /** is_open reads the clock in microseconds and compares without rounding: the deadline against
      micros / 1000 milliseconds. */
  predicate OpenAt(meta: MetaKey, micros: int) {
    meta.Meta? && meta.open && meta.deadline as real > micros as real / 1000.0
  }

  /** is_open when state and clock are read at one instant. */
  predicate IsOpen(db: Db, micros: int) { OpenAt(Seen(db, micros / 1000).meta, micros) }
}
