/** A worker: the heartbeat over its active jobs and the consume loop of one thread. Calls of other
    clients, and of the worker's other threads, come in between the commands of a turn. */
module Workers {
  import opened Redis
  import opened Models
  import opened Queue
  import opened Steps
  import opened Runs
  import opened RunQueues
  import opened Deliveries
  import X = Executor

  datatype Job = Job(testCase: Case, token: string, delivery: int)

  datatype Held = Held(job: Job, lost: bool)

  /** A Redis error leaves open whether the command was executed. */
  datatype Fault = Works | Fails(executed: bool)

  /** One renewal of a heartbeat; tick is its place among the observations of the case it renews. */
  datatype Beat = Beat(tick: nat, before: Trace, at: int, fault: Fault)

  /** The readings of one turn of the consume loop. Stopped says that another thread or a signal has stopped
      the worker; the lost flag in world is not read, because the heartbeats of the turn decide it. */
  datatype Turn = Turn(
    stopped: bool, before: Trace, token: string, claimAt: int, claimFault: Fault,
    beforeCount: Trace, countAt: int, countFails: bool,
    beforeState: Trace, stateAt: int, stateFails: bool,
    beforeTime: Trace, micros: int, timeFails: bool,
    beats: seq<Beat>, during: Trace, world: X.World, completeAt: int, completeFault: Fault)

  datatype Exit =
    | Running                                      // the readings are used up
    | Stopped
    | Crashed
    | Counted(at: int)
    | Closed(at: int, micros: int)                 // state read at time at, then the clock at micros

  /** What is_open saw: the state of the keys after n calls, then the clock. */
  ghost predicate NotOpen(log: Trace, n: nat, exit: Exit)
    requires exit.Closed?
  {
    n <= |log| && !OpenAt(Seen(Exec(log[..n]), exit.at).meta, exit.micros)
  }

  /** The j-th call gave out this job. */
  ghost predicate GaveOut(t: Trace, j: nat, job: Job) {
    j < |t| && t[j].call.Claim? && t[j].call.token == job.token && ReplyOf(t, j) == Granted(job.testCase, job.delivery)
  }

  /** An earlier call gave out this job. */
  ghost predicate Issued(t: Trace, job: Job) {
    exists j :: GaveOut(t, j, job)
  }

  lemma IssuedLater(t: Trace, more: Trace, job: Job)
    requires Issued(t, job)
    ensures Issued(t + more, job)
  {
    var j :| GaveOut(t, j, job);
    assert (t + more)[..|t|] == t;
    ReplyPrefix(t + more, |t|, j);
    assert GaveOut(t + more, j, job);
  }

  ghost predicate ComesFrom(t: Trace, i: nat, j: nat, e: X.Execution)
    requires i < |t| && t[i].call.Complete?
  {
    && j < i && Hands(t, j, t[i].call.id) && t[j].call.token == t[i].call.token
    && t[i].call.result.delivery == ReplyOf(t, j).delivery
    && X.Executes(ReplyOf(t, j).testCase, e, t[i].call.result)
  }

  /** The completion offers what an execution of an earlier hand-out of its case to its token gave. */
  ghost predicate Genuine(t: Trace, i: nat, e: X.Execution) {
    i < |t| && t[i].call.Complete? && exists j :: ComesFrom(t, i, j, e)
  }

  lemma GenuineLater(t: Trace, more: Trace, i: nat, e: X.Execution)
    requires Genuine(t, i, e)
    ensures Genuine(t + more, i, e)
  {
    hide ReplyOf, X.Executes;
    var u := t + more;
    assert u[..|t|] == t;
    var j :| ComesFrom(t, i, j, e);
    ReplyPrefix(u, |t|, j);
    assert ComesFrom(u, i, j, e);
  }

  /** Completing an issued job with what its execution gave is genuine. */
  lemma CompletionIsGenuine(t: Trace, now: int, job: Job, result: CaseResult, e: X.Execution)
    requires Issued(t, job) && result.delivery == job.delivery && X.Executes(job.testCase, e, result)
    ensures Genuine(t + [At(now, Complete(job.testCase.id, job.token, result))], |t|, e)
  {
    hide ReplyOf, X.Executes;
    var u := t + [At(now, Complete(job.testCase.id, job.token, result))];
    var j :| GaveOut(t, j, job);
    assert u[..|t|] == t;
    ReplyPrefix(u, |t|, j);
    assert ComesFrom(u, |t|, j, e);
  }

  const UNAVAILABLE := "Redis unavailable"
  const NO_HEARTBEAT := "Redis heartbeat unavailable"

  // What the log shows of a heartbeat and of a turn

  predicate IsRenewal(e: Event, job: Job, beat: Beat, leaseMs: int) {
    e == At(beat.at, Renew(job.testCase.id, job.token, leaseMs))
  }

  /** The job was renewed with success after the first from calls. */
  ghost predicate Renewed(log: Trace, from: nat, job: Job, beat: Beat, leaseMs: int) {
    beat.fault.Works?
    && exists p :: from <= p < |log| && IsRenewal(log[p], job, beat, leaseMs) && ReplyOf(log, p) == Accepted
  }

  /** The renewal failed or was refused. */
  ghost predicate GivenUp(log: Trace, from: nat, job: Job, beat: Beat, leaseMs: int) {
    beat.fault.Fails?
    || exists p :: from <= p < |log| && IsRenewal(log[p], job, beat, leaseMs) && ReplyOf(log, p) != Accepted
  }

  lemma BeatLater(log: Trace, after: Trace, from: nat, job: Job, beat: Beat, leaseMs: int)
    requires log <= after
    ensures Renewed(log, from, job, beat, leaseMs) ==> Renewed(after, from, job, beat, leaseMs)
    ensures GivenUp(log, from, job, beat, leaseMs) ==> GivenUp(after, from, job, beat, leaseMs)
  {
    hide ReplyOf, IsRenewal;
    assert after[..|log|] == log;
    forall p | 0 <= p < |log| ensures ReplyOf(after, p) == ReplyOf(log, p) { ReplyPrefix(after, |log|, p); }
  }

  lemma LastBeat(log: Trace, from: nat, job: Job, beat: Beat, leaseMs: int)
    requires beat.fault.Works? ==> |log| > from && IsRenewal(log[|log| - 1], job, beat, leaseMs)
    ensures beat.fault.Works? && ReplyOf(log, |log| - 1) == Accepted ==> Renewed(log, from, job, beat, leaseMs)
    ensures beat.fault.Works? && ReplyOf(log, |log| - 1) != Accepted ==> GivenUp(log, from, job, beat, leaseMs)
    ensures beat.fault.Fails? ==> GivenUp(log, from, job, beat, leaseMs)
  {
    hide ReplyOf, IsRenewal;
  }

  /** The first i of the jobs have had their renewals: was and now are the table of jobs before and after. */
  ghost predicate BeatenUpTo(log: Trace, from: nat, was: map<string, Held>, now: map<string, Held>,
                             jobs: seq<Job>, beats: string -> Beat, leaseMs: int, i: nat)
    requires i <= |jobs|
  {
    && now.Keys == was.Keys
    && (forall t :: t in now ==> now[t].job == was[t].job && (was[t].lost ==> now[t].lost))
    && (forall k :: 0 <= k < i && jobs[k].token in now && !now[jobs[k].token].lost ==>
          Renewed(log, from, jobs[k], beats(jobs[k].token), leaseMs))
    && (forall t :: t in now && now[t].lost && !was[t].lost ==> GivenUp(log, from, now[t].job, beats(t), leaseMs))
  }

  /** One of the first i renewals could not reach Redis. */
  ghost predicate FailedUpTo(jobs: seq<Job>, beats: string -> Beat, i: nat)
    requires i <= |jobs|
  {
    exists k :: 0 <= k < i && beats(jobs[k].token).fault.Fails?
  }

  lemma NoneBeaten(log: Trace, from: nat, was: map<string, Held>, jobs: seq<Job>, beats: string -> Beat, leaseMs: int)
    ensures BeatenUpTo(log, from, was, was, jobs, beats, leaseMs, 0) && !FailedUpTo(jobs, beats, 0)
  {
  }

  lemma BeatenOne(log: Trace, after: Trace, from: nat, was: map<string, Held>, mid: map<string, Held>,
                  now: map<string, Held>,
                  jobs: seq<Job>, beats: string -> Beat, leaseMs: int, i: nat)
    requires i < |jobs| && from <= |log| && log <= after && BeatenUpTo(log, from, was, mid, jobs, beats, leaseMs, i)
    requires now.Keys == mid.Keys && jobs[i].token in mid && mid[jobs[i].token].job == jobs[i]
    requires forall t :: t in now && t != jobs[i].token ==> now[t] == mid[t]
    requires beats(jobs[i].token).fault.Fails? ==> now[jobs[i].token] == mid[jobs[i].token].(lost := true)
    requires beats(jobs[i].token).fault.Works? ==>
      && |after| > |log| && IsRenewal(after[|after| - 1], jobs[i], beats(jobs[i].token), leaseMs)
      && now[jobs[i].token] == mid[jobs[i].token].(
           lost := mid[jobs[i].token].lost || ReplyOf(after, |after| - 1) != Accepted)
    ensures BeatenUpTo(after, from, was, now, jobs, beats, leaseMs, i + 1)
  {
    hide ReplyOf, Renewed, GivenUp, IsRenewal;
    LastBeat(after, from, jobs[i], beats(jobs[i].token), leaseMs);
    forall k | 0 <= k < i && jobs[k].token in now && !now[jobs[k].token].lost
      ensures Renewed(after, from, jobs[k], beats(jobs[k].token), leaseMs)
    {
      BeatLater(log, after, from, jobs[k], beats(jobs[k].token), leaseMs);
    }
    forall t | t in now && now[t].lost && !was[t].lost ensures GivenUp(after, from, now[t].job, beats(t), leaseMs) {
      BeatLater(log, after, from, now[t].job, beats(t), leaseMs);
    }
  }

  lemma AllBeaten(log: Trace, from: nat, was: map<string, Held>, now: map<string, Held>,
                  jobs: seq<Job>, beats: string -> Beat, leaseMs: int)
    requires BeatenUpTo(log, from, was, now, jobs, beats, leaseMs, |jobs|)
    requires forall t :: t in was ==> was[t].job in jobs && was[t].job.token == t
    ensures now.Keys == was.Keys
    ensures forall t :: t in now ==> now[t].job == was[t].job && (was[t].lost ==> now[t].lost)
    ensures forall t :: t in now && !now[t].lost ==> Renewed(log, from, now[t].job, beats(t), leaseMs)
    ensures forall t :: t in now && now[t].lost && !was[t].lost ==> GivenUp(log, from, now[t].job, beats(t), leaseMs)
  {
    hide Renewed, GivenUp;
    forall t | t in now && !now[t].lost ensures Renewed(log, from, now[t].job, beats(t), leaseMs) {
      var k :| 0 <= k < |jobs| && jobs[k] == was[t].job;
    }
  }

  lemma FailedNext(jobs: seq<Job>, beats: string -> Beat, i: nat)
    requires i < |jobs|
    ensures FailedUpTo(jobs, beats, i + 1) == (FailedUpTo(jobs, beats, i) || beats(jobs[i].token).fault.Fails?)
  {
  }

  lemma FailedOfAll(held: map<string, Held>, jobs: seq<Job>, beats: string -> Beat)
    requires forall i :: 0 <= i < |jobs| ==> jobs[i].token in held
    requires forall t :: t in held ==> held[t].job in jobs && held[t].job.token == t
    ensures FailedUpTo(jobs, beats, |jobs|) <==> exists t :: t in held && beats(t).fault.Fails?
  {
    forall t | t in held && beats(t).fault.Fails? ensures FailedUpTo(jobs, beats, |jobs|) {
      var k :| 0 <= k < |jobs| && jobs[k] == held[t].job;
    }
  }

  // The lost flag

  function LostFrom(at: Option<nat>): nat -> bool { tick => at.Some? && at.value <= tick }

  ghost predicate FirstGivenUp(log: Trace, from: nat, job: Job, beats: seq<Beat>, leaseMs: int, i: nat)
    requires i <= |beats|
  {
    && (forall k :: 0 <= k < i ==> Renewed(log, from, job, beats[k], leaseMs))
    && (i < |beats| ==> GivenUp(log, from, job, beats[i], leaseMs))
  }

  /** The flag is set from the tick of the first renewal that was given up, and never when all succeeded. */
  ghost predicate FlagOf(log: Trace, from: nat, job: Job, beats: seq<Beat>, leaseMs: int, lost: nat -> bool) {
    exists i :: 0 <= i <= |beats| && FirstGivenUp(log, from, job, beats, leaseMs, i)
      && forall tick :: lost(tick) <==> i < |beats| && beats[i].tick <= tick
  }

  lemma FirstGivenUpLater(log: Trace, after: Trace, from: nat, job: Job, beats: seq<Beat>, leaseMs: int, i: nat)
    requires log <= after && i <= |beats| && FirstGivenUp(log, from, job, beats, leaseMs, i)
    ensures FirstGivenUp(after, from, job, beats, leaseMs, i)
  {
    hide Renewed, GivenUp;
    forall k | 0 <= k < |beats|
      ensures Renewed(log, from, job, beats[k], leaseMs) ==> Renewed(after, from, job, beats[k], leaseMs)
      ensures GivenUp(log, from, job, beats[k], leaseMs) ==> GivenUp(after, from, job, beats[k], leaseMs)
    {
      BeatLater(log, after, from, job, beats[k], leaseMs);
    }
  }

  lemma FlagLater(log: Trace, after: Trace, from: nat, job: Job, beats: seq<Beat>, leaseMs: int, lost: nat -> bool)
    requires log <= after && FlagOf(log, from, job, beats, leaseMs, lost)
    ensures FlagOf(after, from, job, beats, leaseMs, lost)
  {
    hide FirstGivenUp;
    var i :| 0 <= i <= |beats| && FirstGivenUp(log, from, job, beats, leaseMs, i)
      && forall tick :: lost(tick) <==> i < |beats| && beats[i].tick <= tick;
    FirstGivenUpLater(log, after, from, job, beats, leaseMs, i);
  }

  lemma FlagIsSteady(world: X.World, lostAt: Option<nat>)
    requires world.lost == LostFrom(lostAt)
    ensures X.Steady(world)
  {
  }

  // What the log shows of a turn

  /** The p-th call is the claim of this turn. */
  predicate IsClaim(log: Trace, p: nat, turn: Turn, leaseMs: int) {
    p < |log| && log[p] == At(turn.claimAt, Claim(turn.token, leaseMs))
  }

  /** The job that the claim at p gave out. */
  ghost function JobOf(log: Trace, p: nat, turn: Turn): Job
    requires p < |log| && ReplyOf(log, p).Granted?
  {
    Job(ReplyOf(log, p).testCase, turn.token, ReplyOf(log, p).delivery)
  }

  /** The readings of a world, but for the lost flag. */
  ghost predicate SameReadings(w: X.World, v: X.World) { w == v.(lost := w.lost) }

  /** The count, read after m calls, was short. */
  ghost predicate ShortAt(log: Trace, m: nat, turn: Turn, total: nat) {
    !turn.countFails && m <= |log| && |Seen(Exec(log[..m]), turn.countAt).results.m| < total
  }

  /** The count was short and then, after n calls, the run was open, each at the clock of its reading. */
  ghost predicate WentOn(log: Trace, m: nat, n: nat, turn: Turn, total: nat) {
    && ShortAt(log, m, turn, total) && !turn.stateFails && !turn.timeFails
    && n <= |log| && !NotOpen(log, n, Closed(turn.stateAt, turn.micros))
  }

  /** The claim at p got nothing, and after it the turn went on. */
  ghost predicate Idled(log: Trace, p: nat, to: nat, turn: Turn, total: nat)
    requires p < to <= |log|
  {
    ReplyOf(log, p) == NoJob && exists m, n :: p < m <= n <= to && WentOn(log, m, n, turn, total)
  }

  /** The q-th call completes the case that the claim at p gave out, with the result of the execution on record:
      one under the readings of the turn and under the flag that the renewals of the job after the claim left. */
  ghost predicate Ended(log: Trace, p: nat, q: nat, executions: map<nat, X.Execution>, turn: Turn, leaseMs: int) {
    && p < q < |log| && q in executions && ReplyOf(log, p).Granted? && log[q].call.Complete?
    && var job, e := JobOf(log, p, turn), executions[q];
    && log[q] == At(turn.completeAt, Complete(job.testCase.id, job.token, log[q].call.result))
    && X.Executes(job.testCase, e, log[q].call.result) && log[q].call.result.delivery == job.delivery
    && SameReadings(e.w, turn.world) && FlagOf(log, p + 1, job, turn.beats, leaseMs, e.w.lost)
  }

  /** The claim at p got a case, and a completion after it ends it. */
  ghost predicate Worked(log: Trace, p: nat, to: nat, executions: map<nat, X.Execution>, turn: Turn, leaseMs: int) {
    turn.completeFault.Works? && exists q :: p < q < to && Ended(log, p, q, executions, turn, leaseMs)
  }

  /** A turn that was gone through up to a length of the log, with its claim at p: no command of it failed. */
  ghost predicate ServedAt(log: Trace, p: nat, to: nat, executions: map<nat, X.Execution>, turn: Turn,
                           leaseMs: int, total: nat)
    requires p < to <= |log|
  {
    && turn.claimFault.Works? && IsClaim(log, p, turn, leaseMs)
    && (Idled(log, p, to, turn, total) || Worked(log, p, to, executions, turn, leaseMs))
  }

  /** What a thread saw after its claim at p when it ended, in the state after n calls. */
  ghost predicate SawEnd(log: Trace, p: nat, n: nat, exit: Exit, turn: Turn, total: nat) {
    match exit
    case Counted(at) =>
      at == turn.countAt && !turn.countFails && p < n <= |log| && |Seen(Exec(log[..n]), at).results.m| >= total
    case Closed(at, micros) =>
      && at == turn.stateAt && micros == turn.micros && !turn.stateFails && !turn.timeFails && NotOpen(log, n, exit)
      && exists m :: p < m <= n && ShortAt(log, m, turn, total)
    case _ => false
  }

  /** The last turn, with its claim at p: it got nothing, and then the end was seen. */
  ghost predicate Finished(log: Trace, p: nat, n: nat, exit: Exit, turn: Turn, leaseMs: int, total: nat) {
    && turn.claimFault.Works? && IsClaim(log, p, turn, leaseMs) && ReplyOf(log, p) == NoJob
    && SawEnd(log, p, n, exit, turn, total)
  }

  /** Redis failed at the count, or after a short count at the state or the clock. */
  ghost predicate FailsAt(log: Trace, m: nat, turn: Turn, total: nat) {
    turn.countFails || (ShortAt(log, m, turn, total) && (turn.stateFails || turn.timeFails))
  }

  /** Redis failed at a command that the turn, with its claim at p, came to. */
  ghost predicate FaultyAt(log: Trace, p: nat, turn: Turn, leaseMs: int, total: nat) {
    turn.claimFault.Fails? ||
    (IsClaim(log, p, turn, leaseMs) &&
     if ReplyOf(log, p).Granted? then turn.completeFault.Fails?
     else exists m :: p < m <= |log| && FailsAt(log, m, turn, total))
  }

  /** Some renewal could not reach Redis. */
  predicate SomeFail(beats: seq<Beat>) { exists b | b in beats :: b.fault.Fails? }

  /** The claim at p gave out a job, and one of its renewals could not reach Redis. */
  ghost predicate BeatsFailed(log: Trace, p: nat, turn: Turn) {
    p < |log| && ReplyOf(log, p).Granted? && SomeFail(turn.beats)
  }

  ghost predicate Extends(executions: map<nat, X.Execution>, more: map<nat, X.Execution>) {
    forall i :: i in executions ==> i in more && more[i] == executions[i]
  }

  lemma ServedLater(log: Trace, after: Trace, p: nat, to: nat, executions: map<nat, X.Execution>,
                    more: map<nat, X.Execution>, turn: Turn, leaseMs: int, total: nat)
    requires log <= after && Extends(executions, more) && p < to <= |log|
    requires ServedAt(log, p, to, executions, turn, leaseMs, total)
    ensures ServedAt(after, p, to, more, turn, leaseMs, total)
  {
    hide ReplyOf, Exec, Seen, X.Executes, FlagOf, SameReadings;
    assert after[..|log|] == log;
    ReplyPrefix(after, |log|, p);
    if Idled(log, p, to, turn, total) {
      var m, n :| p < m <= n <= to && WentOn(log, m, n, turn, total);
      assert after[..m] == log[..m] && after[..n] == log[..n];
      assert WentOn(after, m, n, turn, total);
    } else {
      var q :| p < q < to && Ended(log, p, q, executions, turn, leaseMs);
      FlagLater(log, after, p + 1, JobOf(log, p, turn), turn.beats, leaseMs, executions[q].w.lost);
      assert Ended(after, p, q, more, turn, leaseMs);
    }
  }

  lemma BeatsFailedLater(log: Trace, after: Trace, p: nat, turn: Turn)
    requires log <= after && p < |log|
    ensures BeatsFailed(after, p, turn) == BeatsFailed(log, p, turn)
  {
    hide ReplyOf;
    assert after[..|log|] == log;
    ReplyPrefix(after, |log|, p);
  }

  /** What stops the loop before turn k: a stop from outside, or a failed renewal of the turn before; at the
      first turn also a stop from before. */
  ghost predicate StopsAt(log: Trace, claims: seq<nat>, turns: seq<Turn>, k: nat, stopped: bool)
    requires k <= |claims| && k < |turns|
  {
    turns[k].stopped || if k == 0 then stopped else BeatsFailed(log, claims[k - 1], turns[k - 1])
  }

  /** Turn k, between two lengths of the log: nothing stopped the loop before it, and it was gone through. */
  ghost predicate GoneThrough(log: Trace, from: nat, to: nat, claims: seq<nat>, executions: map<nat, X.Execution>,
                              turns: seq<Turn>, k: nat, leaseMs: int, total: nat, stopped: bool)
    requires k < |claims| <= |turns|
  {
    && from <= claims[k] < to <= |log| && !StopsAt(log, claims, turns, k, stopped)
    && ServedAt(log, claims[k], to, executions, turns[k], leaseMs, total)
  }

  /** marks are the lengths of the log at the beginning of the turns, claims the positions of their claims:
      every turn but the last was gone through, and nothing stopped the loop before it. */
  ghost predicate AllServed(log: Trace, marks: seq<nat>, claims: seq<nat>, executions: map<nat, X.Execution>,
                            turns: seq<Turn>, leaseMs: int, total: nat, stopped: bool) {
    && |marks| == |claims| + 1 && |claims| <= |turns|
    && forall k: nat :: k < |claims| ==>
         GoneThrough(log, marks[k], marks[k + 1], claims, executions, turns, k, leaseMs, total, stopped)
  }

  lemma StopsAtLater(log: Trace, after: Trace, claims: seq<nat>, turns: seq<Turn>, k: nat, stopped: bool)
    requires log <= after && k <= |claims| && k < |turns| && (k > 0 ==> claims[k - 1] < |log|)
    ensures StopsAt(after, claims, turns, k, stopped) == StopsAt(log, claims, turns, k, stopped)
  {
    hide BeatsFailed;
    if k > 0 { BeatsFailedLater(log, after, claims[k - 1], turns[k - 1]); }
  }

  lemma ClaimInside(log: Trace, marks: seq<nat>, claims: seq<nat>, executions: map<nat, X.Execution>,
                    turns: seq<Turn>, leaseMs: int, total: nat, stopped: bool, k: nat)
    requires AllServed(log, marks, claims, executions, turns, leaseMs, total, stopped) && k < |claims|
    ensures claims[k] < |log|
  {
    hide StopsAt, ServedAt;
    assert GoneThrough(log, marks[k], marks[k + 1], claims, executions, turns, k, leaseMs, total, stopped);
  }

  lemma AllServedLater(log: Trace, after: Trace, marks: seq<nat>, claims: seq<nat>, executions: map<nat, X.Execution>,
                       more: map<nat, X.Execution>, turns: seq<Turn>, leaseMs: int, total: nat, stopped: bool)
    requires log <= after && Extends(executions, more)
    requires AllServed(log, marks, claims, executions, turns, leaseMs, total, stopped)
    ensures AllServed(after, marks, claims, more, turns, leaseMs, total, stopped)
  {
    hide ServedAt, Extends, StopsAt;
    forall k: nat | k < |claims|
      ensures GoneThrough(after, marks[k], marks[k + 1], claims, more, turns, k, leaseMs, total, stopped)
    {
      assert GoneThrough(log, marks[k], marks[k + 1], claims, executions, turns, k, leaseMs, total, stopped);
      if k > 0 { ClaimInside(log, marks, claims, executions, turns, leaseMs, total, stopped, k - 1); }
      StopsAtLater(log, after, claims, turns, k, stopped);
      ServedLater(log, after, claims[k], marks[k + 1], executions, more, turns[k], leaseMs, total);
    }
  }

  lemma OneMoreServed(log: Trace, marks: seq<nat>, claims: seq<nat>, p: nat, executions: map<nat, X.Execution>,
                      turns: seq<Turn>, leaseMs: int, total: nat, stopped: bool)
    requires AllServed(log, marks, claims, executions, turns, leaseMs, total, stopped) && |claims| < |turns|
    requires !StopsAt(log, claims, turns, |claims|, stopped) && marks[|claims|] <= p < |log|
    requires ServedAt(log, p, |log|, executions, turns[|claims|], leaseMs, total)
    ensures AllServed(log, marks + [|log|], claims + [p], executions, turns, leaseMs, total, stopped)
  {
    hide ServedAt, BeatsFailed;
    var m, c := marks + [|log|], claims + [p];
    forall k: nat | k < |c|
      ensures GoneThrough(log, m[k], m[k + 1], c, executions, turns, k, leaseMs, total, stopped)
    {
      if k < |claims| {
        assert GoneThrough(log, marks[k], marks[k + 1], claims, executions, turns, k, leaseMs, total, stopped);
      }
    }
  }

  lemma IdledNow(log: Trace, after: Trace, m: nat, n: nat, executions: map<nat, X.Execution>, turn: Turn,
                 leaseMs: int, total: nat)
    requires 0 < |log| <= m <= n <= |after| && log <= after && |log| - 1 < |after| && turn.claimFault.Works?
    requires IsClaim(log, |log| - 1, turn, leaseMs) && ReplyOf(log, |log| - 1) == NoJob
    requires WentOn(after, m, n, turn, total)
    ensures ServedAt(after, |log| - 1, |after|, executions, turn, leaseMs, total)
  {
    hide ReplyOf, Exec, Seen, WentOn;
    assert after[..|log|] == log;
    ReplyPrefix(after, |log|, |log| - 1);
  }

  lemma ClaimLater(log: Trace, after: Trace, p: nat, turn: Turn, leaseMs: int)
    requires log <= after && IsClaim(log, p, turn, leaseMs)
    ensures IsClaim(after, p, turn, leaseMs) && ReplyOf(after, p) == ReplyOf(log, p)
  {
    hide ReplyOf;
    assert after[..|log|] == log;
    ReplyPrefix(after, |log|, p);
  }

  lemma EndedNow(log: Trace, after: Trace, result: CaseResult, executions: map<nat, X.Execution>, turn: Turn,
                 leaseMs: int)
    requires 0 < |log| < |after| && log <= after && IsClaim(log, |log| - 1, turn, leaseMs)
    requires ReplyOf(log, |log| - 1).Granted? && |after| - 1 in executions
    requires var p, q, e := |log| - 1, |after| - 1, executions[|after| - 1];
      var job := JobOf(log, p, turn);
      && after[q] == At(turn.completeAt, Complete(job.testCase.id, job.token, result))
      && X.Executes(job.testCase, e, result) && result.delivery == job.delivery && SameReadings(e.w, turn.world)
      && FlagOf(after, p + 1, job, turn.beats, leaseMs, e.w.lost)
    ensures Ended(after, |log| - 1, |after| - 1, executions, turn, leaseMs)
  {
    hide ReplyOf, X.Executes, FlagOf, SameReadings;
    ClaimLater(log, after, |log| - 1, turn, leaseMs);
  }

  lemma WorkedNow(log: Trace, after: Trace, executions: map<nat, X.Execution>, turn: Turn, leaseMs: int, total: nat)
    requires 0 < |log| < |after| && log <= after && IsClaim(log, |log| - 1, turn, leaseMs)
    requires turn.claimFault.Works? && turn.completeFault.Works?
    requires Ended(after, |log| - 1, |after| - 1, executions, turn, leaseMs)
    ensures ServedAt(after, |log| - 1, |after|, executions, turn, leaseMs, total)
  {
    hide ReplyOf, Ended;
    ClaimLater(log, after, |log| - 1, turn, leaseMs);
  }

  /** The end of a thread stays on record in every longer log. */
  lemma FinishedLater(log: Trace, after: Trace, p: nat, n: nat, exit: Exit, turn: Turn, leaseMs: int, total: nat)
    requires log <= after && Finished(log, p, n, exit, turn, leaseMs, total)
    ensures Finished(after, p, n, exit, turn, leaseMs, total)
  {
    hide ReplyOf, Exec, Seen;
    ClaimLater(log, after, p, turn, leaseMs);
    assert after[..n] == log[..n];
    if exit.Closed? {
      var m :| p < m <= n && ShortAt(log, m, turn, total);
      assert after[..m] == log[..m];
      assert ShortAt(after, m, turn, total);
    }
  }

  lemma IssuedNow(log: Trace, job: Job)
    requires |log| > 0 && log[|log| - 1].call.Claim? && log[|log| - 1].call.token == job.token
    requires ReplyOf(log, |log| - 1) == Granted(job.testCase, job.delivery)
    ensures Issued(log, job)
  {
    hide ReplyOf;
    assert GaveOut(log, |log| - 1, job);
  }

  /** A claim is never refused in any other way than by giving nothing. */
  lemma ClaimReplies(log: Trace, i: nat)
    requires i < |log| && log[i].call.Claim?
    ensures ReplyOf(log, i) == NoJob || ReplyOf(log, i).Granted?
  {
    hide Exec;
    InvAlways(log[..i]);
    if Seen(Exec(log[..i]), log[i].now).meta.NoMeta? {
      var _, _ := CallOnNothing(Exec(log[..i]), log[i].now, log[i].call);
    } else {
      var _, _, _ := CallAdvances(Exec(log[..i]), log[i].now, log[i].call);
    }
  }

  lemma NoneServed(log: Trace, executions: map<nat, X.Execution>, turns: seq<Turn>, leaseMs: int, total: nat,
                   stopped: bool)
    ensures AllServed(log, [|log|], [], executions, turns, leaseMs, total, stopped)
    ensures Extends(executions, executions)
  {
  }

  lemma StopMeans(log: Trace, claims: seq<nat>, turns: seq<Turn>, stopped: bool, stop: bool)
    requires |claims| < |turns|
    requires var k := |claims|;
      stop == ((if k == 0 then stopped else BeatsFailed(log, claims[k - 1], turns[k - 1])) || turns[k].stopped)
    ensures stop == StopsAt(log, claims, turns, |claims|, stopped)
  {
    hide BeatsFailed;
  }

  lemma ExtendsAll(a: map<nat, X.Execution>, b: map<nat, X.Execution>, c: map<nat, X.Execution>)
    requires Extends(a, b) && Extends(b, c)
    ensures Extends(a, c)
  {
  }

  lemma ClaimsCount(log: Trace, marks: seq<nat>, claims: seq<nat>, executions: map<nat, X.Execution>,
                    turns: seq<Turn>, leaseMs: int, total: nat, stopped: bool)
    requires AllServed(log, marks, claims, executions, turns, leaseMs, total, stopped)
    ensures |marks| == |claims| + 1 && |claims| <= |turns|
  {
  }

  lemma StopLater(log: Trace, after: Trace, marks: seq<nat>, claims: seq<nat>, executions: map<nat, X.Execution>,
                  turns: seq<Turn>, leaseMs: int, total: nat, stopped: bool)
    requires AllServed(log, marks, claims, executions, turns, leaseMs, total, stopped) && log <= after
    requires |claims| < |turns|
    ensures StopsAt(after, claims, turns, |claims|, stopped) == StopsAt(log, claims, turns, |claims|, stopped)
  {
    hide StopsAt, ServedAt, AllServed;
    ClaimsCount(log, marks, claims, executions, turns, leaseMs, total, stopped);
    if |claims| > 0 { ClaimInside(log, marks, claims, executions, turns, leaseMs, total, stopped, |claims| - 1); }
    StopsAtLater(log, after, claims, turns, |claims|, stopped);
  }

  class Worker {
    const queue: RunQueue
    const workerId: string
    const leaseMs: int
    const options: X.Options
    var active: map<string, Held>
    var stop: bool
    var error: Option<string>
    ghost var executions: map<nat, X.Execution>     // behind each completion this worker sent, by log position

    ghost predicate Valid()
      reads this, queue
    {
      && queue.Valid()
      && (forall token :: token in active ==> active[token].job.token == token && Issued(queue.log, active[token].job))
      && (forall i :: i in executions ==> Genuine(queue.log, i, executions[i]) && executions[i].o == options)
    }

    constructor (queue: RunQueue, workerId: string, leaseMs: int, options: X.Options)
      requires queue.Valid()
      ensures Valid() && this.queue == queue && active == map[] && !stop && error == None && executions == map[]
    {
      this.queue, this.workerId, this.leaseMs, this.options := queue, workerId, leaseMs, options;
      active, stop, error, executions := map[], false, None, map[];
    }

    /** More calls on the queue keep what the worker knows. */
    twostate lemma Keeps(more: Trace)
      requires old(Valid()) && queue.Valid() && queue.log == old(queue.log) + more
      requires unchanged(this)
      ensures Valid()
    {
      forall token | token in active ensures Issued(queue.log, active[token].job) {
        IssuedLater(old(queue.log), more, active[token].job);
      }
      forall i | i in executions ensures Genuine(queue.log, i, executions[i]) {
        GenuineLater(old(queue.log), more, i, executions[i]);
      }
    }

    method OtherCalls(events: Trace)
      requires Valid()
      modifies queue
      ensures Valid() && queue.log == old(queue.log) + events
    {
      queue.Others(events);
      Keeps(events);
    }

    method Command(now: int, call: Call) returns (reply: Reply)
      requires Valid()
      modifies queue
      ensures Valid() && queue.log == old(queue.log) + [At(now, call)]
      ensures reply == ReplyOf(queue.log, |old(queue.log)|)
    {
      reply := queue.Do(now, call);
      Keeps([At(now, call)]);
    }

    /** One renewal of the heartbeat. The job is marked lost when the renewal is refused or fails; a
        failure also stops the worker. */
    method BeatOne(job: Job, beat: Beat)
      requires Valid()
      modifies this`active, this`stop, this`error, queue
      ensures Valid() && executions == old(executions)
      ensures old(queue.log) <= queue.log
      ensures active.Keys == old(active.Keys)
      ensures forall t :: t in active && t != job.token ==> active[t] == old(active[t])
      ensures forall t :: t in active
                ==> active[t].job == old(active[t].job) && (old(active[t].lost) ==> active[t].lost)
      ensures beat.fault.Fails? ==> stop && error == Some("Redis heartbeat unavailable")
      ensures beat.fault.Fails? && job.token in active ==> active[job.token] == old(active[job.token]).(lost := true)
      ensures beat.fault.Works? ==> stop == old(stop) && error == old(error)
      ensures beat.fault.Works? ==>
                |queue.log| > |old(queue.log)| && IsRenewal(queue.log[|queue.log| - 1], job, beat, leaseMs)
      ensures beat.fault.Works? && job.token in active ==>
        active[job.token] == old(active[job.token]).(
          lost := old(active[job.token].lost) || ReplyOf(queue.log, |queue.log| - 1) != Accepted)
    {
      hide Exec, ReplyOf, Issued, Genuine, RunQueue.Valid;
      OtherCalls(beat.before);
      var renewed := false;
      if beat.fault.Works? || beat.fault.executed {
        var reply := Command(beat.at, Renew(job.testCase.id, job.token, leaseMs));
        renewed := reply == Accepted;
      }
      if beat.fault.Fails? {
        error, stop := Some(NO_HEARTBEAT), true;
        renewed := false;
      }
      if !renewed && job.token in active {
        active := active[job.token := active[job.token].(lost := true)];
      }
    }

    /** The jobs that are active, each once, in any order. */
    method Snapshot() returns (jobs: seq<Job>)
      requires Valid()
      ensures forall i :: 0 <= i < |jobs| ==> jobs[i].token in active && active[jobs[i].token].job == jobs[i]
      ensures forall t :: t in active ==> active[t].job in jobs && active[t].job.token == t
      ensures forall i, j :: 0 <= i < j < |jobs| ==> jobs[i] != jobs[j]
    {
      hide Issued, Genuine, RunQueue.Valid;
      jobs := [];
      var left := active.Keys;
      while left != {}
        invariant left <= active.Keys
        invariant forall i :: 0 <= i < |jobs| ==>
          jobs[i].token in active && jobs[i].token !in left && active[jobs[i].token].job == jobs[i]
        invariant forall t :: t in active && t !in left ==> active[t].job in jobs
        invariant forall i, j :: 0 <= i < j < |jobs| ==> jobs[i] != jobs[j]
        decreases left
      {
        var t :| t in left;
        jobs := jobs + [active[t].job];
        left := left - {t};
      }
    }

    /** One round of the heartbeat over the active jobs, with the renewal each of them gets: an active job that
        is not marked lost afterwards was renewed, and a new mark stands for a renewal that failed or was refused. */
    method Heartbeat(beats: string -> Beat)
      requires Valid()
      modifies this`active, this`stop, this`error, queue
      ensures Valid() && executions == old(executions) && old(queue.log) <= queue.log
      ensures active.Keys == old(active.Keys)
      ensures forall t :: t in active
                ==> active[t].job == old(active[t].job) && (old(active[t].lost) ==> active[t].lost)
      ensures stop == (old(stop) || exists t :: t in active && beats(t).fault.Fails?)
      ensures error == if exists t :: t in active && beats(t).fault.Fails? then Some(NO_HEARTBEAT) else old(error)
      ensures forall t :: t in active && !active[t].lost ==>
        Renewed(queue.log, |old(queue.log)|, active[t].job, beats(t), leaseMs)
      ensures forall t :: t in active && active[t].lost && !old(active[t].lost) ==>
        GivenUp(queue.log, |old(queue.log)|, active[t].job, beats(t), leaseMs)
    {
      hide FailedUpTo, Worker.Valid, RunQueue.Valid, RunQueue.State, Exec, Perform, ReplyOf, BeatenUpTo, IsRenewal,
           IsSuite;
      var jobs := Snapshot();
      ghost var from, was := |queue.log|, active;
      NoneBeaten(queue.log, from, was, jobs, beats, leaseMs);
      for i := 0 to |jobs|
        invariant Valid() && executions == old(executions) && old(queue.log) <= queue.log
        invariant active.Keys == was.Keys && forall t :: t in active ==> active[t].job == was[t].job
        invariant BeatenUpTo(queue.log, from, was, active, jobs, beats, leaseMs, i)
        invariant stop == (old(stop) || FailedUpTo(jobs, beats, i))
        invariant error == if FailedUpTo(jobs, beats, i) then Some(NO_HEARTBEAT) else old(error)
      {
        ghost var log, mid := queue.log, active;
        BeatOne(jobs[i], beats(jobs[i].token));
        BeatenOne(log, queue.log, from, was, mid, active, jobs, beats, leaseMs, i);
        FailedNext(jobs, beats, i);
      }
      AllBeaten(queue.log, from, was, active, jobs, beats, leaseMs);
      FailedOfAll(was, jobs, beats);
    }

    method Crash(message: string) returns (exit: Exit)
      requires Valid()
      modifies this`stop, this`error
      ensures Valid() && exit == Crashed && stop && error == Some(message)
    {
      error, stop, exit := Some(message), true, Crashed;
    }

    /** The commands after a claim without a job: stop when all cases are counted or the run is not open. The
        count is read after m calls and the state after n. */
    method CheckDone(total: nat, turn: Turn) returns (exit: Exit, ghost m: nat, ghost n: nat)
      requires Valid() && |queue.log| > 0
      modifies this`stop, this`error, queue
      ensures Valid() && old(queue.log) <= queue.log
      ensures |old(queue.log)| <= m <= n <= |queue.log| && (old(stop) ==> stop)
      ensures exit == Running ==> stop == old(stop) && error == old(error) && WentOn(queue.log, m, n, turn, total)
      ensures exit == Crashed ==> stop && error == Some(UNAVAILABLE) && FailsAt(queue.log, m, turn, total)
      ensures exit.Counted? || exit.Closed? ==>
        stop == old(stop) && error == old(error) && SawEnd(queue.log, |old(queue.log)| - 1, n, exit, turn, total)
      ensures !exit.Stopped?
    {
      hide Exec, Perform, ReplyOf, Issued, Genuine, Seen;
      OtherCalls(turn.beforeCount);
      ghost var counted := queue.log;
      m, n := |counted|, |counted|;
      assert queue.log[..n] == counted;
      if turn.countFails { exit := Crash(UNAVAILABLE); return; }
      if Count(queue.State(), turn.countAt) >= total { return Counted(turn.countAt), m, n; }
      OtherCalls(turn.beforeState);
      ghost var log := queue.log;
      n := |log|;
      assert queue.log[..m] == counted;
      if turn.stateFails { exit := Crash(UNAVAILABLE); return; }
      var seen := Seen(queue.State(), turn.stateAt);
      OtherCalls(turn.beforeTime);
      assert queue.log[..n] == log && queue.log[..m] == counted;
      if turn.timeFails { exit := Crash(UNAVAILABLE); return; }
      assert ShortAt(queue.log, m, turn, total);
      if OpenAt(seen.meta, turn.micros) { return Running, m, n; }
      exit := Closed(turn.stateAt, turn.micros);
    }

    /** The completion of an active job. */
    method Offer(job: Job, result: CaseResult, now: int, ghost e: X.Execution)
      requires Valid() && job.token in active && active[job.token].job == job && result.delivery == job.delivery
      requires X.Executes(job.testCase, e, result) && e.o == options
      modifies this`executions, queue
      ensures Valid() && queue.log == old(queue.log) + [At(now, Complete(job.testCase.id, job.token, result))]
      ensures |old(queue.log)| !in old(executions) && executions == old(executions)[|old(queue.log)| := e]
    {
      hide Exec, Perform, ReplyOf, Issued, X.Executes;
      CompletionIsGenuine(queue.log, now, job, result, e);
      ghost var at := |queue.log|;
      var _ := Command(now, Complete(job.testCase.id, job.token, result));
      executions := executions[at := e];
    }

    /** The heartbeats of a job while its case runs. The flag they leave is what the execution sees. */
    method BeatAll(job: Job, beats: seq<Beat>) returns (lostAt: Option<nat>)
      requires Valid() && job.token in active && active[job.token] == Held(job, false)
      modifies this`active, this`stop, this`error, queue
      ensures Valid() && executions == old(executions) && old(queue.log) <= queue.log
      ensures active == old(active)[job.token := Held(job, lostAt.Some?)]
      ensures stop == (old(stop) || SomeFail(beats))
      ensures error == if SomeFail(beats) then Some(NO_HEARTBEAT) else old(error)
      ensures FlagOf(queue.log, |old(queue.log)|, job, beats, leaseMs, LostFrom(lostAt))
    {
      hide Worker.Valid, RunQueue.Valid, RunQueue.State, Exec, Perform, ReplyOf, Renewed, GivenUp, IsRenewal, IsSuite;
      lostAt := None;
      ghost var first := 0;
      for i := 0 to |beats|
        invariant Valid() && executions == old(executions) && old(queue.log) <= queue.log
        invariant active == old(active)[job.token := Held(job, lostAt.Some?)]
        invariant stop == (old(stop) || SomeFail(beats[..i]))
        invariant error == if SomeFail(beats[..i]) then Some(NO_HEARTBEAT) else old(error)
        invariant lostAt.None? ==> first == i
        invariant lostAt.Some? ==> first < i && lostAt.value == beats[first].tick
        invariant FirstGivenUp(queue.log, |old(queue.log)|, job, beats[..i], leaseMs, first)
      {
        ghost var log := queue.log;
        BeatOne(job, beats[i]);
        FirstGivenUpLater(log, queue.log, |old(queue.log)|, job, beats[..i], leaseMs, first);
        LastBeat(queue.log, |old(queue.log)|, job, beats[i], leaseMs);
        assert beats[..i + 1] == beats[..i] + [beats[i]];
        if lostAt.None? {
          if active[job.token].lost { lostAt := Some(beats[i].tick); } else { first := i + 1; }
        }
      }
      assert beats[..|beats|] == beats;
    }

    method Register(job: Job)
      requires Valid() && Issued(queue.log, job)
      modifies this`active
      ensures Valid() && active == old(active)[job.token := Held(job, false)]
    {
      active := active[job.token := Held(job, false)];
    }

    method Forget(token: string)
      requires Valid()
      modifies this`active
      ensures Valid() && active == old(active) - {token}
    {
      active := active - {token};
    }

    /** A stop from another thread or from a signal. */
    method NoteStop(stopped: bool)
      requires Valid()
      modifies this`stop
      ensures Valid() && stop == (old(stop) || stopped)
    {
      if stopped { stop := true; }
    }

    /** The case is run while the heartbeats of the job decide its lost flag. */
    method Work(job: Job, turn: Turn) returns (result: CaseResult, ghost e: X.Execution)
      requires Valid() && Issued(queue.log, job)
      modifies this`active, this`stop, this`error, queue
      ensures Valid() && old(queue.log) <= queue.log && executions == old(executions)
      ensures job.token in active && active[job.token].job == job
      ensures active - {job.token} == old(active) - {job.token}
      ensures stop == (old(stop) || SomeFail(turn.beats))
      ensures error == if SomeFail(turn.beats) then Some(NO_HEARTBEAT) else old(error)
      ensures X.Executes(job.testCase, e, result) && result.delivery == job.delivery && result.workerId == workerId
      ensures e.o == options && SameReadings(e.w, turn.world)
      ensures FlagOf(queue.log, |old(queue.log)|, job, turn.beats, leaseMs, e.w.lost)
    {
      hide Worker.Valid, RunQueue.Valid, RunQueue.State, Exec, Perform, ReplyOf, Issued, X.Executes, X.Steady, FlagOf,
           LostFrom, SomeFail, IsSuite;
      Register(job);
      var lostAt := BeatAll(job, turn.beats);
      var world := turn.world.(lost := LostFrom(lostAt));
      FlagIsSteady(world, lostAt);
      var outcome, _, execution := X.RunCase(job.testCase, workerId, job.delivery, options, world);
      result, e := outcome, execution;
    }

    /** The work on one claimed job: run the case under the flag of its heartbeats, offer the result, forget
        the job. */
    method Serve(job: Job, turn: Turn) returns (exit: Exit, ghost result: CaseResult, ghost e: X.Execution)
      requires Valid() && Issued(queue.log, job)
      modifies this`active, this`stop, this`error, this`executions, queue
      ensures Valid() && old(queue.log) <= queue.log && Extends(old(executions), executions)
      ensures exit == (if turn.completeFault.Works? then Running else Crashed)
      ensures stop == (old(stop) || SomeFail(turn.beats) || turn.completeFault.Fails?)
      ensures error == if turn.completeFault.Fails? then Some(UNAVAILABLE)
                       else if SomeFail(turn.beats) then Some(NO_HEARTBEAT) else old(error)
      ensures active == old(active) - {job.token}
      ensures X.Executes(job.testCase, e, result) && result.delivery == job.delivery && result.workerId == workerId
      ensures e.o == options && SameReadings(e.w, turn.world)
      ensures FlagOf(queue.log, |old(queue.log)|, job, turn.beats, leaseMs, e.w.lost)
      ensures exit == Running ==>
        var q := |queue.log| - 1;
        && |old(queue.log)| <= q && q in executions && executions[q] == e
        && queue.log[q] == At(turn.completeAt, Complete(job.testCase.id, job.token, result))
    {
      hide Worker.Valid, RunQueue.Valid, RunQueue.State, Exec, Perform, ReplyOf, Issued, X.Executes, X.Steady, FlagOf,
           SomeFail, IsSuite, SameReadings;
      var outcome, execution := Work(job, turn);
      result, e := outcome, execution;
      ghost var log := queue.log;
      OtherCalls(turn.during);
      FlagLater(log, queue.log, |old(queue.log)|, job, turn.beats, leaseMs, e.w.lost);
      log := queue.log;
      if turn.completeFault.Works? || turn.completeFault.executed { Offer(job, outcome, turn.completeAt, execution); }
      FlagLater(log, queue.log, |old(queue.log)|, job, turn.beats, leaseMs, e.w.lost);
      Forget(job.token);
      exit := Running;
      if turn.completeFault.Fails? { exit := Crash(UNAVAILABLE); }
    }

    /** One turn of the loop, with the position p of its claim. */
    method OneTurn(total: nat, turn: Turn) returns (exit: Exit, ghost p: nat, ghost n: nat)
      requires Valid()
      modifies this`active, this`stop, this`error, this`executions, queue
      ensures Valid() && old(queue.log) <= queue.log && Extends(old(executions), executions)
      ensures active.Keys <= old(active.Keys) && !exit.Stopped?
      ensures turn.claimFault.Works? ==> |old(queue.log)| <= p < |queue.log| && IsClaim(queue.log, p, turn, leaseMs)
      ensures exit == Running ==>
        && turn.claimFault.Works? && ServedAt(queue.log, p, |queue.log|, executions, turn, leaseMs, total)
        && stop == (old(stop) || BeatsFailed(queue.log, p, turn))
        && error == if BeatsFailed(queue.log, p, turn) then Some(NO_HEARTBEAT) else old(error)
      ensures exit == Crashed ==> stop && error == Some(UNAVAILABLE) && FaultyAt(queue.log, p, turn, leaseMs, total)
      ensures exit.Counted? || exit.Closed? ==>
        && stop == old(stop) && error == old(error)
        && turn.claimFault.Works? && Finished(queue.log, p, n, exit, turn, leaseMs, total)
    {
      hide Worker.Valid, RunQueue.Valid, RunQueue.State, Seen, NotOpen, Exec, Perform, X.Executes, ReplyOf, WentOn,
           SawEnd, FailsAt, ServedAt, Issued, FlagOf, SomeFail, SameReadings, IsSuite;
      p, n := 0, 0;
      OtherCalls(turn.before);
      if turn.claimFault.Fails? {
        if turn.claimFault.executed { var _ := Command(turn.claimAt, Claim(turn.token, leaseMs)); }
        exit := Crash(UNAVAILABLE);
        return;
      }
      p := |queue.log|;
      var reply := Command(turn.claimAt, Claim(turn.token, leaseMs));
      ghost var log := queue.log;
      ClaimReplies(log, p);
      if reply == NoJob {
        ghost var m;
        exit, m, n := CheckDone(total, turn);
        ClaimLater(log, queue.log, p, turn, leaseMs);
        assert p < m <= |queue.log|;
        if exit == Running { IdledNow(log, queue.log, m, n, executions, turn, leaseMs, total); }
      } else {
        var job := Job(reply.testCase, turn.token, reply.delivery);
        IssuedNow(log, job);
        ghost var result, e;
        exit, result, e := Serve(job, turn);
        ClaimLater(log, queue.log, p, turn, leaseMs);
        if exit == Running {
          EndedNow(log, queue.log, result, executions, turn, leaseMs);
          WorkedNow(log, queue.log, executions, turn, leaseMs, total);
        }
      }
    }

    /** The loop of one thread. It stops before a turn exactly when something stopped it; every turn before was
        gone through without a fault. Otherwise it ends at a turn of which a command failed, or, without stop or
        error, at one whose claim got nothing and after which all results were counted or the run seen not open. */
    method Consume(total: nat, turns: seq<Turn>)
        returns (exit: Exit, ghost p: nat, ghost n: nat, ghost marks: seq<nat>, ghost claims: seq<nat>)
      requires Valid()
      modifies this`active, this`stop, this`error, this`executions, queue
      ensures Valid() && old(queue.log) <= queue.log && Extends(old(executions), executions)
      ensures active.Keys <= old(active.Keys)
      ensures AllServed(queue.log, marks, claims, executions, turns, leaseMs, total, old(stop))
      ensures marks[0] == |old(queue.log)|
      ensures exit.Running? <==> |claims| == |turns|
      ensures exit.Stopped? <==> |claims| < |turns| && StopsAt(queue.log, claims, turns, |claims|, old(stop))
      ensures exit.Stopped? ==> stop
      ensures exit.Stopped? ==>
        var k := |claims|;
        error ==
          if k > 0 && BeatsFailed(queue.log, claims[k - 1], turns[k - 1]) then Some("Redis heartbeat unavailable")
          else old(error)
      ensures exit.Crashed? ==>
        stop && error == Some("Redis unavailable") && FaultyAt(queue.log, p, turns[|claims|], leaseMs, total)
      ensures exit.Crashed? && turns[|claims|].claimFault.Works? ==> marks[|claims|] <= p
      ensures exit.Counted? || exit.Closed? ==>
        && !stop && error == old(error)
        && marks[|claims|] <= p && Finished(queue.log, p, n, exit, turns[|claims|], leaseMs, total)
    {
      hide Worker.Valid, RunQueue.Valid, RunQueue.State, AllServed, StopsAt, ServedAt, Finished, FaultyAt, BeatsFailed,
           Extends, IsSuite;
      p, n, marks, claims := 0, 0, [|queue.log|], [];
      NoneServed(queue.log, executions, turns, leaseMs, total, stop);
      for k := 0 to |turns|
        invariant Valid() && old(queue.log) <= queue.log && active.Keys <= old(active.Keys)
        invariant Extends(old(executions), executions)
        invariant |claims| == k && |marks| == k + 1 && marks[0] == |old(queue.log)| && marks[k] == |queue.log|
        invariant AllServed(queue.log, marks, claims, executions, turns, leaseMs, total, old(stop))
        invariant stop == if k == 0 then old(stop) else BeatsFailed(queue.log, claims[k - 1], turns[k - 1])
        invariant error == if k > 0 && stop then Some(NO_HEARTBEAT) else old(error)
      {
        NoteStop(turns[k].stopped);
        StopMeans(queue.log, claims, turns, old(stop), stop);
        if stop { return Stopped, p, n, marks, claims; }
        ghost var log, sent := queue.log, executions;
        exit, p, n := OneTurn(total, turns[k]);
        ExtendsAll(old(executions), sent, executions);
        StopLater(log, queue.log, marks, claims, sent, turns, leaseMs, total, old(stop));
        AllServedLater(log, queue.log, marks, claims, sent, executions, turns, leaseMs, total, old(stop));
        if exit != Running { return; }
        OneMoreServed(queue.log, marks, claims, p, executions, turns, leaseMs, total, old(stop));
        marks, claims := marks + [|queue.log|], claims + [p];
      }
      exit := Running;
    }
  }
}

/** What a worker may conclude from what it saw. */
module WorkerFacts {
  import opened Redis
  import opened Models
  import opened Queue
  import opened Refinement
  import opened Steps
  import opened Runs
  import opened Refusal
  import opened Idle
  import opened Deliveries
  import opened Workers
  import L = Lifecycle
  import X = Executor

  /** A full count means that every case of the run has its result. */
  lemma CountedMeansDone(t: Trace, at: int, total: nat)
    requires Exec(t).meta.Meta? && |Exec(t).meta.suite| == total
    requires |Seen(Exec(t), at).results.m| >= total
    ensures Exec(t).results.m.Keys == Exec(t).tasks.m.Keys
    ensures Exec(t).ready.m == map[] && Exec(t).leases.m == map[]
  {
    InvAlways(t);
    SeenAllOrNothing(Exec(t), at);
    CountMeansAllDone(Exec(t));
  }

  /** When is_open answered no, the state it had read is one in which, at the clock it then read and at every
      later one, the scripts refuse everything. */
  lemma ClosedMeansInactive(t: Trace, n: nat, exit: Exit, later: int)
    requires exit.Closed? && NotOpen(t, n, exit) && exit.at <= exit.micros / 1000 <= later
    ensures !Active(Seen(Exec(t[..n]), later), later)
  {
    InvAlways(t[..n]);
    var db := Exec(t[..n]);
    SeenAllOrNothing(db, later);
    SeenAllOrNothing(db, exit.at);
    if db.meta.Meta? { WholeMilliseconds(db.meta.deadline, exit.micros); }
  }

  /** All cases have their results, or the run is over by the time at, whatever is called. */
  ghost predicate SettledBy(db: Db, at: int) {
    db.meta.NoMeta? || !db.meta.open || db.meta.deadline <= at
    || forall x :: x in Abs(db) ==> Abs(db)[x].Finished?
  }

  /** That stays so with every call but a creation; and from then on no call hands a case out or is accepted. */
  lemma SettledStays(db: Db, now: int, call: Call, at: int)
    requires Inv(db) && SettledBy(db, at) && Perform(db, now, call).1 != Created
    ensures SettledBy(Perform(db, now, call).0, at)
    ensures at <= now ==> !Perform(db, now, call).1.Granted? && Perform(db, now, call).1 != Accepted
  {
    hide Perform, Good, Expiry, Handed, Inv;
    if Seen(db, now).meta.NoMeta? || call.Delete? {
      var _, _ := CallOnNothing(db, now, call);
    } else {
      var arrows, after, reply := CallAdvances(db, now, call);
      L.FinishedStays(Abs(db), db.meta.deliveries, now, arrows, Abs(after));
      if reply.Granted? { LeaseAfterGrant(db, now, call); }
    }
  }

  lemma {:induction false} SettledAlong(t: Trace, n: nat, j: nat, at: int)
    requires n <= j <= |t| && SettledBy(Exec(t[..n]), at) && forall k :: n <= k < j ==> ReplyOf(t, k) != Created
    ensures SettledBy(Exec(t[..j]), at)
    decreases j
  {
    hide Perform, SettledBy, Exec, Inv;
    if n < j {
      SettledAlong(t, n, j - 1, at);
      InvAlways(t[..j - 1]);
      ExecNext(t, j - 1);
      SettledStays(Exec(t[..j - 1]), t[j - 1].now, t[j - 1].call, at);
    }
  }

  /** What a thread saw when it ended: all cases have their results, or the run is over by the clock it read. */
  lemma EndMeansSettled(t: Trace, p: nat, n: nat, exit: Exit, turn: Turn, total: nat, at: int)
    requires SawEnd(t, p, n, exit, turn, total) && total > 0
    requires Exec(t[..n]).meta.Meta? ==> |Exec(t[..n]).meta.suite| == total
    requires exit.Closed? ==> exit.at <= exit.micros / 1000 <= at
    ensures SettledBy(Exec(t[..n]), at)
  {
    var db := Exec(t[..n]);
    InvAlways(t[..n]);
    SeenAllOrNothing(db, exit.at);
    if exit.Counted? {
      CountedMeansDone(t[..n], exit.at, total);
      forall x | x in Abs(db) ensures Abs(db)[x].Finished? { assert CaseOk(db, x); }
    } else if db.meta.Meta? {
      WholeMilliseconds(db.meta.deadline, exit.micros);
    }
  }

  lemma SawEndInside(log: Trace, p: nat, n: nat, exit: Exit, turn: Turn, total: nat)
    requires SawEnd(log, p, n, exit, turn, total)
    ensures n <= |log|
  {
    hide Exec, Seen;
  }

  /** A thread that ended without stop or error has nothing left to do: unless the run is created again, no
      later call by anyone gets a case or has a renewal or a completion accepted. log is the log when it ended,
      t any longer one. */
  lemma NothingLeftToDo(log: Trace, t: Trace, p: nat, n: nat, exit: Exit, turn: Turn, leaseMs: int, total: nat, j: nat)
    requires Finished(log, p, n, exit, turn, leaseMs, total) && log <= t && total > 0 && n <= j < |t|
    requires Exec(log[..n]).meta.Meta? ==> |Exec(log[..n]).meta.suite| == total
    requires exit.Closed? ==> exit.at <= exit.micros / 1000 <= t[j].now
    requires forall k :: n <= k <= j ==> ReplyOf(t, k) != Created
    ensures !ReplyOf(t, j).Granted? && ReplyOf(t, j) != Accepted
  {
    hide Perform, SettledBy, Exec, Inv, SawEnd;
    FinishedLater(log, t, p, n, exit, turn, leaseMs, total);
    SawEndInside(log, p, n, exit, turn, total);
    assert t[..n] == log[..n];
    EndMeansSettled(t, p, n, exit, turn, total, t[j].now);
    SettledAlong(t, n, j, t[j].now);
    InvAlways(t[..j]);
    assert ReplyOf(t, j) != Created;
    SettledStays(Exec(t[..j]), t[j].now, t[j].call, t[j].now);
  }

  lemma RenewReplies(t: Trace, i: nat)
    requires i < |t| && t[i].call.Renew?
    ensures ReplyOf(t, i) == Accepted || ReplyOf(t, i) == Refused
  {
  }

  /** A job whose renewal was refused can be given up: no later completion of it is accepted. */
  lemma RefusedBeatIsFinal(t: Trace, i: nat, j: nat, job: Job)
    requires Clock(t) && FreshTokens(t) && i < j < |t| && Issued(t[..i], job)
    requires t[i].call.Renew? && t[i].call.id == job.testCase.id && t[i].call.token == job.token
    requires ReplyOf(t, i) != Accepted
    requires t[j].call.Complete? && t[j].call.id == job.testCase.id && t[j].call.token == job.token
    ensures ReplyOf(t, j) != Accepted
  {
    hide Exec, Perform;
    var k :| GaveOut(t[..i], k, job);
    ReplyPrefix(t, i, k);
    AcceptsUsable(t, i, job.testCase.id, job.token);
    RenewReplies(t, i);
    RefusalIsPermanent(t, k, i, j, job.testCase.id, job.token);
  }

  lemma GenuineIsHonest(t: Trace, i: nat, e: X.Execution)
    requires Genuine(t, i, e)
    ensures Honest(t, i)
  {
    hide ReplyOf, X.Executes;
    var j :| ComesFrom(t, i, j, e);
  }

  /** An accepted result of a worker carries the attempt counter of its case. */
  lemma WorkerResultCarriesCounter(t: Trace, i: nat, e: X.Execution)
    requires FreshTokens(t) && Genuine(t, i, e) && ReplyOf(t, i) == Accepted
    ensures t[i].call.result.delivery == Attempts(Found(t, i), t[i].call.id) >= 1
  {
    hide ReplyOf, X.Executes;
    GenuineIsHonest(t, i, e);
    AcceptedCarriesCounter(t, i);
  }

  /** Losing a lease prevents future steps from being sent: in the execution on record for a turn, once a renewal
      of the job was refused or failed, no step of its case that begins at or after that tick sends anything,
      nor does it pass. */
  lemma LostLeaseStopsSending(log: Trace, p: nat, q: nat, executions: map<nat, X.Execution>, turn: Turn, leaseMs: int,
                              k: nat)
      returns (i: nat)
    requires Ended(log, p, q, executions, turn, leaseMs) && k < |log[q].call.result.steps|
    ensures i <= |turn.beats| && FirstGivenUp(log, p + 1, JobOf(log, p, turn), turn.beats, leaseMs, i)
    ensures var e := executions[q];
      && k < |e.spans|
      && (i < |turn.beats| && turn.beats[i].tick <= e.spans[k].tick ==>
            && e.spans[k].from <= e.spans[k].to <= |e.log| && X.Sends(e.log[e.spans[k].from..e.spans[k].to]) == 0
            && log[q].call.result.steps[k].status != Passed)
  {
    hide FirstGivenUp, X.Ran, X.Worst, X.Obeys, X.Outcome, X.LogOf, ReplyOf;
    var job, e, result := JobOf(log, p, turn), executions[q], log[q].call.result;
    i :| 0 <= i <= |turn.beats| && FirstGivenUp(log, p + 1, job, turn.beats, leaseMs, i)
      && forall tick :: e.w.lost(tick) <==> i < |turn.beats| && turn.beats[i].tick <= tick;
    X.EntryCarried(job.testCase, e, result.steps, k);
    if i < |turn.beats| && turn.beats[i].tick <= e.spans[k].tick {
      X.LossStopsSteps(X.StepAt(job.testCase, e, k), X.DeadlineAt(e, k), e.o, e.w, e.log, e.spans[k], result.steps[k]);
    }
  }
}
