/**
 * The send lease of src/tasks/notifications.py.
 *
 * Any number of tasks may try to deliver one (subscription, article) pair.  They share one
 * delivery-log row.  A task reads the clock, later claims the row, sends, records the attempt, and
 * may die at any point.  `ClaimRow` and `RecordRow` are the two row transactions; the class
 * `Delivery` runs them in place, and the transition system below interleaves them.
 */
module DeliveryLease {
  import opened Prelude

  // Timestamps count microseconds, the resolution of the database clock.
  const SECOND := 1_000_000
  const LEASE := 120 * SECOND
  const TASK_TIME_LIMIT := 90 * SECOND
  const MAX_ERROR_CHARS := 1000

  datatype Row = Row(
    succeeded: bool,
    attempts: nat,
    leasedUntil: Option<int>,
    httpStatus: Option<int>,
    error: Option<string>,
    deliveredAt: int)

  datatype Outcome = Granted | AlreadyDelivered | InFlight

  /** What an attempt reports: did the payload arrive, and the status and error to log. */
  datatype Report = Report(ok: bool, httpStatus: Option<int>, error: Option<string>)

  /** The claim transaction; `now` was read before the row lock, `clock` is the time of the insert. */
  function ClaimRow(row: Option<Row>, now: int, clock: int): (Option<Row>, Outcome) {
    var log := if row.Some? then row.value else Row(false, 0, None, None, None, clock);
    if log.succeeded then
      (Some(log), AlreadyDelivered)
    else if log.leasedUntil.Some? && log.leasedUntil.value > now then
      (row, InFlight)
    else
      (Some(log.(leasedUntil := Some(now + LEASE))), Granted)
  }

  function Clip(error: Option<string>): Option<string> {
    if error.None? || error.value == "" then None
    else if |error.value| > MAX_ERROR_CHARS then Some(error.value[..MAX_ERROR_CHARS])
    else error
  }

  /** The record statement: only a row that is not delivered yet is written. */
  function RecordRow(row: Option<Row>, report: Report, clock: int): Option<Row> {
    if row.None? || row.value.succeeded then row
    else
      Some(Row(report.ok, row.value.attempts + 1, None, report.httpStatus, Clip(report.error), clock))
  }

  // ---------------------------------------------------------------------------------------------
  // One task run to its end, in place
  // ---------------------------------------------------------------------------------------------

  datatype Channel = Webhook | Email
  datatype Interval = Instant | Daily

  datatype Subscription = Subscription(channel: Channel, hasTarget: bool, hasSecret: bool, interval: Interval)

  /** How the send ended: a final status, a target refused by the URL checks, or an exception. */
  datatype Sent = Answered(status: nat) | Blocked(why: string) | Raised(code: Option<int>, name: string)

  datatype Result =
    | Gone | Deduped | Refused | NoSecret | NoTarget | BlockedTarget | Failed
    | Done(status: nat, ok: bool)

  /** A finished send moves `last_notified_at` only if the subscription was instant when read, and still is. */
  predicate MovesLastNotified(ok: bool, loaded: Interval, stored: Interval) {
    ok && loaded.Instant? && stored == loaded
  }

  class Delivery {
    var log: Option<Row>
    var interval: Interval          // the subscription's interval as stored now
    var lastNotifiedAt: Option<int>

    constructor (interval: Interval)
      ensures log == None && this.interval == interval && lastNotifiedAt == None
    {
      log, this.interval, lastNotifiedAt := None, interval, None;
    }

    method Claim(now: int, clock: int) returns (outcome: Outcome)
      modifies this`log
      ensures (log, outcome) == ClaimRow(old(log), now, clock)
      ensures outcome.Granted? ==> log.Some? && log.value.leasedUntil == Some(now + 120_000_000)
    {
      var row := log;
      if row.None? {
        row := Some(Row(false, 0, None, None, None, clock));
      }
      if row.value.succeeded {
        return AlreadyDelivered;
      }
      if row.value.leasedUntil.Some? && row.value.leasedUntil.value > now {
        return InFlight;
      }
      log := Some(row.value.(leasedUntil := Some(now + LEASE)));
      return Granted;
    }

    method Record(report: Report, clock: int)
      modifies this`log
      ensures log == RecordRow(old(log), report, clock)
      ensures old(log).None? || old(log).value.succeeded ==> log == old(log)
      ensures old(log).Some? && !old(log).value.succeeded ==>
        && log.Some? && log.value.succeeded == report.ok && log.value.attempts == old(log).value.attempts + 1
        && log.value.leasedUntil == None && log.value.httpStatus == report.httpStatus && log.value.deliveredAt == clock
        && (log.value.error.None? <==> report.error.None? || report.error.value == "")
        && (log.value.error.Some? ==>
              log.value.error.value <= report.error.value
              && |log.value.error.value| == if |report.error.value| <= 1000 then |report.error.value| else 1000)
    {
      if log.Some? && !log.value.succeeded {
        var row := log.value.(httpStatus := report.httpStatus, error := Clip(report.error), leasedUntil := None);
        if report.ok {
          row := row.(succeeded := true);
        }
        log := Some(row.(attempts := row.attempts + 1, deliveredAt := clock));
      }
    }

    /**
     * One run of the task: `sub` is the subscription as read at the start (None when it or the
     * article is gone), `now`, `clock` and `end` are its three clock readings.  A granted claim is
     * always recorded exactly once, which releases the lease, and only an instant subscription's
     * successful send moves `lastNotifiedAt`.
     */
    method Deliver(sub: Option<Subscription>, sent: Sent, now: int, clock: int, end: int) returns (result: Result)
      modifies this`log, this`lastNotifiedAt
      ensures result.Gone? <==> sub.None?
      ensures result.Gone? ==> log == old(log)
      ensures sub.Some? ==>
        var (claimed, outcome) := ClaimRow(old(log), now, clock);
        && (!outcome.Granted? ==> log == claimed)
        && (result.Deduped? <==> outcome.AlreadyDelivered?)
        && (result.Refused? <==> outcome.InFlight?)
        && (outcome.Granted? ==>
              && log.Some? && log.value.attempts == claimed.value.attempts + 1
              && log.value.leasedUntil == None && log.value.deliveredAt == end)
      // A payload that arrived is never sent again, one that did not may be sent at once by anybody.
      ensures sub.Some? && !result.Refused? ==> forall now', clock' ::
        ClaimRow(log, now', clock').1 == if log.Some? && log.value.succeeded then AlreadyDelivered else Granted
      // What is logged and returned, for each way the send can end.
      ensures sub.Some? && !result.Deduped? && !result.Refused? && log.Some? ==>
        (log.value.succeeded <==>
           && sub.value.hasTarget && (sub.value.channel.Email? || sub.value.hasSecret)
           && sent.Answered? && 200 <= sent.status < 300)
      ensures result.NoTarget? <==> sub.Some? && !result.Deduped? && !result.Refused? && !sub.value.hasTarget
      ensures result.NoSecret? <==>
        && sub.Some? && !result.Deduped? && !result.Refused?
        && sub.value.hasTarget && sub.value.channel.Webhook? && !sub.value.hasSecret
      ensures result.NoTarget? && log.Some? ==> log.value.httpStatus == None && log.value.error == Some("no target")
      ensures result.NoSecret? && log.Some? ==> log.value.httpStatus == None && log.value.error == Some("no secret")
      ensures result.BlockedTarget? && log.Some? ==>
        sent.Blocked? && log.value.httpStatus == None && log.value.error.Some?
      ensures result.Failed? && log.Some? ==>
        sent.Raised? && log.value.httpStatus == sent.code && (log.value.error.None? <==> sent.name == "")
      ensures result.Done? && log.Some? ==>
        && sent.Answered? && result.status == sent.status && result.ok == log.value.succeeded
        && log.value.httpStatus == Some(sent.status) && (log.value.error.None? <==> 200 <= sent.status < 300)
      ensures lastNotifiedAt ==
        if result.Done? && result.ok && sub.Some? && sub.value.interval.Instant? && interval.Instant? then Some(end)
        else old(lastNotifiedAt)
    {
      if sub.None? {
        return Gone;
      }
      var outcome := Claim(now, clock);
      if outcome.AlreadyDelivered? {
        return Deduped;
      }
      if outcome.InFlight? {
        return Refused;
      }
      var s := sub.value;
      if !s.hasTarget {
        Record(Report(false, None, Some("no target")), end);
        return NoTarget;
      }
      if s.channel.Webhook? && !s.hasSecret {
        Record(Report(false, None, Some("no secret")), end);
        return NoSecret;
      }
      match sent {
        case Blocked(why) =>
          Record(Report(false, None, Some("blocked: " + why)), end);
          return BlockedTarget;
        case Raised(code, name) =>
          Record(Report(false, code, Some(name)), end);
          return Failed;
        case Answered(status) =>
          var ok := 200 <= status < 300;
          Record(Report(ok, Some(status), if ok then None else Some("receiver answered " + Decimal(status))), end);
          if MovesLastNotified(ok, s.interval, interval) {
            lastNotifiedAt := Some(end);
          }
          return Done(status, ok);
      }
    }
  }

  // ---------------------------------------------------------------------------------------------
  // Every interleaving of any number of tasks
  // ---------------------------------------------------------------------------------------------

  /** Where a task is; `at` is its clock reading. */
  datatype Phase =
    | HasClock(at: int)
    | Sending(at: int)
    | Recorded(ok: bool)
    | TurnedAway
    | Crashed(holding: bool)
  {
    predicate Live() { HasClock? || Sending? }
  }

  /** `granted` and `successes` only count what happened; no step reads them. */
  datatype State = State(clock: int, row: Option<Row>, tasks: map<nat, Phase>, granted: nat, successes: nat)

  datatype Event =
    | ReadClock(t: nat)
    | Claim(t: nat)
    | Record(t: nat, report: Report)
    | Crash(t: nat)
    | Tick(to: int)

  function Init(clock: int): State {
    State(clock, None, map[], 0, 0)
  }

  /** `h` bounds how long a task lives after its clock reading: time cannot pass a live task by. */
  ghost predicate Enabled(s: State, e: Event, h: int) {
    match e
    case ReadClock(t) => t !in s.tasks
    case Claim(t) => t in s.tasks && s.tasks[t].HasClock?
    case Record(t, _) => t in s.tasks && s.tasks[t].Sending?
    case Crash(t) => t in s.tasks && s.tasks[t].Live()
    case Tick(to) => s.clock < to && forall t | t in s.tasks && s.tasks[t].Live() :: to - s.tasks[t].at <= h
  }

  ghost function Apply(s: State, e: Event, h: int): State
    requires Enabled(s, e, h)
  {
    match e
    case ReadClock(t) => s.(tasks := s.tasks[t := HasClock(s.clock)])
    case Claim(t) =>
      var (row, outcome) := ClaimRow(s.row, s.tasks[t].at, s.clock);
      if outcome.Granted? then
        s.(row := row, tasks := s.tasks[t := Sending(s.tasks[t].at)], granted := s.granted + 1)
      else
        s.(row := row, tasks := s.tasks[t := TurnedAway])
    case Record(t, report) =>
      s.(row := RecordRow(s.row, report, s.clock),
         tasks := s.tasks[t := Recorded(report.ok)],
         successes := s.successes + (if report.ok then 1 else 0))
    case Crash(t) => s.(tasks := s.tasks[t := Crashed(s.tasks[t].Sending?)])
    case Tick(to) => s.(clock := to)
  }

  ghost predicate Steps(s: State, es: seq<Event>, s': State, h: int)
    decreases |es|
  {
    if es == [] then s == s'
    else Enabled(s, es[0], h) && Steps(Apply(s, es[0], h), es[1..], s', h)
  }

  ghost function SendingTasks(s: State): set<nat> {
    set t | t in s.tasks && s.tasks[t].Sending?
  }

  ghost function CrashedTasks(s: State): set<nat> {
    set t | t in s.tasks && s.tasks[t] == Crashed(true)
  }

  ghost function Attempts(s: State): nat {
    if s.row.None? then 0 else s.row.value.attempts
  }

  ghost predicate Delivered(s: State) {
    s.row.Some? && s.row.value.succeeded
  }

  ghost predicate Exclusive(s: State) {
    forall t, u | t in s.tasks && u in s.tasks && s.tasks[t].Sending? && s.tasks[u].Sending? :: t == u
  }

  /** The lease on the row is the sending task's own reading plus LEASE. */
  ghost predicate LeaseOwned(s: State) {
    forall t | t in s.tasks && s.tasks[t].Sending? ::
      s.row.Some? && !s.row.value.succeeded && s.row.value.leasedUntil == Some(s.tasks[t].at + LEASE)
  }

  ghost predicate Timely(s: State, h: int) {
    forall t | t in s.tasks && s.tasks[t].Live() ::
        s.tasks[t].at <= s.clock && (s.clock == s.tasks[t].at || s.clock - s.tasks[t].at <= h)
  }

  ghost predicate Conserved(s: State) {
    && s.granted == Attempts(s) + |SendingTasks(s)| + |CrashedTasks(s)|
    && s.successes == (if Delivered(s) then 1 else 0)
  }

  ghost predicate Inv(s: State, h: int) {
    Exclusive(s) && LeaseOwned(s) && Timely(s, h) && Conserved(s)
  }

  lemma ClaimKeepsInv(s: State, t: nat, h: int)
    requires Inv(s, h) && h < LEASE && Enabled(s, Claim(t), h)
    ensures Inv(Apply(s, Claim(t), h), h)
  {
    var s' := Apply(s, Claim(t), h);
    assert CrashedTasks(s') == CrashedTasks(s);
    if s'.granted > s.granted {
      assert SendingTasks(s) == {};
      assert SendingTasks(s') == {t};
    } else {
      assert SendingTasks(s') == SendingTasks(s);
    }
  }

  lemma RecordKeepsInv(s: State, t: nat, report: Report, h: int)
    requires Inv(s, h) && Enabled(s, Record(t, report), h)
    ensures Inv(Apply(s, Record(t, report), h), h)
  {
    var s' := Apply(s, Record(t, report), h);
    assert CrashedTasks(s') == CrashedTasks(s);
    assert SendingTasks(s) == {t};
    assert SendingTasks(s') == {};
  }

  lemma CrashKeepsInv(s: State, t: nat, h: int)
    requires Inv(s, h) && Enabled(s, Crash(t), h)
    ensures Inv(Apply(s, Crash(t), h), h)
  {
    var s' := Apply(s, Crash(t), h);
    assert Exclusive(s') && LeaseOwned(s') && Timely(s', h);
    if s.tasks[t].Sending? {
      CrashedWhileSending(s, s', t);
    } else {
      assert SendingTasks(s') == SendingTasks(s);
      assert CrashedTasks(s') == CrashedTasks(s);
    }
  }

  lemma CrashedWhileSending(s: State, s': State, t: nat)
    requires t in s.tasks && s.tasks[t].Sending? && s' == s.(tasks := s.tasks[t := Crashed(true)])
    requires Conserved(s)
    ensures Conserved(s')
  {
    assert SendingTasks(s') == SendingTasks(s) - {t} && t in SendingTasks(s);
    assert CrashedTasks(s') == CrashedTasks(s) + {t} && t !in CrashedTasks(s);
  }

  lemma StepKeepsInv(s: State, e: Event, h: int)
    requires Inv(s, h) && h < LEASE && Enabled(s, e, h)
    ensures Inv(Apply(s, e, h), h)
  {
    match e
    case ReadClock(t) =>
      assert SendingTasks(Apply(s, e, h)) == SendingTasks(s);
      assert CrashedTasks(Apply(s, e, h)) == CrashedTasks(s);
    case Claim(t) => ClaimKeepsInv(s, t, h);
    case Record(t, report) => RecordKeepsInv(s, t, report, h);
    case Crash(t) => CrashKeepsInv(s, t, h);
    case Tick(to) =>
      assert SendingTasks(Apply(s, e, h)) == SendingTasks(s);
      assert CrashedTasks(Apply(s, e, h)) == CrashedTasks(s);
  }

  lemma {:induction false} StepsKeepInv(s: State, es: seq<Event>, s': State, h: int)
    requires Inv(s, h) && h < LEASE && Steps(s, es, s', h)
    ensures Inv(s', h)
    decreases |es|
  {
    if es != [] {
      StepKeepsInv(s, es[0], h);
      StepsKeepInv(Apply(s, es[0], h), es[1..], s', h);
    }
  }

  /** In every run at most one task is sending, the lease is its own, and no attempt is lost. */
  lemma EveryRun(clock: int, es: seq<Event>, s: State, h: int)
    requires h < LEASE && Steps(Init(clock), es, s, h)
    ensures Exclusive(s) && LeaseOwned(s) && Conserved(s)
  {
    assert SendingTasks(Init(clock)) == {} && CrashedTasks(Init(clock)) == {};
    StepsKeepInv(Init(clock), es, s, h);
  }

  /** Once delivered, the row is frozen: no later step of any run changes it or grants a claim. */
  lemma {:induction false} DeliveredIsFinal(s: State, es: seq<Event>, s': State, h: int)
    requires Inv(s, h) && h < LEASE && Steps(s, es, s', h) && Delivered(s)
    ensures s'.row == s.row && s'.granted == s.granted && s'.successes == s.successes == 1
    decreases |es|
  {
    if es != [] {
      StepKeepsInv(s, es[0], h);
      DeliveredIsFinal(Apply(s, es[0], h), es[1..], s', h);
    }
  }

  /** The same over whole runs: whatever happens after a delivery leaves the row as it was then. */
  lemma DeliveredOnce(clock: int, es: seq<Event>, s: State, fs: seq<Event>, s': State, h: int)
    requires h < LEASE && Steps(Init(clock), es, s, h) && Steps(s, fs, s', h) && Delivered(s)
    ensures s'.row == s.row && s'.granted == s.granted && s'.successes == 1
  {
    assert SendingTasks(Init(clock)) == {} && CrashedTasks(Init(clock)) == {};
    StepsKeepInv(Init(clock), es, s, h);
    DeliveredIsFinal(s, fs, s', h);
  }

  /** The outcome of a claim in state `s` by a task whose clock reading is `now`. */
  ghost function Verdict(s: State, now: int): Outcome { ClaimRow(s.row, now, s.clock).1 }

  /**
   * How an attempt ends decides who may send next: after a recorded failure anybody, after a recorded
   * success nobody, and after a crash anybody whose reading is past the dead task's lease.
   */
  lemma WhoSendsNext(s: State, t: nat, report: Report, now: int, h: int)
    requires Inv(s, h) && t in s.tasks && s.tasks[t].Sending?
    ensures Verdict(Apply(s, Record(t, report), h), now) == if report.ok then AlreadyDelivered else Granted
    ensures Verdict(Apply(s, Crash(t), h), now) == if now >= s.tasks[t].at + LEASE then Granted else InFlight
  {
  }

  ghost predicate ExclusiveInEveryRun(h: int) {
    forall clock, es, s | Steps(Init(clock), es, s, h) :: Exclusive(s)
  }

  /** A task that may live as long as its lease can meet a second sender. */
  lemma TwoSendersWhenTooSlow(h: int) returns (es: seq<Event>, s: State)
    requires h >= LEASE
    ensures Steps(Init(0), es, s, h) && !Exclusive(s)
  {
    es := [ReadClock(0), Claim(0), Tick(LEASE), ReadClock(1), Claim(1)];
    var s1 := Apply(Init(0), es[0], h);
    var s2 := Apply(s1, es[1], h);
    var s3 := Apply(s2, es[2], h);
    var s4 := Apply(s3, es[3], h);
    s := Apply(s4, es[4], h);
    assert Steps(s, [], s, h);
    assert Steps(s4, es[4..], s, h);
    assert es[3..][1..] == es[4..] && Steps(s3, es[3..], s, h);
    assert es[2..][1..] == es[3..] && Steps(s2, es[2..], s, h);
    assert es[1..][1..] == es[2..] && Steps(s1, es[1..], s, h);
    assert s.tasks[0].Sending? && s.tasks[1].Sending?;
  }

  /** The lease excludes a second sender exactly when it outlasts every task. */
  lemma LeaseIsExact(h: int)
    ensures ExclusiveInEveryRun(h) <==> h < LEASE
  {
    if h < LEASE {
      forall clock, es, s | Steps(Init(clock), es, s, h) ensures Exclusive(s) {
        EveryRun(clock, es, s, h);
      }
    } else {
      var es, s := TwoSendersWhenTooSlow(h);
    }
  }

  /** The configured limits keep the protocol on the safe side. */
  lemma ConfiguredLimitIsSafe()
    ensures ExclusiveInEveryRun(TASK_TIME_LIMIT)
  {
    LeaseIsExact(TASK_TIME_LIMIT);
  }
}
