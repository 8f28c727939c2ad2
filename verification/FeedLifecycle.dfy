/**
 * Backoff (src/apps/feeds/backoff.py) and the error and pause bookkeeping of a feed
 * (src/tasks/fetcher.py).  Tasks load a copy of the feed, work on it, and save only some of its
 * fields, so what they write may be stale; `Steps` interleaves them.
 */
module FeedLifecycle {
  import opened Prelude
  import FeedScheduler

  const MAX_ERROR_EXPONENT := 6
  const MAX_DELAY_SECONDS := 24 * 3600

  // ---------------------------------------------------------------------------------------------
  // Backoff
  // ---------------------------------------------------------------------------------------------

  function Pow2(n: nat): (p: real)
    ensures p >= 1.0 && (n >= 1 ==> p >= 2.0)
  {
    if n == 0 then 1.0 else 2.0 * Pow2(n - 1)
  }

  function Min(a: real, b: real): real { if a <= b then a else b }

  /** Never longer than a pause, or one interval for feeds polled less often than that. */
  function Cap(base: nat): real {
    (if base >= MAX_DELAY_SECONDS then base else MAX_DELAY_SECONDS) as real
  }

  function Exponent(errors: nat): nat { if errors < MAX_ERROR_EXPONENT then errors else MAX_ERROR_EXPONENT }

  /** `next_attempt_at` minus the current time; `jitter` is the random draw. */
  function Delay(base: nat, errors: nat, jitter: real): real {
    Min(Raw(base as real, Pow2(Exponent(errors)), jitter), Cap(base))
  }

  function Raw(base: real, factor: real, jitter: real): real { base * factor * jitter }

  predicate ShouldDisable(errors: nat) { errors >= MAX_ERROR_EXPONENT }

  lemma RawAtLeast(b: real, p: real, j: real)
    requires b >= 0.0 && p >= 2.0 && j >= 0.5
    ensures Raw(b, p, j) >= b
  {
  }

  lemma RawDoubles(b: real, p: real, j: real)
    requires b >= 0.0 && p >= 0.0 && j >= 0.0
    ensures Raw(b, 2.0 * p, j) == 2.0 * Raw(b, p, j) && Raw(b, p, j) >= 0.0
  {
  }

  /** A failing feed waits at least its interval and at most the cap, whatever the draw. */
  lemma DelayBounds(base: nat, errors: nat, jitter: real)
    requires errors >= 1 && 0.5 <= jitter <= 1.5
    ensures base as real <= Delay(base, errors, jitter) <= Cap(base)
  {
    RawAtLeast(base as real, Pow2(Exponent(errors)), jitter);
    assert base as real <= Cap(base);
  }

  /** Without an error the delay is the drawn share of the interval, up to a day or the interval. */
  lemma FirstDelay(base: nat, jitter: real)
    ensures base <= 86_400 ==>
      Delay(base, 0, jitter) == if base as real * jitter <= 86_400.0 then base as real * jitter else 86_400.0
    ensures base > 86_400 ==> Delay(base, 0, jitter) == if jitter <= 1.0 then base as real * jitter else base as real
  {
    var b := base as real;
    assert Raw(b, Pow2(0), jitter) == b * jitter;
    if base > 86_400 {
      assert b * jitter <= b <==> jitter <= 1.0 by {
        assert b * jitter - b == b * (jitter - 1.0);
      }
    }
  }

  /** One more error doubles the delay, up to the cap; from six errors on it stays. */
  lemma DelayDoubles(base: nat, errors: nat, jitter: real)
    requires 0.0 <= jitter
    ensures errors < MAX_ERROR_EXPONENT ==>
              Delay(base, errors + 1, jitter) == Min(2.0 * Delay(base, errors, jitter), Cap(base))
    ensures errors >= MAX_ERROR_EXPONENT ==> Delay(base, errors, jitter) == Delay(base, MAX_ERROR_EXPONENT, jitter)
  {
    if errors < MAX_ERROR_EXPONENT {
      RawDoubles(base as real, Pow2(errors), jitter);
      assert Exponent(errors) == errors && Exponent(errors + 1) == errors + 1;
      assert Pow2(errors + 1) == 2.0 * Pow2(errors);
    }
  }

  lemma {:induction false} DelayGrows(base: nat, errors: nat, more: nat, jitter: real)
    requires 0.0 <= jitter && errors <= more
    ensures 0.0 <= Delay(base, errors, jitter) <= Delay(base, more, jitter)
    decreases more - errors
  {
    RawDoubles(base as real, Pow2(Exponent(errors)), jitter);
    if errors < more {
      DelayDoubles(base, errors, jitter);
      DelayDoubles(base, errors + 1, jitter);
      DelayGrows(base, errors + 1, more, jitter);
    }
  }

  // ---------------------------------------------------------------------------------------------
  // A feed's crawl state
  // ---------------------------------------------------------------------------------------------

  datatype Crawl = Crawl(feed: FeedScheduler.Feed, errors: nat)

  /** The clock readings and the random draw of one failure. */
  datatype Draw = Draw(now: real, pausedAt: real, jitter: real)

  /** `_record_failure` on the loaded copy. */
  function Failed(c: Crawl, d: Draw): Crawl {
    var errors := c.errors + 1;
    Crawl(c.feed.(
      nextFetchAt := d.now + Delay(c.feed.interval, errors, d.jitter),
      disabledUntil := if ShouldDisable(errors) then Some(d.pausedAt + MAX_DELAY_SECONDS as real)
          else c.feed.disabledUntil),
      errors)
  }

  function Succeeded(c: Crawl): Crawl { Crawl(c.feed.(disabledUntil := None), 0) }

  /** `reset_crawl_state`. */
  function Reset(c: Crawl, now: real): Crawl { Crawl(c.feed.(disabledUntil := None, nextFetchAt := now), 0) }

  // Which columns each writer saves; the rest of the row stays.

  function SaveFailure(row: Crawl, c: Crawl): Crawl {
    Crawl(row.feed.(nextFetchAt := c.feed.nextFetchAt, disabledUntil := c.feed.disabledUntil), c.errors)
  }

  function SaveSuccess(row: Crawl, c: Crawl): Crawl {
    Crawl(row.feed.(disabledUntil := c.feed.disabledUntil), c.errors)
  }

  function SaveNextFetch(row: Crawl, at: real): Crawl { row.(feed := row.feed.(nextFetchAt := at)) }

  function SaveRefresh(row: Crawl, at: real): Crawl {
    row.(feed := row.feed.(nextFetchAt := at, disabledUntil := None))
  }

  /** How a fetch task can end once it has loaded an active feed. */
  datatype Fetch = Ok | NotModified | Failure(d: Draw) | RateLimited(retryAt: real) | RobotsBlocked

  datatype Outcome = Fetched(f: Fetch) | Refreshed(at: real) | UrlChanged(at: real)

  function FetchSaved(row: Crawl, c: Crawl, f: Fetch): Crawl {
    match f
    case Ok => SaveSuccess(row, Succeeded(c))
    case NotModified => SaveSuccess(row, Succeeded(c))
    case Failure(d) => SaveFailure(row, Failed(c, d))
    case RateLimited(at) => SaveNextFetch(row, at)
    case RobotsBlocked => row
  }

  /** A writer that loaded `c` saves its outcome over `row`. */
  function Saved(row: Crawl, c: Crawl, o: Outcome): Crawl {
    match o
    case Fetched(f) => FetchSaved(row, c, f)
    case Refreshed(at) => SaveRefresh(row, at)
    case UrlChanged(at) => Reset(c, at)       // the form saves the whole loaded copy
  }

  /** A loaded feed: the task changes its fields and saves the columns it names. */
  class FeedRecord {
    var interval: nat
    var errors: nat
    var nextFetchAt: real
    var disabledUntil: Option<real>
    var active: bool
    var deleted: bool

    ghost function Value(): Crawl
      reads this
    {
      Crawl(FeedScheduler.Feed(nextFetchAt, interval, active, deleted, disabledUntil), errors)
    }

    constructor (interval: nat, now: real)
      ensures Value() == Crawl(FeedScheduler.Feed(now, interval, true, false, None), 0)
    {
      this.interval, errors, nextFetchAt, disabledUntil, active, deleted := interval, 0, now, None, true, false;
    }

    method RecordFailure(d: Draw)
      modifies this`errors, this`nextFetchAt, this`disabledUntil
      ensures Value() == Failed(old(Value()), d)
      ensures errors == old(errors) + 1 && nextFetchAt == d.now + Delay(interval, old(errors) + 1, d.jitter)
      ensures old(errors) + 1 >= 6 ==> disabledUntil == Some(d.pausedAt + 86_400.0)
      ensures old(errors) + 1 < 6 ==> disabledUntil == old(disabledUntil)
    {
      errors := errors + 1;
      nextFetchAt := d.now + Delay(interval, errors, d.jitter);
      if ShouldDisable(errors) {
        disabledUntil := Some(d.pausedAt + MAX_DELAY_SECONDS as real);
      }
    }

    /** `fetch_feed` on a feed nobody else is writing: the fields it ends with. */
    method FetchFeed(f: Fetch) returns (fetched: bool)
      modifies this`errors, this`nextFetchAt, this`disabledUntil
      ensures fetched <==> old(active && !deleted)
      ensures Value() == if fetched then FetchSaved(old(Value()), old(Value()), f) else old(Value())
      ensures fetched && (f.Ok? || f.NotModified?) ==>
        errors == 0 && disabledUntil == None && nextFetchAt == old(nextFetchAt)
      ensures fetched && f.Failure? ==>
        && errors == old(errors) + 1 && nextFetchAt == f.d.now + Delay(interval, errors, f.d.jitter)
        && disabledUntil == if errors >= 6 then Some(f.d.pausedAt + 86_400.0) else old(disabledUntil)
      ensures fetched && f.RateLimited? ==>
        errors == old(errors) && disabledUntil == old(disabledUntil) && nextFetchAt == f.retryAt
      ensures !fetched || f.RobotsBlocked? ==>
        errors == old(errors) && disabledUntil == old(disabledUntil) && nextFetchAt == old(nextFetchAt)
    {
      if !active || deleted {
        return false;
      }
      match f {
        case RobotsBlocked =>
        case RateLimited(at) => nextFetchAt := at;
        case Failure(d) => RecordFailure(d);
        case NotModified => errors, disabledUntil := 0, None;
        case Ok => errors, disabledUntil := 0, None;
      }
      return true;
    }
  }

  // ---------------------------------------------------------------------------------------------
  // Writers with stale copies
  // ---------------------------------------------------------------------------------------------

  /** The stored row and the copies that tasks and requests have loaded. */
  datatype State = State(row: Crawl, copies: map<nat, Crawl>)

  /** `SaveForm` is an edit form that leaves the URL alone and saves the whole loaded copy. */
  datatype Event =
    | Load(t: nat)
    | Save(t: nat, o: Outcome)
    | SaveForm(t: nat, interval: nat, active: bool)
    | Delete

  predicate Enabled(s: State, e: Event) {
    match e
    case Load(_) => true
    case Save(t, _) => t in s.copies
    case SaveForm(t, _, _) => t in s.copies
    case Delete => true
  }

  function Apply(s: State, e: Event): State
    requires Enabled(s, e)
  {
    match e
    case Load(t) => s.(copies := s.copies[t := s.row])
    case Save(t, o) => s.(row := Saved(s.row, s.copies[t], o))
    case SaveForm(t, interval, active) =>
      var c := s.copies[t];
      s.(row := c.(feed := c.feed.(interval := interval, active := active)))
    case Delete => s.(row := s.row.(feed := s.row.feed.(deleted := true, active := false)))
  }

  /** Every event of `es` is possible in turn, and the state they lead to. */
  predicate Runs(s: State, es: seq<Event>)
    decreases |es|, 0
  {
    es == [] || (Runs(s, es[..|es| - 1]) && Enabled(After(s, es[..|es| - 1]), es[|es| - 1]))
  }

  function After(s: State, es: seq<Event>): State
    requires Runs(s, es)
    decreases |es|, 1
  {
    if es == [] then s else Apply(After(s, es[..|es| - 1]), es[|es| - 1])
  }

  /** A pause needs six errors in a row. */
  predicate PauseEarned(c: Crawl) { c.feed.disabledUntil.Some? ==> c.errors >= MAX_ERROR_EXPONENT }

  predicate Inv(s: State) {
    PauseEarned(s.row) && forall t | t in s.copies :: PauseEarned(s.copies[t])
  }

  lemma StepKeepsInv(s: State, e: Event)
    requires Inv(s) && Enabled(s, e)
    ensures Inv(Apply(s, e))
  {
  }

  /** In every interleaving, stale writes included, a paused feed has at least six errors. */
  lemma {:induction false} PauseIsEarned(s: State, es: seq<Event>)
    requires Inv(s) && Runs(s, es)
    ensures Inv(After(s, es))
    decreases |es|
  {
    if es != [] {
      PauseIsEarned(s, es[..|es| - 1]);
      StepKeepsInv(After(s, es[..|es| - 1]), es[|es| - 1]);
    }
  }

  /** A failing feed is due again at the latest max(interval, 24 h) after its failure, pause included. */
  lemma FailingFeedComesBack(s: State, t: nat, d: Draw, at: real)
    requires Inv(s) && t in s.copies && 0.5 <= d.jitter <= 1.5
    requires s.row.feed.active && !s.row.feed.deleted
    requires at >= d.now + Cap(s.copies[t].feed.interval) && at >= d.pausedAt + Cap(s.copies[t].feed.interval)
    ensures FeedScheduler.Due(Apply(s, Save(t, Fetched(Failure(d)))).row.feed, at)
  {
    var c := s.copies[t];
    DelayBounds(c.feed.interval, c.errors + 1, d.jitter);
    assert PauseEarned(c);
  }

  /**
   * Exactly when a feed is due after a failure: once its delay is over, and from the sixth error in a row
   * on not before a day has passed.
   */
  lemma DueAfterFailure(s: State, t: nat, d: Draw, at: real)
    requires Inv(s) && t in s.copies
    ensures var c, f := s.copies[t], Apply(s, Save(t, Fetched(Failure(d)))).row.feed;
            && (c.errors + 1 < 6 ==> f.disabledUntil == None)
            && (FeedScheduler.Due(f, at) <==>
                  && s.row.feed.active && !s.row.feed.deleted
                  && at >= d.now + Delay(c.feed.interval, c.errors + 1, d.jitter)
                  && (c.errors + 1 >= 6 ==> at >= d.pausedAt + 86_400.0))
  {
    assert PauseEarned(s.copies[t]);
  }

  /** A stale copy only costs the columns its writer names: the rest of the row stays as it is stored. */
  lemma SavesOnlyItsColumns(s: State, t: nat, f: Fetch, at: real)
    requires t in s.copies
    ensures var row, r := s.row, Apply(s, Save(t, Fetched(f))).row;
            && r.feed.interval == row.feed.interval && r.feed.active == row.feed.active
            && r.feed.deleted == row.feed.deleted
            && (f.Ok? || f.NotModified? || f.RobotsBlocked? ==> r.feed.nextFetchAt == row.feed.nextFetchAt)
            && (f.RateLimited? || f.RobotsBlocked? ==>
                  r.errors == row.errors && r.feed.disabledUntil == row.feed.disabledUntil)
    ensures var row, r := s.row, Apply(s, Save(t, Refreshed(at))).row;
            r == row.(feed := row.feed.(nextFetchAt := at, disabledUntil := None))
    ensures var c, r := s.copies[t], Apply(s, Save(t, UrlChanged(at))).row;
            r == Crawl(c.feed.(nextFetchAt := at, disabledUntil := None), 0)
  {
  }

  /** A refresh ends a pause and makes the feed due at once; a new URL does the same to the loaded copy. */
  lemma DueAfterRefresh(s: State, t: nat, from: real, at: real)
    requires t in s.copies
    ensures var f := Apply(s, Save(t, Refreshed(from))).row.feed;
            FeedScheduler.Due(f, at) <==> s.row.feed.active && !s.row.feed.deleted && at >= from
    ensures var f, c := Apply(s, Save(t, UrlChanged(from))).row.feed, s.copies[t].feed;
            FeedScheduler.Due(f, at) <==> c.active && !c.deleted && at >= from
  {
  }

  // ---------------------------------------------------------------------------------------------
  // When the counter counts
  // ---------------------------------------------------------------------------------------------

  predicate Clears(e: Event) {
    e.Save? && (e.o == Fetched(Ok) || e.o == Fetched(NotModified) || e.o.UrlChanged?)
  }

  predicate Fails(e: Event) { e.Save? && e.o.Fetched? && e.o.f.Failure? }

  /** How many of `es[from..]` failed. */
  function FailuresFrom(es: seq<Event>, from: nat): nat
    requires from <= |es|
    decreases |es| - from
  {
    if from == |es| then 0 else (if Fails(es[from]) then 1 else 0) + FailuresFrom(es, from + 1)
  }

  /** The index after the last success or reset. */
  function LastClear(es: seq<Event>): (k: nat)
    ensures k <= |es|
    ensures k > 0 ==> Clears(es[k - 1])
    ensures forall i | k <= i < |es| :: !Clears(es[i])
  {
    if es == [] then 0
    else if Clears(es[|es| - 1]) then |es|
    else LastClear(es[..|es| - 1])
  }

  function FailuresSinceClear(es: seq<Event>): nat { FailuresFrom(es, LastClear(es)) }

  lemma {:induction false} FailuresSnoc(es: seq<Event>, e: Event, from: nat)
    requires from <= |es|
    ensures FailuresFrom(es + [e], from) == FailuresFrom(es, from) + (if Fails(e) then 1 else 0)
    decreases |es| - from
  {
    if from == |es| {
      assert FailuresFrom(es + [e], |es| + 1) == 0;
    } else {
      FailuresSnoc(es, e, from + 1);
    }
  }

  /** One more event: a clear starts again at zero, a failure adds one. */
  lemma SinceClearSnoc(es: seq<Event>, e: Event)
    ensures FailuresSinceClear(es + [e]) ==
            if Clears(e) then 0 else FailuresSinceClear(es) + (if Fails(e) then 1 else 0)
  {
    assert (es + [e])[..|es|] == es;
    FailuresSnoc(es, e, LastClear(es));
  }

  /** The event writes the counter of its copy. */
  predicate WritesCount(e: Event) { Fails(e) || e.SaveForm? }

  /** A write of the counter is made from a copy that has the row's. */
  predicate UpToDate(s: State, e: Event)
    requires Enabled(s, e)
  {
    WritesCount(e) ==> s.copies[e.t].errors == s.row.errors
  }

  /** The counter is the number of failures since the last clear. */
  predicate Counted(s: State, es: seq<Event>)
    requires Runs(s, es)
  {
    After(s, es).row.errors == FailuresSinceClear(es)
  }

  /** ... after every event of the run. */
  predicate AlwaysCounted(s: State, es: seq<Event>)
    requires Runs(s, es)
    decreases |es|
  {
    Counted(s, es) && (es == [] || AlwaysCounted(s, es[..|es| - 1]))
  }

  predicate AlwaysUpToDate(s: State, es: seq<Event>)
    requires Runs(s, es)
    decreases |es|
  {
    es == [] ||
    (AlwaysUpToDate(s, es[..|es| - 1]) && UpToDate(After(s, es[..|es| - 1]), es[|es| - 1]))
  }

  /** A counter that is right stays right exactly over an up-to-date write. */
  lemma CountStep(s: State, es: seq<Event>, e: Event)
    requires Runs(s, es) && Counted(s, es) && Enabled(After(s, es), e)
    ensures Runs(s, es + [e]) && (Counted(s, es + [e]) <==> UpToDate(After(s, es), e))
  {
    SnocRuns(s, es, e);
    SinceClearSnoc(es, e);
  }

  lemma SnocRuns(s: State, es: seq<Event>, e: Event)
    requires Runs(s, es) && Enabled(After(s, es), e)
    ensures Runs(s, es + [e]) && After(s, es + [e]) == Apply(After(s, es), e)
  {
    assert (es + [e])[..|es|] == es;
  }

  /**
   * Over any interleaving from a clean row, the counter is right after every event if and only if every
   * failure and every form is saved from a copy whose counter is the row's at that moment.
   */
  lemma {:induction false} CountingIsExact(s: State, es: seq<Event>)
    requires s.row.errors == 0 && Runs(s, es)
    ensures AlwaysCounted(s, es) <==> AlwaysUpToDate(s, es)
    decreases |es|
  {
    if es != [] {
      var n := |es| - 1;
      CountingIsExact(s, es[..n]);
      if AlwaysCounted(s, es[..n]) {
        CountStep(s, es[..n], es[n]);
        assert es[..n] + [es[n]] == es;
      }
    }
  }

  /** One writer at a time: each loads the row and saves it. */
  function Serial(os: seq<Outcome>): seq<Event> {
    if os == [] then [] else Serial(os[..|os| - 1]) + [Load(0), Save(0, os[|os| - 1])]
  }

  lemma UpToDateSnoc(s: State, es: seq<Event>, e: Event)
    requires Runs(s, es) && AlwaysUpToDate(s, es) && Enabled(After(s, es), e) && UpToDate(After(s, es), e)
    ensures Runs(s, es + [e]) && AlwaysUpToDate(s, es + [e])
  {
    SnocRuns(s, es, e);
    assert (es + [e])[..|es|] == es;
  }

  lemma {:induction false} SerialIsUpToDate(s: State, os: seq<Outcome>)
    ensures Runs(s, Serial(os)) && AlwaysUpToDate(s, Serial(os))
    decreases |os|
  {
    if os != [] {
      var n := |os| - 1;
      var es := Serial(os[..n]);
      SerialIsUpToDate(s, os[..n]);
      UpToDateSnoc(s, es, Load(0));
      SnocRuns(s, es, Load(0));
      UpToDateSnoc(s, es + [Load(0)], Save(0, os[n]));
      assert Serial(os) == es + [Load(0)] + [Save(0, os[n])];
    }
  }

  /** Run serially, the counter is the number of failures since the last success or reset. */
  lemma ErrorsCountFailures(s: State, os: seq<Outcome>)
    requires s.row.errors == 0
    ensures Runs(s, Serial(os)) && AlwaysCounted(s, Serial(os))
  {
    SerialIsUpToDate(s, os);
    CountingIsExact(s, Serial(os));
  }

  /** However a run went, a write from a copy with another counter spoils a counter that was right. */
  lemma StaleWriteMiscounts(s: State, es: seq<Event>, e: Event)
    requires Runs(s, es) && Counted(s, es) && Enabled(After(s, es), e) && WritesCount(e)
    requires After(s, es).copies[e.t].errors != After(s, es).row.errors
    ensures Runs(s, es + [e]) && !Counted(s, es + [e])
  {
    CountStep(s, es, e);
  }

  /** Two fetches loaded over the same row: the second failure to be saved is not counted. */
  lemma OverlappingFailuresCountOnce(s: State, es: seq<Event>, t: nat, u: nat, d: Draw, d': Draw)
    requires Runs(s, es) && Counted(s, es) && t != u
    requires var s1 := After(s, es);
             t in s1.copies && u in s1.copies && s1.copies[t].errors == s1.copies[u].errors == s1.row.errors
    ensures var fs := es + [Save(t, Fetched(Failure(d)))];
            Runs(s, fs) && Counted(s, fs) && After(s, fs).row.errors == After(s, es).row.errors + 1
    ensures var fs := es + [Save(t, Fetched(Failure(d)))] + [Save(u, Fetched(Failure(d')))];
            Runs(s, fs) && !Counted(s, fs) && After(s, fs).row.errors == After(s, es).row.errors + 1
  {
    var e, e' := Save(t, Fetched(Failure(d))), Save(u, Fetched(Failure(d')));
    CountStep(s, es, e);
    SnocRuns(s, es, e);
    StaleWriteMiscounts(s, es + [e], e');
    SnocRuns(s, es + [e], e');
  }
}
