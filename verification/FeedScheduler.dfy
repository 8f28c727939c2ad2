/**
 * The scheduler of src/tasks/scheduler.py: every round takes the due feeds that waited longest, moves
 * their next fetch one interval ahead, and queues them.  A feed that stays due is picked before the
 * feeds ahead of it can run out: no starvation.
 */
module FeedScheduler {
  import opened Prelude
  import opened Ordering

  // Times and delays are in seconds; `interval` is a whole number of them.
  datatype Feed = Feed(nextFetchAt: real, interval: nat, active: bool, deleted: bool, disabledUntil: Option<real>)

  type Feeds = map<nat, Feed>

  predicate Due(f: Feed, now: real) {
    f.nextFetchAt <= now && f.active && !f.deleted && (f.disabledUntil.None? || f.disabledUntil.value <= now)
  }

  /** Rows the query may return: due, and not locked by another transaction. */
  function DueIds(feeds: Feeds, now: real, locked: set<nat>): set<nat> {
    set id | id in feeds && Due(feeds[id], now) && id !in locked
  }

  function Keys(feeds: Feeds): (key: map<nat, Rank>)
    ensures key.Keys == feeds.Keys
  {
    map id | id in feeds :: At(feeds[id].nextFetchAt)
  }

  function Rescheduled(feeds: Feeds, ids: seq<nat>, now: real): Feeds {
    map id | id in feeds :: if id in ids then feeds[id].(nextFetchAt := now + feeds[id].interval as real) else feeds[id]
  }

  /** What an answer of the due query is, in terms of the feeds themselves. */
  lemma PickedFeeds(ids: seq<nat>, feeds: Feeds, now: real, locked: set<nat>, limit: nat)
    requires IsFirst(ids, DueIds(feeds, now, locked), Keys(feeds), limit)
    ensures forall id | id in ids ::
      && id in feeds && id !in locked && feeds[id].nextFetchAt <= now
      && feeds[id].active && !feeds[id].deleted
      && (feeds[id].disabledUntil.None? || feeds[id].disabledUntil.value <= now)
    ensures |ids| < limit ==> forall id | id in feeds && id !in locked && id !in ids ::
      || feeds[id].nextFetchAt > now || !feeds[id].active || feeds[id].deleted
      || (feeds[id].disabledUntil.Some? && feeds[id].disabledUntil.value > now)
    ensures forall i, j | 0 <= i < j < |ids| && ids[i] in feeds && ids[j] in feeds ::
      feeds[ids[i]].nextFetchAt <= feeds[ids[j]].nextFetchAt
    ensures |ids| <= limit && forall i, j | 0 <= i < j < |ids| :: ids[i] != ids[j]
  {
    var due := DueIds(feeds, now, locked);
    AllWhenFewer(ids, due, Keys(feeds), limit);
    forall id | id in ids ensures id in due {
      assert id in Members(ids);
    }
    forall i, j | 0 <= i < j < |ids| ensures feeds[ids[i]].nextFetchAt <= feeds[ids[j]].nextFetchAt {
      assert ids[i] in ids && ids[j] in ids;
      assert Leq(Keys(feeds)[ids[i]], Keys(feeds)[ids[j]]);
    }
  }

  class Scheduler {
    var feeds: Feeds
    var queue: seq<(nat, nat)>   // feed id and the seconds after which the fetch task expires

    constructor (feeds: Feeds)
      ensures this.feeds == feeds && queue == []
    {
      this.feeds, queue := feeds, [];
    }

    /** `enqueue_due_feeds`: one round. */
    method EnqueueDueFeeds(now: real, limit: nat, locked: set<nat>) returns (ids: seq<nat>)
      modifies this
      ensures IsFirst(ids, DueIds(old(feeds), now, locked), Keys(old(feeds)), limit)
      ensures feeds == Rescheduled(old(feeds), ids, now)
      // Picked are feeds that are due, active, neither deleted nor paused, and all of them if they fit.
      ensures forall id | id in ids ::
        && id in old(feeds) && id !in locked && old(feeds)[id].nextFetchAt <= now
        && old(feeds)[id].active && !old(feeds)[id].deleted
        && (old(feeds)[id].disabledUntil.None? || old(feeds)[id].disabledUntil.value <= now)
      ensures |ids| < limit ==> forall id | id in old(feeds) && id !in locked && id !in ids ::
        || old(feeds)[id].nextFetchAt > now || !old(feeds)[id].active || old(feeds)[id].deleted
        || (old(feeds)[id].disabledUntil.Some? && old(feeds)[id].disabledUntil.value > now)
      ensures forall i, j | 0 <= i < j < |ids| && ids[i] in old(feeds) && ids[j] in old(feeds) ::
        old(feeds)[ids[i]].nextFetchAt <= old(feeds)[ids[j]].nextFetchAt
      ensures |ids| <= limit && forall i, j | 0 <= i < j < |ids| :: ids[i] != ids[j]
      // Each moves one interval ahead, and nothing else changes.
      ensures feeds.Keys == old(feeds).Keys
      ensures forall id | id in ids ::
        feeds[id] == old(feeds)[id].(nextFetchAt := now + old(feeds)[id].interval as real)
      ensures forall id | id in old(feeds) && id !in ids :: feeds[id] == old(feeds)[id]
      ensures |queue| == |old(queue)| + |ids| && queue[..|old(queue)|] == old(queue)
      ensures forall k | 0 <= k < |ids| ::
        ids[k] in old(feeds) && queue[|old(queue)| + k] == (ids[k], old(feeds)[ids[k]].interval)
    {
      var due := DueIds(feeds, now, locked);
      ids := First(due, Keys(feeds), limit);
      PickedFeeds(ids, feeds, now, locked, limit);
      feeds := Rescheduled(feeds, ids, now);
      Enqueue(ids);
    }

    /** One fetch task per feed, which expires when the next one is due. */
    method Enqueue(ids: seq<nat>)
      requires forall id | id in ids :: id in feeds
      modifies this`queue
      ensures |queue| == |old(queue)| + |ids| && queue[..|old(queue)|] == old(queue)
      ensures forall k | 0 <= k < |ids| :: queue[|old(queue)| + k] == (ids[k], feeds[ids[k]].interval)
    {
      for k := 0 to |ids|
        invariant |queue| == |old(queue)| + k && queue[..|old(queue)|] == old(queue)
        invariant forall j | 0 <= j < k :: queue[|old(queue)| + j] == (ids[j], feeds[ids[j]].interval)
      {
        queue := queue + [(ids[k], feeds[ids[k]].interval)];
      }
    }
  }

  // ---------------------------------------------------------------------------------------------
  // Rounds interleaved with every other writer
  // ---------------------------------------------------------------------------------------------

  /** `readings` are the clock readings of writers that have not saved yet. */
  datatype State = State(now: real, feeds: Feeds, readings: map<nat, real>)

  /**
   * A round of the scheduler; a writer (fetch task, refresh, new feed) reading the clock, and later
   * saving his one row, with its old `nextFetchAt` or one at or after his reading; time passing.
   */
  datatype Event =
    | Round(limit: nat, locked: set<nat>, ids: seq<nat>)
    | Read(w: nat)
    | Save(w: nat, id: nat, feed: Feed)
    | Tick(to: real)

  /** A writer saves at most `lag` after his reading. */
  ghost predicate Enabled(s: State, e: Event, lag: real) {
    match e
    case Round(limit, locked, ids) => IsFirst(ids, DueIds(s.feeds, s.now, locked), Keys(s.feeds), limit)
    case Read(w) => w !in s.readings
    case Save(w, id, feed) =>
      && w in s.readings
      && (feed.nextFetchAt >= s.readings[w] || (id in s.feeds && feed.nextFetchAt == s.feeds[id].nextFetchAt))
    case Tick(to) => s.now < to && forall w | w in s.readings :: to - s.readings[w] <= lag
  }

  ghost function Apply(s: State, e: Event, lag: real): State
    requires Enabled(s, e, lag)
  {
    match e
    case Round(_, _, ids) => s.(feeds := Rescheduled(s.feeds, ids, s.now))
    case Read(w) => s.(readings := s.readings[w := s.now])
    case Save(w, id, feed) => s.(feeds := s.feeds[id := feed], readings := s.readings - {w})
    case Tick(to) => s.(now := to)
  }

  /** The feeds at or before feed `f` in the queue order, `f` included, whatever their state. */
  ghost function Ahead(s: State, f: nat): set<nat>
    requires f in s.feeds
  {
    set id | id in s.feeds && s.feeds[id].nextFetchAt <= s.feeds[f].nextFetchAt
  }

  /** Feed `f` waits: it is due, no other transaction locks it, rounds pass it over, nobody rewrites it. */
  ghost predicate Waits(s: State, e: Event, f: nat, limit: nat, lag: real) {
    && f in s.feeds && Due(s.feeds[f], s.now) && Enabled(s, e, lag)
    && match e
       case Round(l, locked, ids) =>
         l == limit && f !in locked && f !in ids && forall id | id in ids :: id in s.feeds && s.feeds[id].interval > 0
       case Read(_) => true
       case Save(_, id, feed) => id == f ==> feed == s.feeds[f]
       case Tick(_) => true
  }

  ghost function Rounds(es: seq<Event>): nat {
    if es == [] then 0 else (if es[0].Round? then 1 else 0) + Rounds(es[1..])
  }

  /** `f` is waiting at every step of the run. */
  ghost predicate WaitsThrough(s: State, es: seq<Event>, f: nat, limit: nat, lag: real)
    decreases |es|
  {
    es == [] || (Waits(s, es[0], f, limit, lag) && WaitsThrough(Apply(s, es[0], lag), es[1..], f, limit, lag))
  }

  /** A round that passes `f` over moves `limit` feeds from ahead of it to behind it. */
  lemma RoundDrains(s: State, e: Event, f: nat, limit: nat, lag: real)
    requires e.Round? && Waits(s, e, f, limit, lag)
    ensures f in Apply(s, e, lag).feeds && Apply(s, e, lag).feeds[f] == s.feeds[f]
    ensures |Ahead(Apply(s, e, lag), f)| + limit <= |Ahead(s, f)|
  {
    var from, key, s' := DueIds(s.feeds, s.now, e.locked), Keys(s.feeds), Apply(s, e, lag);
    LeftOut(e.ids, from, key, limit, f);
    var picked := Members(e.ids);
    assert picked <= Ahead(s, f);
    assert forall id | id in e.ids :: s'.feeds[id].nextFetchAt > s.feeds[f].nextFetchAt;
    assert Ahead(s', f) <= Ahead(s, f) - picked;
    SubsetSize(Ahead(s', f), Ahead(s, f) - picked);
  }

  /** The feed that a save puts at or before `f` in the queue order, if any. */
  ghost function Joiners(s: State, e: Event, f: nat): (joiners: set<nat>)
    requires f in s.feeds
    ensures |joiners| <= 1
  {
    if e.Save? && e.feed.nextFetchAt <= s.feeds[f].nextFetchAt && e.id !in Ahead(s, f) then {e.id} else {}
  }

  lemma OtherStepsKeepAhead(s: State, e: Event, f: nat, limit: nat, lag: real)
    requires !e.Round? && Waits(s, e, f, limit, lag)
    ensures f in Apply(s, e, lag).feeds && Apply(s, e, lag).feeds[f] == s.feeds[f]
    ensures |Ahead(Apply(s, e, lag), f)| <= |Ahead(s, f)| + |Joiners(s, e, f)|
  {
    var before, joiners, s' := Ahead(s, f), Joiners(s, e, f), Apply(s, e, lag);
    assert Ahead(s', f) <= before + joiners;
    SubsetSize(Ahead(s', f), before + joiners);
    assert before !! joiners && |before + joiners| == |before| + |joiners|;
  }

  /** How many feeds joined ahead of `f` during the run. */
  ghost function Joins(s: State, es: seq<Event>, f: nat, limit: nat, lag: real): nat
    requires WaitsThrough(s, es, f, limit, lag)
    decreases |es|
  {
    if es == [] then 0
    else |Joiners(s, es[0], f)| + Joins(Apply(s, es[0], lag), es[1..], f, limit, lag)
  }

  lemma OneMore(r: nat, limit: nat)
    ensures (1 + r) * limit == r * limit + limit
  {
  }

  lemma {:induction false} WaitingDrains(s: State, es: seq<Event>, f: nat, limit: nat, lag: real)
    requires f in s.feeds && WaitsThrough(s, es, f, limit, lag)
    ensures Rounds(es) * limit < |Ahead(s, f)| + Joins(s, es, f, limit, lag)
    decreases |es|
  {
    assert f in Ahead(s, f);
    if es == [] {
      assert Rounds(es) * limit == 0;
    } else {
      if es[0].Round? {
        RoundDrains(s, es[0], f, limit, lag);
        OneMore(Rounds(es[1..]), limit);
      } else {
        OtherStepsKeepAhead(s, es[0], f, limit, lag);
      }
      WaitingDrains(Apply(s, es[0], lag), es[1..], f, limit, lag);
    }
  }

  function CeilDiv(k: nat, limit: nat): nat
    requires limit > 0
  {
    (k + limit - 1) / limit
  }

  /**
   * A due feed waits fewer than ceil(k / limit) rounds, k being the feeds ahead of it and those that
   * join them while it waits.
   */
  lemma NoStarvation(s: State, es: seq<Event>, f: nat, limit: nat, lag: real)
    requires limit > 0 && f in s.feeds && WaitsThrough(s, es, f, limit, lag)
    ensures Rounds(es) < CeilDiv(|Ahead(s, f)| + Joins(s, es, f, limit, lag), limit)
  {
    WaitingDrains(s, es, f, limit, lag);
    BelowCeil(Rounds(es), |Ahead(s, f)| + Joins(s, es, f, limit, lag), limit);
  }

  lemma BelowCeil(r: nat, k: nat, limit: nat)
    requires limit > 0 && r * limit < k
    ensures r < CeilDiv(k, limit)
  {
  }

  // ---------------------------------------------------------------------------------------------
  // How many can join
  // ---------------------------------------------------------------------------------------------

  /** The open readings from before `f` fell due, or that very moment: their writers may still join. */
  ghost function Early(s: State, f: nat): set<nat>
    requires f in s.feeds
  {
    set w | w in s.readings && s.readings[w] <= s.feeds[f].nextFetchAt
  }

  lemma EarlyShrinks(s: State, e: Event, f: nat, limit: nat, lag: real)
    requires Waits(s, e, f, limit, lag) && s.feeds[f].nextFetchAt < s.now
    ensures var s' := Apply(s, e, lag);
            && f in s'.feeds && s'.feeds[f] == s.feeds[f] && s.now <= s'.now
            && |Early(s', f)| + |Joiners(s, e, f)| <= |Early(s, f)|
  {
    var s' := Apply(s, e, lag);
    if e.Round? {
      RoundDrains(s, e, f, limit, lag);
    }
    if Joiners(s, e, f) != {} {
      assert e.w in Early(s, f) && Early(s', f) == Early(s, f) - {e.w};
    } else {
      SubsetSize(Early(s', f), Early(s, f));
    }
  }

  /** Once the feed is overdue, only the early readings that are open now can join. */
  lemma {:induction false} FewJoin(s: State, es: seq<Event>, f: nat, limit: nat, lag: real)
    requires f in s.feeds && s.feeds[f].nextFetchAt < s.now && WaitsThrough(s, es, f, limit, lag)
    ensures Joins(s, es, f, limit, lag) <= |Early(s, f)|
    decreases |es|
  {
    if es != [] {
      EarlyShrinks(s, es[0], f, limit, lag);
      FewJoin(Apply(s, es[0], lag), es[1..], f, limit, lag);
    }
  }

  // ---------------------------------------------------------------------------------------------
  // How many do
  // ---------------------------------------------------------------------------------------------

  const MIN_FEED_INTERVAL_SECONDS := 300

  /** The feeds that may go before `f`: due, and moved by a round. */
  ghost function Rivals(s: State, f: nat): set<nat>
    requires f in s.feeds
  {
    set id | id in Ahead(s, f) && id != f && Due(s.feeds[id], s.now) && s.feeds[id].interval > 0
  }

  lemma {:induction false} Pick(from: set<nat>, n: nat) returns (some: set<nat>)
    requires n <= |from|
    ensures some <= from && |some| == n
  {
    if n == 0 {
      some := {};
    } else {
      var fewer := Pick(from, n - 1);
      assert |from - fewer| == |from| - |fewer|;
      var x :| x in from - fewer;
      some := fewer + {x};
    }
  }

  /** A round whose other rows are locked elsewhere takes any `limit` rivals first. */
  lemma RoundOf(s: State, f: nat, block: set<nat>, limit: nat, lag: real) returns (e: Event)
    requires f in s.feeds && Due(s.feeds[f], s.now) && block <= Rivals(s, f) && |block| == limit
    ensures e.Round? && Waits(s, e, f, limit, lag) && Members(e.ids) == block
  {
    var key := Keys(s.feeds);
    var ids := ListingExists(block, key);
    e := Round(limit, s.feeds.Keys - block - {f}, ids);
    assert DueIds(s.feeds, s.now, e.locked) == block + {f};
    ListingIsFirst(ids, block, f, key);
  }

  lemma NextBlock(s: State, f: nat, limit: nat, lag: real) returns (e: Event)
    requires f in s.feeds && Due(s.feeds[f], s.now) && limit <= |Rivals(s, f)|
    ensures e.Round? && Waits(s, e, f, limit, lag)
    ensures var s' := Apply(s, e, lag);
            && f in s'.feeds && s'.feeds[f] == s.feeds[f] && s'.now == s.now
            && |Rivals(s, f)| <= |Rivals(s', f)| + limit
  {
    var block := Pick(Rivals(s, f), limit);
    e := RoundOf(s, f, block, limit, lag);
    assert |Rivals(s, f) - block| == |Rivals(s, f)| - limit;
    SubsetSize(Rivals(s, f) - block, Rivals(Apply(s, e, lag), f));
  }

  /** The rivals go first, `limit` at a time. */
  lemma {:induction false} RivalsGoFirst(s: State, f: nat, r: nat, limit: nat, lag: real) returns (es: seq<Event>)
    requires f in s.feeds && Due(s.feeds[f], s.now) && r * limit <= |Rivals(s, f)|
    ensures WaitsThrough(s, es, f, limit, lag) && Rounds(es) == r
    decreases r
  {
    if r == 0 {
      es := [];
    } else {
      OneMore(r - 1, limit);
      var e := NextBlock(s, f, limit, lag);
      var rest := RivalsGoFirst(Apply(s, e, lag), f, r - 1, limit, lag);
      es := [e] + rest;
      assert es[1..] == rest;
    }
  }

  /** The writer with reading `w` stores a new feed, due at his reading. */
  lemma JoinOne(s: State, w: nat, f: nat, limit: nat, lag: real) returns (e: Event)
    requires f in s.feeds && Due(s.feeds[f], s.now) && w in Early(s, f)
    ensures !e.Round? && Waits(s, e, f, limit, lag)
    ensures var s' := Apply(s, e, lag);
            && f in s'.feeds && s'.feeds[f] == s.feeds[f] && s'.now == s.now
            && |Rivals(s', f)| == |Rivals(s, f)| + 1 && Early(s', f) == Early(s, f) - {w}
            && s'.readings == s.readings - {w}
  {
    var n := FreshNat(s.feeds.Keys);
    assert n !in s.feeds && f in s.feeds.Keys;
    e := Save(w, n, Feed(s.readings[w], MIN_FEED_INTERVAL_SECONDS, true, false, None));
    var s' := Apply(s, e, lag);
    assert Rivals(s', f) == Rivals(s, f) + {n};
  }

  /** Every early reading may cost the feed a place. */
  lemma {:induction false} WaitsFor(s: State, f: nat, r: nat, limit: nat, lag: real) returns (es: seq<Event>)
    requires f in s.feeds && Due(s.feeds[f], s.now) && r * limit <= |Rivals(s, f)| + |Early(s, f)|
    ensures WaitsThrough(s, es, f, limit, lag) && Rounds(es) == r
    decreases |Early(s, f)|
  {
    if Early(s, f) == {} {
      es := RivalsGoFirst(s, f, r, limit, lag);
    } else {
      assert |Early(s, f)| != 0;
      var w :| w in Early(s, f);
      var e := JoinOne(s, w, f, limit, lag);
      var rest := WaitsFor(Apply(s, e, lag), f, r, limit, lag);
      es := [e] + rest;
      assert es[1..] == rest;
    }
  }

  /** At the moment the feed falls due, everybody who reads the clock may join. */
  lemma {:induction false} WaitsAtTie(s: State, f: nat, joining: nat, r: nat, limit: nat, lag: real)
    returns (es: seq<Event>)
    requires f in s.feeds && Due(s.feeds[f], s.now) && s.feeds[f].nextFetchAt == s.now
    requires r * limit <= |Rivals(s, f)| + joining
    ensures WaitsThrough(s, es, f, limit, lag) && Rounds(es) == r
    decreases joining
  {
    if joining == 0 {
      es := RivalsGoFirst(s, f, r, limit, lag);
    } else {
      var w := FreshNat(s.readings.Keys);
      var s1 := Apply(s, Read(w), lag);
      assert w in Early(s1, f) && Rivals(s1, f) == Rivals(s, f);
      var e := JoinOne(s1, w, f, limit, lag);
      var rest := WaitsAtTie(Apply(s1, e, lag), f, joining - 1, r, limit, lag);
      var later := [e] + rest;
      assert later[1..] == rest && WaitsThrough(s1, later, f, limit, lag);
      es := [Read(w)] + later;
      assert es[1..] == later;
    }
  }

  // ---------------------------------------------------------------------------------------------
  // Exactly how long a feed waits
  // ---------------------------------------------------------------------------------------------

  /** The wait is below ceil((k + m) / limit) in every run, k being the feeds ahead now. */
  ghost predicate WaitBounded(s: State, f: nat, m: nat, limit: nat, lag: real)
    requires f in s.feeds && limit > 0
  {
    forall es | WaitsThrough(s, es, f, limit, lag) :: Rounds(es) < CeilDiv(|Ahead(s, f)| + m, limit)
  }

  lemma BelowBound(k: nat, limit: nat)
    requires limit > 0 && k > 0
    ensures CeilDiv(k, limit) >= 1 && (CeilDiv(k, limit) - 1) * limit <= k - 1
  {
    var n, c := k + limit - 1, CeilDiv(k, limit);
    assert n == c * limit + n % limit && n % limit < limit;
    if c > 0 {
      OneMore(c - 1, limit);
    }
  }

  lemma {:induction false} CeilDivGrows(k: nat, k': nat, limit: nat)
    requires limit > 0 && k <= k'
    ensures CeilDiv(k, limit) <= CeilDiv(k', limit)
  {
    if k > 0 {
      BelowBound(k, limit);
      BelowCeil(CeilDiv(k, limit) - 1, k', limit);
    }
  }

  /** At the moment a feed falls due no bound holds: for every r some run makes it wait r rounds. */
  lemma WaitsAnyNumber(s: State, f: nat, r: nat, limit: nat, lag: real) returns (es: seq<Event>)
    requires f in s.feeds && Due(s.feeds[f], s.now) && s.feeds[f].nextFetchAt == s.now
    ensures WaitsThrough(s, es, f, limit, lag) && Rounds(es) == r
  {
    es := WaitsAtTie(s, f, r * limit, r, limit, lag);
  }

  /** With the early readings counted, the bound holds in every run if and only if the feed is overdue. */
  lemma WaitIsExact(s: State, f: nat, limit: nat, lag: real)
    requires f in s.feeds && Due(s.feeds[f], s.now) && limit > 0
    ensures WaitBounded(s, f, |Early(s, f)|, limit, lag) <==> s.feeds[f].nextFetchAt < s.now
  {
    var bound := CeilDiv(|Ahead(s, f)| + |Early(s, f)|, limit);
    if s.feeds[f].nextFetchAt < s.now {
      forall es | WaitsThrough(s, es, f, limit, lag) ensures Rounds(es) < bound {
        NoStarvation(s, es, f, limit, lag);
        FewJoin(s, es, f, limit, lag);
        CeilDivGrows(|Ahead(s, f)| + Joins(s, es, f, limit, lag), |Ahead(s, f)| + |Early(s, f)|, limit);
      }
    } else {
      var es := WaitsAnyNumber(s, f, bound, limit, lag);
    }
  }

  /** And it cannot be improved: when all feeds ahead are due, some run takes the whole of it. */
  lemma {:induction false} WaitIsTight(s: State, f: nat, limit: nat, lag: real) returns (es: seq<Event>)
    requires f in s.feeds && Due(s.feeds[f], s.now) && limit > 0 && Ahead(s, f) == Rivals(s, f) + {f}
    ensures WaitsThrough(s, es, f, limit, lag)
    ensures Rounds(es) == CeilDiv(|Ahead(s, f)| + |Early(s, f)|, limit) - 1
  {
    assert f !in Rivals(s, f) && |Ahead(s, f)| == |Rivals(s, f)| + 1;
    BelowBound(|Ahead(s, f)| + |Early(s, f)|, limit);
    es := WaitsFor(s, f, CeilDiv(|Ahead(s, f)| + |Early(s, f)|, limit) - 1, limit, lag);
  }

  /**
   * Then the bound that counts only the feeds ahead holds in every run exactly when the feed is overdue
   * and the early readings do not fill another round.
   */
  lemma PlainBoundIsExact(s: State, f: nat, limit: nat, lag: real)
    requires f in s.feeds && Due(s.feeds[f], s.now) && limit > 0 && Ahead(s, f) == Rivals(s, f) + {f}
    ensures WaitBounded(s, f, 0, limit, lag) <==>
            && s.feeds[f].nextFetchAt < s.now
            && CeilDiv(|Ahead(s, f)| + |Early(s, f)|, limit) == CeilDiv(|Ahead(s, f)|, limit)
  {
    var k, m := |Ahead(s, f)|, |Early(s, f)|;
    CeilDivGrows(k, k + m, limit);
    WaitIsExact(s, f, limit, lag);
    if s.feeds[f].nextFetchAt == s.now {
      var es := WaitsAnyNumber(s, f, CeilDiv(k, limit), limit, lag);
    } else {
      var es := WaitIsTight(s, f, limit, lag);
    }
  }

  // ---------------------------------------------------------------------------------------------
  // Writers with a bounded lag
  // ---------------------------------------------------------------------------------------------

  /** Open readings are at most `lag` old. */
  ghost predicate Timely(s: State, lag: real) {
    forall w | w in s.readings :: s.now - lag <= s.readings[w] <= s.now
  }

  /** The state after a run. */
  ghost function After(s: State, es: seq<Event>, f: nat, limit: nat, lag: real): State
    requires WaitsThrough(s, es, f, limit, lag)
    decreases |es|
  {
    if es == [] then s else After(Apply(s, es[0], lag), es[1..], f, limit, lag)
  }

  lemma {:induction false} RunKeepsTimely(s: State, es: seq<Event>, f: nat, limit: nat, lag: real)
    requires Timely(s, lag) && lag >= 0.0 && f in s.feeds && WaitsThrough(s, es, f, limit, lag)
    ensures var s' := After(s, es, f, limit, lag);
            Timely(s', lag) && f in s'.feeds && s'.feeds[f] == s.feeds[f]
    decreases |es|
  {
    if es != [] {
      if es[0].Round? {
        RoundDrains(s, es[0], f, limit, lag);
      }
      RunKeepsTimely(Apply(s, es[0], lag), es[1..], f, limit, lag);
    }
  }

  /** Wherever a run has led, once the feed is overdue by more than the lag the plain bound holds from there. */
  lemma BoundAfterLag(s: State, es: seq<Event>, f: nat, limit: nat, lag: real)
    requires Timely(s, lag) && lag >= 0.0 && f in s.feeds && limit > 0 && WaitsThrough(s, es, f, limit, lag)
    requires s.feeds[f].nextFetchAt + lag < After(s, es, f, limit, lag).now
    ensures f in After(s, es, f, limit, lag).feeds && WaitBounded(After(s, es, f, limit, lag), f, 0, limit, lag)
  {
    var s' := After(s, es, f, limit, lag);
    RunKeepsTimely(s, es, f, limit, lag);
    NoneEarly(s', f, limit, lag);
  }

  lemma NoneEarly(s: State, f: nat, limit: nat, lag: real)
    requires Timely(s, lag) && f in s.feeds && limit > 0 && lag >= 0.0 && s.feeds[f].nextFetchAt + lag < s.now
    ensures WaitBounded(s, f, 0, limit, lag)
  {
    assert Early(s, f) == {};
    forall es | WaitsThrough(s, es, f, limit, lag) ensures Rounds(es) < CeilDiv(|Ahead(s, f)|, limit) {
      NoStarvation(s, es, f, limit, lag);
      FewJoin(s, es, f, limit, lag);
    }
  }

  function Below(n: nat): (ws: set<nat>)
    ensures |ws| == n && forall w | w in ws :: w < n
  {
    if n == 0 then {} else Below(n - 1) + {n - 1}
  }

  /** Many writers who read the clock `lag` ago. */
  ghost function Crowd(now: real, feeds: Feeds, n: nat, lag: real): State {
    State(now, feeds, map w | w in Below(n) :: now - lag)
  }

  /** Whatever readings are open, the plain bound holds if and only if the feed is overdue by more than the lag. */
  lemma LagIsExact(now: real, feeds: Feeds, f: nat, limit: nat, lag: real)
    requires f in feeds && Due(feeds[f], now) && limit > 0 && lag >= 0.0
    ensures (forall readings | Timely(State(now, feeds, readings), lag) ::
               WaitBounded(State(now, feeds, readings), f, 0, limit, lag))
            <==> feeds[f].nextFetchAt + lag < now
  {
    if feeds[f].nextFetchAt + lag < now {
      forall readings | Timely(State(now, feeds, readings), lag)
        ensures WaitBounded(State(now, feeds, readings), f, 0, limit, lag)
      {
        NoneEarly(State(now, feeds, readings), f, limit, lag);
      }
    } else {
      var r := CeilDiv(|Ahead(State(now, feeds, map[]), f)|, limit);
      var s := Crowd(now, feeds, r * limit, lag);
      assert Ahead(s, f) == Ahead(State(now, feeds, map[]), f);
      assert Early(s, f) == Below(r * limit);
      var es := WaitsFor(s, f, r, limit, lag);
      assert Timely(s, lag) && !WaitBounded(s, f, 0, limit, lag);
    }
  }
}
