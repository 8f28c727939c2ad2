/**
 * The digest runs of one daily subscription (src/tasks/digest.py), interleaved with each other, with new
 * articles, edits, deliveries (src/tasks/notifications.py) and crashes.
 *
 * A run reads the clock, later loads the subscription, queries, and at last stores its reading.  A task
 * may be delivered again while it still runs, so runs may overlap.
 */
module DigestWindows {
  import opened Prelude
  import opened Ordering
  import opened Digest
  import Lease = DeliveryLease

  /** A run under way: its reading, the start of its window once loaded, and its query once made. */
  datatype Run = Run(now: real, since: Option<real>, query: Option<Query>)

  /** What a query saw and chose. */
  datatype Query = Query(articles: Articles, chosen: seq<nat>)

  /** A completed run. */
  datatype Window = Window(since: real, until: real, query: Query)

  /** `interval` and `last` are columns of the subscription. */
  datatype State = State(
    clock: real, articles: Articles, interval: Lease.Interval, last: Option<real>, runs: map<nat, Run>,
    windows: seq<Window>)

  /**
   * `Store` and `Change` write articles (an edit keeps `created`); `Begin` reads the clock, after which
   * it moves; `Delivered` is the end of some delivery task for this subscription, which had read the
   * interval `loaded`; `Switch` changes the subscription's interval.
   */
  datatype Event =
    | Store(id: nat, published: Option<real>, matches: bool)
    | Change(id: nat, published: Option<real>, matches: bool)
    | Begin(t: nat, later: real)
    | Load(t: nat)
    | Select(t: nat, chosen: seq<nat>)
    | Complete(t: nat)
    | Crash(t: nat)
    | Delivered(loaded: Lease.Interval, ok: bool)
    | Switch(interval: Lease.Interval)
    | Tick(to: real)

  /** Time may pass to `to`: no run gets older than `h`. */
  ghost predicate InLife(s: State, to: real, h: real) {
    s.clock < to && forall t | t in s.runs :: to - s.runs[t].now <= h
  }

  ghost predicate Enabled(s: State, e: Event, h: real) {
    match e
    case Store(id, _, _) => id !in s.articles
    case Change(id, _, _) => id in s.articles
    case Begin(t, later) => t !in s.runs && InLife(s, later, h) && later - s.clock <= h
    case Load(t) => t in s.runs && s.runs[t].since.None? && s.interval.Daily?
    case Select(t, chosen) =>
      && t in s.runs && s.runs[t].since.Some? && s.runs[t].query.None?
      && Selects(chosen, s.articles, s.runs[t].since.value, s.runs[t].now)
    case Complete(t) => t in s.runs && s.runs[t].since.Some? && s.runs[t].query.Some?
    case Crash(t) => t in s.runs
    case Delivered(_, _) => true
    case Switch(_) => true
    case Tick(to) => InLife(s, to, h)
  }

  /** The window of a run whose query is made. */
  function WindowOf(r: Run): Window
    requires r.since.Some? && r.query.Some?
  {
    Window(r.since.value, r.now, r.query.value)
  }

  ghost function Apply(s: State, e: Event, h: real): State
    requires Enabled(s, e, h)
  {
    match e
    case Store(id, published, matches) => s.(articles := s.articles[id := Article(s.clock, published, matches)])
    case Change(id, published, matches) =>
      s.(articles := s.articles[id := Article(s.articles[id].created, published, matches)])
    case Begin(t, later) => s.(clock := later, runs := s.runs[t := Run(s.clock, None, None)])
    case Load(t) => s.(runs := s.runs[t := s.runs[t].(since := Some(Since(s.last, s.runs[t].now)))])
    case Select(t, chosen) => s.(runs := s.runs[t := s.runs[t].(query := Some(Query(s.articles, chosen)))])
    case Complete(t) =>
      s.(last := Some(s.runs[t].now), runs := s.runs - {t}, windows := s.windows + [WindowOf(s.runs[t])])
    case Crash(t) => s.(runs := s.runs - {t})
    case Delivered(loaded, ok) =>
      if Lease.MovesLastNotified(ok, loaded, s.interval) then s.(last := Some(s.clock)) else s
    case Switch(interval) => s.(interval := interval)
    case Tick(to) => s.(clock := to)
  }

  ghost predicate Steps(s: State, es: seq<Event>, s': State, h: real)
    decreases |es|
  {
    if es == [] then s == s' else Enabled(s, es[0], h) && Steps(Apply(s, es[0], h), es[1..], s', h)
  }

  /** The interval is left alone during the run. */
  predicate StaysDaily(es: seq<Event>) { forall e | e in es :: !e.Switch? }

  /** The subscription turns daily: its last digest is not in the future, no run is under way. */
  ghost predicate Start(s: State) {
    s.interval.Daily? && s.runs == map[] && s.windows == [] && (s.last.Some? ==> s.last.value <= s.clock)
  }

  // ---------------------------------------------------------------------------------------------
  // Queries answer for their windows
  // ---------------------------------------------------------------------------------------------

  /** The query saw every article stored by `until`, and articles keep the time they were stored. */
  ghost predicate SawAll(q: Query, articles: Articles, until: real) {
    && (forall id | id in articles && articles[id].created <= until :: id in q.articles)
    && (forall id | id in q.articles :: id in articles && q.articles[id].created == articles[id].created)
  }

  /** A query made for a window that is over: it answered for all articles of the window. */
  ghost predicate Answered(w: Window, s: State) {
    && w.until < s.clock && Selects(w.query.chosen, w.query.articles, w.since, w.until)
    && SawAll(w.query, s.articles, w.until)
  }

  predicate Made(r: Run) { r.since.Some? && r.query.Some? }

  ghost predicate AllAnswered(s: State) {
    && (forall t | t in s.runs :: s.runs[t].now < s.clock && (s.runs[t].query.Some? ==> s.runs[t].since.Some?))
    && (forall t | t in s.runs && Made(s.runs[t]) :: Answered(WindowOf(s.runs[t]), s))
    && (forall i | 0 <= i < |s.windows| :: Answered(s.windows[i], s))
  }

  /** Whatever happens, a made query stays the answer for its window. */
  lemma AnswerStays(w: Window, s: State, e: Event, h: real)
    requires Answered(w, s) && Enabled(s, e, h)
    ensures Answered(w, Apply(s, e, h))
  {
  }

  lemma {:induction false} StepKeepsAnswers(s: State, e: Event, h: real)
    requires AllAnswered(s) && Enabled(s, e, h)
    ensures AllAnswered(Apply(s, e, h))
  {
    var s' := Apply(s, e, h);
    forall i | 0 <= i < |s'.windows| ensures Answered(s'.windows[i], s') {
      if i < |s.windows| {
        AnswerStays(s.windows[i], s, e, h);
      } else {
        AnswerStays(WindowOf(s.runs[e.t]), s, e, h);
      }
    }
    forall t | t in s'.runs && Made(s'.runs[t]) ensures Answered(WindowOf(s'.runs[t]), s') {
      if t in s.runs && s'.runs[t] == s.runs[t] {
        AnswerStays(WindowOf(s.runs[t]), s, e, h);
      }
    }
  }

  /** Article `id` was queued by window `w`. */
  ghost predicate QueuedBy(w: Window, id: nat) { id in w.query.chosen }

  /** The window answered for the article: queued, or pushed out by a full digest of earlier ones. */
  ghost predicate Served(w: Window, id: nat) {
    && id in w.query.articles
    && (w.query.articles[id].matches ==>
          || QueuedBy(w, id)
          || (|w.query.chosen| == MAX_ARTICLES_PER_DIGEST
              && forall x | x in w.query.chosen ::
                  x in w.query.articles && Leq(NewestFirst(w.query.articles)[x], NewestFirst(w.query.articles)[id])))
  }

  lemma WindowServes(w: Window, s: State, id: nat)
    requires Answered(w, s) && id in s.articles &&
        InWindow(s.articles[id].created, w.since, w.until)
    ensures Served(w, id) && w.query.articles[id].created == s.articles[id].created
  {
    if w.query.articles[id].matches && !QueuedBy(w, id) {
      LeftOut(w.query.chosen, Candidates(w.query.articles, w.since, w.until), NewestFirst(w.query.articles),
          MAX_ARTICLES_PER_DIGEST, id);
    }
  }

  /** A window only queues articles that matched its query and were stored within it. */
  lemma WindowQueuesItsOwn(w: Window, s: State, id: nat)
    requires Answered(w, s) && QueuedBy(w, id)
    ensures id in s.articles && InWindow(s.articles[id].created, w.since, w.until)
    ensures id in w.query.articles && w.query.articles[id].matches
  {
    SelectionMeans(w.query.chosen, w.query.articles, w.since, w.until);
  }

  /** The articles of a window that matched when its query was made. */
  ghost function Matching(w: Window): set<nat> {
    set id | id in w.query.articles && w.query.articles[id].matches && w.since < w.query.articles[id].created &&
      w.query.articles[id].created <= w.until
  }

  /** When at most 100 match, a window queues exactly these. */
  lemma QueuedExactly(w: Window, s: State, id: nat)
    requires Answered(w, s) && |Matching(w)| <= 100
    ensures QueuedBy(w, id) <==> id in Matching(w)
  {
    var from := Candidates(w.query.articles, w.since, w.until);
    SelectionMeans(w.query.chosen, w.query.articles, w.since, w.until);
    if id in Matching(w) && !QueuedBy(w, id) {
      assert from == Matching(w);
      LeftOut(w.query.chosen, from, NewestFirst(w.query.articles), MAX_ARTICLES_PER_DIGEST, id);
      SubsetSize(Members(w.query.chosen), Matching(w) - {id});
    }
  }

  lemma {:induction false} StepsKeepAnswers(s: State, es: seq<Event>, s': State, h: real)
    requires AllAnswered(s) && Steps(s, es, s', h)
    ensures AllAnswered(s')
    decreases |es|
  {
    if es != [] {
      StepKeepsAnswers(s, es[0], h);
      StepsKeepAnswers(Apply(s, es[0], h), es[1..], s', h);
    }
  }

  /** In every run, a completed window of at most 100 matching articles queued exactly these. */
  lemma RunsQueueMatches(s: State, es: seq<Event>, s': State, k: nat, id: nat, h: real)
    requires Start(s) && Steps(s, es, s', h) && k < |s'.windows| && |Matching(s'.windows[k])| <= 100
    ensures QueuedBy(s'.windows[k], id) <==> id in Matching(s'.windows[k])
  {
    StepsKeepAnswers(s, es, s', h);
    QueuedExactly(s'.windows[k], s', id);
  }

  // ---------------------------------------------------------------------------------------------
  // Nothing is missed
  // ---------------------------------------------------------------------------------------------

  ghost predicate InSome(ws: seq<Window>, x: real) {
    exists i | 0 <= i < |ws| :: InWindow(x, ws[i].since, ws[i].until)
  }

  /** From the start of the first window up to `t` every moment lies in some window. */
  ghost predicate Covered(ws: seq<Window>, t: real)
    requires ws != []
  {
    forall x: real | InWindow(x, ws[0].since, t) :: InSome(ws, x)
  }

  lemma StaysInSome(ws: seq<Window>, w: Window, x: real)
    requires InSome(ws, x) || InWindow(x, w.since, w.until)
    ensures InSome(ws + [w], x)
  {
    var ws' := ws + [w];
    if InSome(ws, x) {
      var i :| 0 <= i < |ws| && InWindow(x, ws[i].since, ws[i].until);
      assert ws'[i] == ws[i];
    } else {
      assert ws'[|ws|] == w;
    }
  }

  lemma CoverStays(ws: seq<Window>, w: Window, t: real)
    requires ws != [] && Covered(ws, t)
    ensures Covered(ws + [w], t)
  {
    forall x: real | InWindow(x, ws[0].since, t) ensures InSome(ws + [w], x) {
      StaysInSome(ws, w, x);
    }
  }

  /** A window that starts within what is covered extends it to its own end. */
  lemma CoverGrows(ws: seq<Window>, w: Window)
    requires ws != [] && Covered(ws, w.since)
    ensures Covered(ws + [w], w.until)
  {
    forall x: real | InWindow(x, ws[0].since, w.until) ensures InSome(ws + [w], x) {
      StaysInSome(ws, w, x);
    }
  }

  /** Where the first digests start: nobody has completed one yet. */
  ghost predicate Fresh(s: State, h: real) {
    && (s.last.Some? || h <= DAY)
    && forall t | t in s.runs && s.runs[t].since.Some? :: s.runs[t].since.value == Since(s.last, s.runs[t].now)
  }

  /** All ends of windows, the stored reading and the starts of open windows are within what is covered. */
  ghost predicate Reached(s: State) {
    && s.windows != [] && s.last.Some? && Covered(s.windows, s.last.value)
    && (forall i | 0 <= i < |s.windows| :: Covered(s.windows, s.windows[i].until))
    && (forall t | t in s.runs && s.runs[t].since.Some? :: Covered(s.windows, s.runs[t].since.value))
  }

  ghost predicate Inv(s: State, h: real) {
    && s.interval.Daily? && AllAnswered(s) && (forall t | t in s.runs :: s.clock - s.runs[t].now <= h)
    && (if s.windows == [] then Fresh(s, h) else Reached(s))
  }

  /** The first run to complete: the others do not start after its end. */
  lemma FirstCompletes(s: State, t: nat, h: real)
    requires Inv(s, h) && s.windows == [] && Enabled(s, Complete(t), h)
    ensures Reached(Apply(s, Complete(t), h))
  {
    var s', w := Apply(s, Complete(t), h), WindowOf(s.runs[t]);
    assert s'.windows == [w];
    forall x: real | InWindow(x, w.since, w.until) ensures InSome([w], x) {
      StaysInSome([], w, x);
      assert [] + [w] == [w];
    }
    forall u | u in s'.runs && s'.runs[u].since.Some? ensures Covered([w], s'.runs[u].since.value) {
      assert s.runs[u].now <= s.runs[t].now + h;
      assert s'.runs[u].since.value <= w.until || s'.runs[u].since.value == w.since;
    }
  }

  lemma NextCompletes(s: State, t: nat, h: real)
    requires Reached(s) && Enabled(s, Complete(t), h)
    ensures Reached(Apply(s, Complete(t), h))
  {
    var s', w := Apply(s, Complete(t), h), WindowOf(s.runs[t]);
    CoverGrows(s.windows, w);
    forall i | 0 <= i < |s'.windows| ensures Covered(s'.windows, s'.windows[i].until) {
      if i < |s.windows| {
        CoverStays(s.windows, w, s.windows[i].until);
      }
    }
    forall u | u in s'.runs && s'.runs[u].since.Some? ensures Covered(s'.windows, s'.runs[u].since.value) {
      CoverStays(s.windows, w, s.runs[u].since.value);
    }
  }

  lemma {:induction false} StepKeepsInv(s: State, e: Event, h: real)
    requires Inv(s, h) && Enabled(s, e, h) && !e.Switch?
    ensures Inv(Apply(s, e, h), h)
  {
    StepKeepsAnswers(s, e, h);
    if !e.Complete? {
    } else if s.windows == [] {
      FirstCompletes(s, e.t, h);
    } else {
      NextCompletes(s, e.t, h);
    }
  }

  lemma {:induction false} StepsKeepInv(s: State, es: seq<Event>, s': State, h: real)
    requires Inv(s, h) && Steps(s, es, s', h) && StaysDaily(es)
    ensures Inv(s', h)
    decreases |es|
  {
    if es != [] {
      StepKeepsInv(s, es[0], h);
      assert StaysDaily(es[1..]);
      StepsKeepInv(Apply(s, es[0], h), es[1..], s', h);
    }
  }

  /** An article stored after the start of the first window and by the end of window `j`. */
  ghost predicate Spanned(s: State, id: nat, j: nat) {
    && j < |s.windows| && id in s.articles
    && InWindow(s.articles[id].created, s.windows[0].since, s.windows[j].until)
  }

  /**
   * However runs overlap, some completed run answered for every article stored between the start of the
   * first window and the end of any.
   */
  lemma NoArticleMissed(s: State, es: seq<Event>, s': State, id: nat, j: nat, h: real) returns (k: nat)
    requires Start(s) && Steps(s, es, s', h) && StaysDaily(es) && Spanned(s', id, j)
    requires s.last.Some? || h <= DAY
    ensures k < |s'.windows| && InWindow(s'.articles[id].created, s'.windows[k].since, s'.windows[k].until)
    ensures Served(s'.windows[k], id)
  {
    StepsKeepInv(s, es, s', h);
    assert InSome(s'.windows, s'.articles[id].created);
    k :| 0 <= k < |s'.windows| && InWindow(s'.articles[id].created, s'.windows[k].since, s'.windows[k].until);
    WindowServes(s'.windows[k], s', id);
  }

  // ---------------------------------------------------------------------------------------------
  // The first digest needs runs shorter than a day
  // ---------------------------------------------------------------------------------------------

  /** No run from any start leaves a spanned article out of all windows. */
  ghost predicate NeverMisses(h: real) {
    forall s, es, s', id, j | Start(s) && Steps(s, es, s', h) && StaysDaily(es) && Spanned(s', id, j) ::
      InSome(s'.windows, s'.articles[id].created)
  }

  lemma Then(s: State, e: Event, es: seq<Event>, s': State, h: real)
    requires Enabled(s, e, h) && !e.Switch? && Steps(Apply(s, e, h), es, s', h) && StaysDaily(es)
    ensures Steps(s, [e] + es, s', h) && StaysDaily([e] + es)
  {
    assert ([e] + es)[1..] == es;
  }

  /** Two first runs, the second begun more than a day after the first and loaded before its end. */
  lemma GapWhenTooSlow(h: real) returns (es: seq<Event>, s': State)
    requires h > DAY
    ensures Steps(State(0.0, map[], Lease.Daily, None, map[], []), es, s', h) && StaysDaily(es)
    ensures Spanned(s', 0, 1) && !InSome(s'.windows, s'.articles[0].created)
  {
    var g := (h - DAY) / 4.0;
    var s0 := State(0.0, map[], Lease.Daily, None, map[], []);
    var s1 := Apply(s0, Begin(0, g), h);
    var s2 := Apply(s1, Load(0), h);
    var s3 := Apply(s2, Store(0, None, true), h);
    var s4 := Apply(s3, Tick(DAY + 2.0 * g), h);
    var s5 := Apply(s4, Begin(1, DAY + 3.0 * g), h);
    var v5: seq<Event>;
    v5, s' := GapCloses(s5, g, h);
    var v4 := [Begin(1, DAY + 3.0 * g)] + v5;
    Then(s4, Begin(1, DAY + 3.0 * g), v5, s', h);
    var v3 := [Tick(DAY + 2.0 * g)] + v4;
    Then(s3, Tick(DAY + 2.0 * g), v4, s', h);
    var v2 := [Store(0, None, true)] + v3;
    Then(s2, Store(0, None, true), v3, s', h);
    var v1 := [Load(0)] + v2;
    Then(s1, Load(0), v2, s', h);
    es := [Begin(0, g)] + v1;
    Then(s0, Begin(0, g), v1, s', h);
  }

  function GapArticles(g: real): Articles { map[0 := Article(g, None, true)] }

  /** The second run loads, both find nothing; the article stored at `g` lies between their windows. */
  lemma GapCloses(s: State, g: real, h: real) returns (es: seq<Event>, s': State)
    requires g > 0.0 && s.articles == GapArticles(g) && s.last == None && s.interval.Daily? && s.windows == []
    requires s.runs == map[0 := Run(0.0, Some(-DAY), None), 1 := Run(DAY + 2.0 * g, None, None)]
    ensures Steps(s, es, s', h) && StaysDaily(es)
    ensures Spanned(s', 0, 1) && !InSome(s'.windows, s'.articles[0].created)
  {
    var q := Query(GapArticles(g), []);
    var s1 := Apply(s, Load(1), h);
    var s2 := Apply(s1, Select(0, []), h);
    var s3 := Apply(s2, Select(1, []), h);
    var v3: seq<Event>;
    assert s3.runs == map[0 := Run(0.0, Some(-DAY), Some(q)), 1 := Run(DAY + 2.0 * g, Some(2.0 * g), Some(q))];
    v3, s' := GapStays(s3, g, h);
    var v2 := [Select(1, [])] + v3;
    Then(s2, Select(1, []), v3, s', h);
    var v1 := [Select(0, [])] + v2;
    Then(s1, Select(0, []), v2, s', h);
    es := [Load(1)] + v1;
    Then(s, Load(1), v1, s', h);
  }

  lemma GapStays(s: State, g: real, h: real) returns (es: seq<Event>, s': State)
    requires g > 0.0 && s.articles == GapArticles(g) && s.windows == []
    requires var q := Query(GapArticles(g), []);
             s.runs == map[0 := Run(0.0, Some(-DAY), Some(q)), 1 := Run(DAY + 2.0 * g, Some(2.0 * g), Some(q))]
    ensures Steps(s, es, s', h) && StaysDaily(es)
    ensures Spanned(s', 0, 1) && !InSome(s'.windows, s'.articles[0].created)
  {
    var q := Query(GapArticles(g), []);
    var s1 := Apply(s, Complete(0), h);
    s' := Apply(s1, Complete(1), h);
    Then(s1, Complete(1), [], s', h);
    es := [Complete(0)] + [Complete(1)];
    Then(s, Complete(0), [Complete(1)], s', h);
    assert s'.windows == [Window(-DAY, 0.0, q), Window(2.0 * g, DAY + 2.0 * g, q)];
  }

  /** No article is missed, overlapping runs included, if and only if no run lives longer than a day. */
  lemma MissIsExact(h: real)
    ensures NeverMisses(h) <==> h <= DAY
  {
    if h <= DAY {
      forall s, es, s', id, j | Start(s) && Steps(s, es, s', h) && StaysDaily(es) && Spanned(s', id, j)
        ensures InSome(s'.windows, s'.articles[id].created)
      {
        var k := NoArticleMissed(s, es, s', id, j, h);
      }
    } else {
      var es, s' := GapWhenTooSlow(h);
    }
  }

  // ---------------------------------------------------------------------------------------------
  // One run after the other
  // ---------------------------------------------------------------------------------------------

  /** No run begins before the one before it is over. */
  ghost predicate Serial(s: State, es: seq<Event>, h: real)
    decreases |es|
  {
    es == [] ||
    (Enabled(s, es[0], h) && (es[0].Begin? ==> s.runs == map[]) && Serial(Apply(s, es[0], h), es[1..], h))
  }

  /** Consecutive windows meet: each starts where the one before it ended. */
  ghost predicate Tiled(ws: seq<Window>) {
    && (forall i | 0 <= i < |ws| :: ws[i].since <= ws[i].until)
    && (forall i, j | 0 <= i && j == i + 1 && j < |ws| :: ws[j].since == ws[i].until)
  }

  /** The only run starts where the last window ended. */
  ghost predicate Next(s: State, r: Run) {
    (s.last.Some? ==> s.last.value <= r.now) && (r.since.Some? ==> r.since.value == Since(s.last, r.now))
  }

  ghost predicate InTurn(s: State) {
    && s.interval.Daily? && Tiled(s.windows) && (s.last.Some? ==> s.last.value <= s.clock)
    && (s.windows != [] ==> s.last == Some(s.windows[|s.windows| - 1].until))
    && (forall t, u | t in s.runs && u in s.runs :: t == u)
    && (forall t | t in s.runs :: Next(s, s.runs[t]))
  }

  lemma TiledSnoc(ws: seq<Window>, w: Window)
    requires Tiled(ws) && w.since <= w.until && (ws != [] ==> w.since == ws[|ws| - 1].until)
    ensures Tiled(ws + [w])
  {
  }

  lemma CompleteKeepsTurn(s: State, t: nat, h: real)
    requires InTurn(s) && AllAnswered(s) && Enabled(s, Complete(t), h)
    ensures InTurn(Apply(s, Complete(t), h))
  {
    assert Next(s, s.runs[t]);
    TiledSnoc(s.windows, WindowOf(s.runs[t]));
  }

  lemma StepKeepsTurn(s: State, e: Event, h: real)
    requires InTurn(s) && AllAnswered(s) && Enabled(s, e, h) && !e.Switch? && (e.Begin? ==> s.runs == map[])
    ensures InTurn(Apply(s, e, h))
  {
    if e.Complete? {
      CompleteKeepsTurn(s, e.t, h);
    }
  }

  lemma {:induction false} SerialRunsTile(s: State, es: seq<Event>, s': State, h: real)
    requires InTurn(s) && AllAnswered(s) && Steps(s, es, s', h) && StaysDaily(es) && Serial(s, es, h)
    ensures InTurn(s') && AllAnswered(s')
    decreases |es|
  {
    if es != [] {
      StepKeepsTurn(s, es[0], h);
      StepKeepsAnswers(s, es[0], h);
      assert StaysDaily(es[1..]);
      SerialRunsTile(Apply(s, es[0], h), es[1..], s', h);
    }
  }

  lemma {:induction false} WindowsAscend(ws: seq<Window>, i: nat, j: nat)
    requires Tiled(ws) && i < j < |ws|
    ensures ws[i].until <= ws[j].since
    decreases j - i
  {
    if i + 1 < j {
      WindowsAscend(ws, i + 1, j);
    }
    assert ws[i + 1].since == ws[i].until && ws[i + 1].since <= ws[i + 1].until;
  }

  /** Tiling: a moment between the first start and the last end lies in exactly one window. */
  lemma {:induction false} OneWindow(ws: seq<Window>, t: real) returns (k: nat)
    requires Tiled(ws) && ws != [] && InWindow(t, ws[0].since, ws[|ws| - 1].until)
    ensures k < |ws| && InWindow(t, ws[k].since, ws[k].until)
    ensures forall i | 0 <= i < |ws| && InWindow(t, ws[i].since, ws[i].until) :: i == k
  {
    k := 0;
    while ws[k].until < t
      invariant 0 <= k < |ws| && ws[k].since < t
      decreases |ws| - k
    {
      assert ws[k + 1].since == ws[k].until;
      k := k + 1;
    }
    forall i | 0 <= i < |ws| && InWindow(t, ws[i].since, ws[i].until) ensures i == k {
      if i < k {
        WindowsAscend(ws, i, k);
      } else if k < i {
        WindowsAscend(ws, k, i);
      }
    }
  }

  lemma NotQueuedTwice(ws: seq<Window>, s: State, k: nat, i: nat, id: nat)
    requires Tiled(ws) && k < |ws| && i < |ws| && i != k && id in s.articles
    requires InWindow(s.articles[id].created, ws[k].since, ws[k].until) &&
        Answered(ws[i], s)
    ensures !QueuedBy(ws[i], id)
  {
    if QueuedBy(ws[i], id) {
      WindowQueuesItsOwn(ws[i], s, id);
    }
    if i < k {
      WindowsAscend(ws, i, k);
    } else {
      WindowsAscend(ws, k, i);
    }
  }

  lemma StartInTurn(s: State)
    requires Start(s)
    ensures InTurn(s) && AllAnswered(s)
  {
  }

  lemma ServedOnce(s: State, id: nat) returns (k: nat)
    requires Tiled(s.windows) && AllAnswered(s) && s.windows != [] && Spanned(s, id, |s.windows| - 1)
    ensures k < |s.windows|
    ensures InWindow(s.articles[id].created, s.windows[k].since, s.windows[k].until) && Served(s.windows[k], id)
    ensures forall i | 0 <= i < |s.windows| && i != k :: !QueuedBy(s.windows[i], id)
  {
    k := OneWindow(s.windows, s.articles[id].created);
    WindowServes(s.windows[k], s, id);
    forall i | 0 <= i < |s.windows| && i != k ensures !QueuedBy(s.windows[i], id) {
      NotQueuedTwice(s.windows, s, k, i, id);
    }
  }

  /**
   * Run one after the other, every article stored between the first window's start and the last one's end
   * belongs to exactly one completed run.  If it matched then, that run queued it unless it chose a full
   * digest of articles that come before it; no other run queued it.
   */
  lemma ExactlyOneDigest(s: State, es: seq<Event>, s': State, id: nat, h: real) returns (k: nat)
    requires Start(s) && Steps(s, es, s', h) && StaysDaily(es) && Serial(s, es, h)
    requires s'.windows != [] && Spanned(s', id, |s'.windows| - 1)
    ensures Tiled(s'.windows) && k < |s'.windows|
    ensures InWindow(s'.articles[id].created, s'.windows[k].since, s'.windows[k].until) && Served(s'.windows[k], id)
    ensures forall i | 0 <= i < |s'.windows| && i != k :: !QueuedBy(s'.windows[i], id)
  {
    StartInTurn(s);
    SerialRunsTile(s, es, s', h);
    k := ServedOnce(s', id);
  }

  /** An article queued by two windows betrays runs that overlapped. */
  lemma RepeatsNeedOverlap(s: State, es: seq<Event>, s': State, id: nat, i: nat, k: nat, h: real)
    requires Start(s) && Steps(s, es, s', h) && StaysDaily(es) && i < k < |s'.windows|
    requires QueuedBy(s'.windows[i], id) && QueuedBy(s'.windows[k], id)
    ensures !Serial(s, es, h)
  {
    if Serial(s, es, h) {
      StartInTurn(s);
      SerialRunsTile(s, es, s', h);
      WindowQueuesItsOwn(s'.windows[k], s', id);
      NotQueuedTwice(s'.windows, s', k, i, id);
    }
  }

  /** A query that fits chooses all its candidates. */
  lemma AllSelected(articles: Articles, since: real, until: real) returns (chosen: seq<nat>)
    requires |Candidates(articles, since, until)| <= MAX_ARTICLES_PER_DIGEST
    ensures Selects(chosen, articles, since, until)
    ensures forall id | id in Candidates(articles, since, until) :: id in chosen
  {
    var from := Candidates(articles, since, until);
    chosen := ListingExists(from, NewestFirst(articles));
    MembersSize(chosen);
    assert Members(chosen) == from;
  }

  /** And they may: two runs that load before either completes both queue whatever is there. */
  lemma OverlapRepeats(s: State, h: real) returns (es: seq<Event>, s': State)
    requires Start(s) && s.last.Some? && h > 0.0 && forall id | id in s.articles :: s.articles[id].created <= s.clock
    requires |Candidates(s.articles, s.last.value, s.clock)| <= MAX_ARTICLES_PER_DIGEST
    ensures Steps(s, es, s', h) && StaysDaily(es) && |s'.windows| == 2
    ensures forall id | id in Candidates(s.articles, s.last.value, s.clock) ::
      QueuedBy(s'.windows[0], id) && QueuedBy(s'.windows[1], id)
  {
    var since, first, second := s.last.value, s.clock, s.clock + h / 4.0;
    assert Candidates(s.articles, since, second) == Candidates(s.articles, since, first);
    var a := AllSelected(s.articles, since, first);
    var b := AllSelected(s.articles, since, second);
    var s1 := Apply(s, Begin(0, second), h);
    var s2 := Apply(s1, Begin(1, s.clock + h / 2.0), h);
    assert s2.runs == map[0 := Run(first, None, None), 1 := Run(second, None, None)];
    var v2: seq<Event>;
    v2, s' := BothComplete(s2, first, second, a, b, h);
    var v1 := [Begin(1, s.clock + h / 2.0)] + v2;
    Then(s1, Begin(1, s.clock + h / 2.0), v2, s', h);
    es := [Begin(0, second)] + v1;
    Then(s, Begin(0, second), v1, s', h);
  }

  lemma BothComplete(s: State, first: real, second: real, a: seq<nat>, b: seq<nat>, h: real)
    returns (es: seq<Event>, s': State)
    requires s.runs == map[0 := Run(first, None, None), 1 := Run(second, None, None)] && s.windows == []
    requires s.interval.Daily? && s.last.Some?
    requires Selects(a, s.articles, s.last.value, first) && Selects(b, s.articles, s.last.value, second)
    ensures Steps(s, es, s', h) && StaysDaily(es)
    ensures |s'.windows| == 2 && s'.windows[0].query.chosen == a && s'.windows[1].query.chosen == b
  {
    var s1 := Apply(s, Load(0), h);
    var s2 := Apply(s1, Load(1), h);
    var since := s.last;
    assert s2.runs == map[0 := Run(first, since, None), 1 := Run(second, since, None)];
    var v2: seq<Event>;
    v2, s' := BothSelect(s2, first, second, a, b, h);
    var v1 := [Load(1)] + v2;
    Then(s1, Load(1), v2, s', h);
    es := [Load(0)] + v1;
    Then(s, Load(0), v1, s', h);
  }

  lemma BothSelect(s: State, first: real, second: real, a: seq<nat>, b: seq<nat>, h: real)
    returns (es: seq<Event>, s': State)
    requires s.runs == map[0 := Run(first, s.last, None), 1 := Run(second, s.last, None)] && s.windows == []
    requires s.last.Some?
    requires Selects(a, s.articles, s.last.value, first) && Selects(b, s.articles, s.last.value, second)
    ensures Steps(s, es, s', h) && StaysDaily(es)
    ensures |s'.windows| == 2 && s'.windows[0].query.chosen == a && s'.windows[1].query.chosen == b
  {
    var s1 := Apply(s, Select(0, a), h);
    var s2 := Apply(s1, Complete(0), h);
    var s3 := Apply(s2, Select(1, b), h);
    s' := Apply(s3, Complete(1), h);
    Then(s3, Complete(1), [], s', h);
    var v2 := [Select(1, b)] + [Complete(1)];
    Then(s2, Select(1, b), [Complete(1)], s', h);
    var v1 := [Complete(0)] + v2;
    Then(s1, Complete(0), v2, s', h);
    es := [Select(0, a)] + v1;
    Then(s, Select(0, a), v1, s', h);
  }
}
