/**
 * The daily digest of src/tasks/digest.py, one run: it reads the database clock once, and for each daily
 * subscription queues the articles stored in the half-open window from the last run's reading to its own.
 */
module Digest {
  import opened Prelude
  import opened Ordering

  const MAX_ARTICLES_PER_DIGEST := 100
  const DAY := 86_400.0

  /** What the selection reads: when the row was stored, its date, and whether the query matches it. */
  datatype Article = Article(created: real, published: Option<real>, matches: bool)

  type Articles = map<nat, Article>

  predicate InWindow(t: real, since: real, until: real) { since < t <= until }

  function Candidates(articles: Articles, since: real, until: real): set<nat> {
    set id | id in articles && articles[id].matches && InWindow(articles[id].created, since, until)
  }

  /** Newest first, undated last. */
  function NewestFirst(articles: Articles): (key: map<nat, Rank>)
    ensures key.Keys == articles.Keys
  {
    map id | id in articles :: if articles[id].published.Some? then At(-articles[id].published.value) else Null
  }

  function Since(last: Option<real>, now: real): real {
    if last.Some? then last.value else now - DAY
  }

  /** An answer of the selection query. */
  ghost predicate Selects(chosen: seq<nat>, articles: Articles, since: real, until: real) {
    IsFirst(chosen, Candidates(articles, since, until), NewestFirst(articles), MAX_ARTICLES_PER_DIGEST)
  }

  /** Article `x` may come before `y`: a dated one before an undated one, the later date before the earlier. */
  predicate LaterFirst(articles: Articles, x: nat, y: nat) {
    x in articles && y in articles && articles[y].published.Some? ==>
      articles[x].published.Some? && articles[x].published.value >= articles[y].published.value
  }

  /** What an answer of the query holds, in terms of the articles themselves. */
  lemma SelectionMeans(ids: seq<nat>, articles: Articles, since: real, until: real)
    requires Selects(ids, articles, since, until)
    ensures |ids| <= 100 && Distinct(ids)
    ensures forall id | id in ids ::
      id in articles && articles[id].matches && since < articles[id].created && articles[id].created <= until
    ensures |ids| < 100 ==> forall id | id in articles && articles[id].matches ::
      since < articles[id].created && articles[id].created <= until ==> id in ids
    ensures forall i, j | 0 <= i < j < |ids| :: LaterFirst(articles, ids[i], ids[j])
    ensures forall x, y | x in ids && y in articles && y !in ids && articles[y].matches ::
      since < articles[y].created && articles[y].created <= until ==> LaterFirst(articles, x, y)
  {
    var from, key := Candidates(articles, since, until), NewestFirst(articles);
    AllWhenFewer(ids, from, key, MAX_ARTICLES_PER_DIGEST);
    forall id | id in ids ensures id in from {
      assert id in Members(ids);
    }
    forall i, j | 0 <= i < j < |ids| ensures LaterFirst(articles, ids[i], ids[j]) {
      assert ids[i] in ids && ids[j] in ids;
      assert Leq(key[ids[i]], key[ids[j]]);
    }
    forall x, y | x in ids && y in articles && y !in ids && articles[y].matches
      ensures since < articles[y].created && articles[y].created <= until ==> LaterFirst(articles, x, y)
    {
      if since < articles[y].created && articles[y].created <= until {
        assert y in from && Leq(key[x], key[y]);
      }
    }
  }

  /** Exactly the subscriptions `subs` move to `now`. */
  ghost predicate Moved(before: map<nat, Option<real>>, after: map<nat, Option<real>>, subs: seq<nat>, now: real) {
    && after.Keys == before.Keys
    && forall sub | sub in after :: after[sub] == if sub in subs then Some(now) else before[sub]
  }

  /** Each subscription gets an answer for the window since its own last digest. */
  ghost predicate SelectedAll(subs: seq<nat>, chosen: seq<seq<nat>>, last: map<nat, Option<real>>, now: real,
      visible: nat -> Articles)
    requires |subs| == |chosen|
  {
    subs == [] ||
    (var n := |subs| - 1;
     && subs[n] in last && Selects(chosen[n], visible(subs[n]), Since(last[subs[n]], now), now)
     && SelectedAll(subs[..n], chosen[..n], last, now, visible))
  }

  lemma MovedSnoc(before: map<nat, Option<real>>, after: map<nat, Option<real>>, subs: seq<nat>, sub: nat, now: real)
    requires Moved(before, after, subs, now) && sub in before
    ensures Moved(before, after[sub := Some(now)], subs + [sub], now)
  {
  }

  class DigestTask {
    var lastNotified: map<nat, Option<real>>   // of the daily subscriptions
    var queue: seq<(nat, nat)>                 // subscription and article of each queued delivery

    constructor (lastNotified: map<nat, Option<real>>)
      ensures this.lastNotified == lastNotified && queue == []
    {
      this.lastNotified, queue := lastNotified, [];
    }

    method Enqueue(sub: nat, ids: seq<nat>)
      modifies this`queue
      ensures queue == old(queue) + Pairs(sub, ids) && |queue| == |old(queue)| + |ids|
      ensures forall k | 0 <= k < |ids| :: queue[|old(queue)| + k] == (sub, ids[k])
    {
      for j := 0 to |ids|
        invariant queue == old(queue) + Pairs(sub, ids[..j])
      {
        assert Pairs(sub, ids[..j + 1]) == Pairs(sub, ids[..j]) + [(sub, ids[j])];
        queue := queue + [(sub, ids[j])];
      }
      assert ids[..|ids|] == ids;
    }

    /** The loop body: one subscription, whose query sees `articles`. */
    method DigestOne(sub: nat, now: real, articles: Articles) returns (ids: seq<nat>)
      requires sub in lastNotified
      modifies this
      ensures Selects(ids, articles, Since(old(lastNotified)[sub], now), now)
      // Only matching articles of the window, all of them if they fit, the latest published first.
      ensures forall id | id in ids ::
        && id in articles && articles[id].matches && articles[id].created <= now
        && articles[id].created >
           (if old(lastNotified)[sub].Some? then old(lastNotified)[sub].value else now - 86_400.0)
      ensures |ids| < 100 ==> forall id | id in articles && articles[id].matches && articles[id].created <= now &&
        articles[id].created >
        (if old(lastNotified)[sub].Some? then old(lastNotified)[sub].value else now - 86_400.0) :: id in ids
      ensures |ids| <= 100
      ensures forall i, j | 0 <= i < j < |ids| :: ids[i] != ids[j] && LaterFirst(articles, ids[i], ids[j])
      ensures queue == old(queue) + Pairs(sub, ids) && lastNotified == old(lastNotified)[sub := Some(now)]
    {
      var since := Since(lastNotified[sub], now);
      ids := First(Candidates(articles, since, now), NewestFirst(articles), MAX_ARTICLES_PER_DIGEST);
      SelectionMeans(ids, articles, since, now);
      Enqueue(sub, ids);
      lastNotified := lastNotified[sub := Some(now)];
    }

    /** What the loop keeps while the subscriptions `done` have been handled. */
    ghost predicate Progress(done: seq<nat>, chosen: seq<seq<nat>>, before: map<nat, Option<real>>, now: real,
                             visible: nat -> Articles, queued: seq<(nat, nat)>)
      reads this
    {
      && |done| == |chosen| && Moved(before, lastNotified, done, now)
      && SelectedAll(done, chosen, before, now, visible)
      && queue == queued + Deliveries(done, chosen)
    }

    method DigestNext(sub: nat, now: real, articles: Articles, ghost done: seq<nat>, ghost chosen: seq<seq<nat>>,
                      ghost before: map<nat, Option<real>>, ghost visible: nat -> Articles,
                      ghost queued: seq<(nat, nat)>)
      returns (ids: seq<nat>)
      requires Progress(done, chosen, before, now, visible, queued) && sub in before && sub !in done &&
          articles == visible(sub)
      modifies this
      ensures Progress(done + [sub], chosen + [ids], before, now, visible, queued) && |queue| == old(|queue|) + |ids|
    {
      ghost var was := lastNotified;
      ids := DigestOne(sub, now, articles);
      Grown(done, chosen, sub, ids, before, was, now, visible, queued);
    }

    /** `daily_digest` over the subscriptions `subs`; `visible(sub)` is the article table as its query sees it. */
    method DailyDigest(subs: seq<nat>, now: real, visible: nat -> Articles)
        returns (sent: nat, ghost chosen: seq<seq<nat>>)
      requires Distinct(subs) && forall sub | sub in subs :: sub in lastNotified
      modifies this
      ensures |chosen| == |subs| && sent == |queue| - |old(queue)|
      ensures Moved(old(lastNotified), lastNotified, subs, now)
      ensures SelectedAll(subs, chosen, old(lastNotified), now, visible)
      ensures queue == old(queue) + Deliveries(subs, chosen)
    {
      sent, chosen := 0, [];
      for k := 0 to |subs|
        invariant |chosen| == k && sent == |queue| - |old(queue)|
        invariant Progress(subs[..k], chosen, old(lastNotified), now, visible, old(queue))
      {
        assert subs[k] !in subs[..k] && subs[..k + 1] == subs[..k] + [subs[k]];
        var ids := DigestNext(subs[k], now, visible(subs[k]), subs[..k], chosen, old(lastNotified), visible,
            old(queue));
        chosen, sent := chosen + [ids], sent + |ids|;
      }
      assert subs[..|subs|] == subs;
    }
  }

  /** One more subscription: all that the loop keeps. */
  lemma Grown(done: seq<nat>, chosen: seq<seq<nat>>, sub: nat, ids: seq<nat>, before: map<nat, Option<real>>,
              after: map<nat, Option<real>>, now: real, visible: nat -> Articles, queue: seq<(nat, nat)>)
    requires |done| == |chosen| && SelectedAll(done, chosen, before, now, visible) && Moved(before, after, done, now)
    requires sub in before && sub !in done && Selects(ids, visible(sub), Since(after[sub], now), now)
    ensures SelectedAll(done + [sub], chosen + [ids], before, now, visible)
    ensures Moved(before, after[sub := Some(now)], done + [sub], now)
    ensures queue + Deliveries(done, chosen) + Pairs(sub, ids) == queue + Deliveries(done + [sub], chosen + [ids])
  {
    assert (done + [sub])[..|done|] == done && (chosen + [ids])[..|done|] == chosen;
    MovedSnoc(before, after, done, sub, now);
  }

  function Pairs(sub: nat, ids: seq<nat>): (r: seq<(nat, nat)>)
    ensures |r| == |ids|
  {
    seq(|ids|, i requires 0 <= i < |ids| => (sub, ids[i]))
  }

  ghost function Deliveries(subs: seq<nat>, chosen: seq<seq<nat>>): seq<(nat, nat)>
    requires |subs| == |chosen|
  {
    if subs == [] then []
    else var n := |subs| - 1; Deliveries(subs[..n], chosen[..n]) + Pairs(subs[n], chosen[n])
  }
}
