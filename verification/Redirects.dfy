/**
 * The redirect loop of src/apps/core/safe_http.py (`request`): every hop is checked before anything is
 * sent, at most `maxRedirects` answers are followed, and a body is dropped for good once a redirect
 * turns the request into a GET.
 */
module Redirects {
  import opened Prelude

  datatype Request = Request(verb: string, url: string, content: Option<seq<bv8>>)

  datatype Answer = Answer(status: nat, location: Option<string>)

  /**
   * The outside world at each hop: is a URL safe to contact now, what is answered now, is the deadline
   * over; and how URLs join.  A name may resolve differently and a server answer differently every time.
   */
  datatype World = World(
    safe: (nat, string) -> bool,
    answer: (nat, Request) -> Answer,
    expired: nat -> bool,
    join: (string, string) -> string)

  datatype Outcome =
    | Unsafe(url: string)
    | DeadlineExceeded(url: string)
    | Response(status: nat, url: string, permanentUrl: Option<string>)

  const REDIRECT_CODES := {301, 302, 303, 307, 308}
  const PERMANENT_REDIRECT_CODES := {301, 308}

  predicate Redirect(a: Answer) {
    a.status in REDIRECT_CODES && a.location.Some? && a.location.value != ""
  }

  /** The request that follows a redirect. */
  function Next(r: Request, a: Answer, w: World): Request
    requires Redirect(a)
  {
    var url := w.join(r.url, a.location.value);
    if a.status == 303 || (a.status in {301, 302} && r.verb == "POST") then Request("GET", url, None)
    else Request(r.verb, url, r.content)
  }

  /** Hop `i` was checked before it was sent, and is the first request or follows the one before it. */
  ghost predicate Hop(log: seq<Request>, i: nat, first: Request, w: World)
    requires i < |log|
  {
    && w.safe(i, log[i].url) && !w.expired(i)
    && if i == 0 then log[i] == first
       else Redirect(w.answer(i - 1, log[i - 1])) && log[i] == Next(log[i - 1], w.answer(i - 1, log[i - 1]), w)
  }

  /** `log` is what a client following redirects by hand would send. */
  ghost predicate Chain(log: seq<Request>, first: Request, w: World) {
    forall i: nat | i < |log| :: Hop(log, i, first, w)
  }

  /** What the last request of `log` was answered. */
  function LastAnswer(log: seq<Request>, w: World): Answer
    requires log != []
  {
    w.answer(|log| - 1, log[|log| - 1])
  }

  predicate Permanent(i: nat, r: Request, w: World) { w.answer(i, r).status in PERMANENT_REDIRECT_CODES }

  /** The first `n` hops were all answered by a permanent redirect. */
  ghost predicate AllPermanent(log: seq<Request>, n: nat, w: World)
    requires n <= |log|
  {
    forall i: nat | i < n :: Permanent(i, log[i], w)
  }

  lemma PermanentGrows(log: seq<Request>, r: Request, w: World)
    ensures AllPermanent(log + [r], |log|, w) <==> AllPermanent(log, |log|, w)
    ensures AllPermanent(log + [r], |log| + 1, w) <==> AllPermanent(log, |log|, w) && Permanent(|log|, r, w)
  {
    assert forall i: nat | i < |log| :: (log + [r])[i] == log[i];
    assert (log + [r])[|log|] == r;
  }

  /** The next hop after `log`. */
  ghost function Pending(log: seq<Request>, first: Request, w: World): Request
    requires log == [] || Redirect(LastAnswer(log, w))
  {
    if log == [] then first else Next(log[|log| - 1], LastAnswer(log, w), w)
  }

  lemma ChainGrows(log: seq<Request>, first: Request, w: World)
    requires Chain(log, first, w) && (log == [] || Redirect(LastAnswer(log, w)))
    requires w.safe(|log|, Pending(log, first, w).url) && !w.expired(|log|)
    ensures Chain(log + [Pending(log, first, w)], first, w)
  {
    var log' := log + [Pending(log, first, w)];
    forall i: nat | i < |log'| ensures Hop(log', i, first, w) {
      assert i < |log| ==> Hop(log, i, first, w);
    }
  }

  /** The answer returned: the last one, not a redirect that could still be followed. */
  ghost predicate Answered(out: Outcome, log: seq<Request>, maxRedirects: nat, w: World)
    requires out.Response? && log != []
  {
    var n := |log| - 1;
    && out.status == LastAnswer(log, w).status && out.url == log[n].url
    && (!Redirect(LastAnswer(log, w)) || n == maxRedirects)
    && out.permanentUrl == (if n > 0 && AllPermanent(log, n, w) then Some(log[n].url) else None)
  }

  /** The hop that was refused: nothing was sent to it. */
  ghost predicate Refused(out: Outcome, log: seq<Request>, first: Request, w: World)
    requires !out.Response? && (log == [] || Redirect(LastAnswer(log, w)))
  {
    var next := Pending(log, first, w);
    && out.url == next.url
    && (out.Unsafe? <==> !w.safe(|log|, next.url))
    && (out.DeadlineExceeded? ==> w.expired(|log|))
  }

  method Send(first: Request, maxRedirects: nat, w: World) returns (out: Outcome, log: seq<Request>)
    ensures Chain(log, first, w) && |log| <= maxRedirects + 1
    ensures out.Response? ==> log != [] && Answered(out, log, maxRedirects, w)
    ensures !out.Response? ==> (log == [] || Redirect(LastAnswer(log, w))) && Refused(out, log, first, w)
  {
    log := [];
    var request, permanent, hop := first, true, 0;
    while true
      invariant |log| == hop <= maxRedirects && Chain(log, first, w)
      invariant log == [] || Redirect(LastAnswer(log, w))
      invariant request == Pending(log, first, w)
      invariant permanent <==> AllPermanent(log, hop, w)
      decreases maxRedirects - hop
    {
      if !w.safe(hop, request.url) {
        return Unsafe(request.url), log;
      }
      if w.expired(hop) {
        return DeadlineExceeded(request.url), log;
      }
      var answer := w.answer(hop, request);
      ChainGrows(log, first, w);
      PermanentGrows(log, request, w);
      log := log + [request];
      if !(Redirect(answer) && hop < maxRedirects) {
        return Response(answer.status, request.url, if permanent && hop > 0 then Some(request.url) else None), log;
      }
      permanent := permanent && answer.status in PERMANENT_REDIRECT_CODES;
      request, hop := Next(request, answer, w), hop + 1;
    }
  }

  /** Each hop after the first goes where the answer before it points. */
  lemma HopFollows(log: seq<Request>, first: Request, w: World, i: nat)
    requires Chain(log, first, w) && i + 1 < |log|
    ensures var a := w.answer(i, log[i]);
            && (a.status == 301 || a.status == 302 || a.status == 303 || a.status == 307 || a.status == 308)
            && a.location.Some? && a.location.value != "" && log[i + 1].url == w.join(log[i].url, a.location.value)
  {
    assert Hop(log, i + 1, first, w);
  }

  /** The answer returned could not be followed, and its URL is permanent after 301 and 308 only. */
  lemma StopsExactly(out: Outcome, log: seq<Request>, maxRedirects: nat, w: World)
    requires out.Response? && log != [] && Answered(out, log, maxRedirects, w)
    ensures var a := w.answer(|log| - 1, log[|log| - 1]);
            || |log| == maxRedirects + 1 || a.location.None? || a.location.value == ""
            || (a.status != 301 && a.status != 302 && a.status != 303 && a.status != 307 && a.status != 308)
    ensures out.permanentUrl.Some? <==>
            |log| > 1 && forall i: nat | i < |log| - 1 ::
              w.answer(i, log[i]).status == 301 || w.answer(i, log[i]).status == 308
    ensures out.permanentUrl.Some? ==> out.permanentUrl.value == log[|log| - 1].url
  {
    assert forall i: nat | i < |log| - 1 ::
      Permanent(i, log[i], w) <==> w.answer(i, log[i]).status == 301 || w.answer(i, log[i]).status == 308;
  }

  /** A body that is dropped on the way is never sent again, and while it is sent the method stays. */
  lemma {:induction false} BodyIsNeverRevived(log: seq<Request>, first: Request, w: World, i: nat, j: nat)
    requires Chain(log, first, w) && i <= j < |log|
    ensures log[j].content.Some? ==> log[j].content == log[i].content && log[j].verb == log[i].verb
    decreases j - i
  {
    if i < j {
      BodyIsNeverRevived(log, first, w, i, j - 1);
      assert Hop(log, j, first, w);
    }
  }

  /** Without such a redirect on the way, method and body arrive as they were sent. */
  lemma {:induction false} BodySurvives(log: seq<Request>, first: Request, w: World, i: nat, j: nat)
    requires Chain(log, first, w) && i <= j < |log|
    requires forall k | i <= k < j ::
      w.answer(k, log[k]).status in {307, 308} || (w.answer(k, log[k]).status in {301, 302} && log[k].verb != "POST")
    ensures log[j].verb == log[i].verb && log[j].content == log[i].content
    decreases j - i
  {
    if i < j {
      BodySurvives(log, first, w, i, j - 1);
      assert Hop(log, j, first, w);
    }
  }

  /** A POST that meets a 301, 302 or 303 arrives everywhere after it as a GET without body. */
  lemma PostBecomesGet(log: seq<Request>, first: Request, w: World, i: nat, j: nat)
    requires Chain(log, first, w) && i < j < |log|
    requires w.answer(i, log[i]).status == 303 || (w.answer(i, log[i]).status in {301, 302} && log[i].verb == "POST")
    ensures log[j].content == None && log[j].verb == "GET"
  {
    assert Hop(log, i + 1, first, w);
    GetStays(log, first, w, i + 1, j);
  }

  lemma {:induction false} GetStays(log: seq<Request>, first: Request, w: World, i: nat, j: nat)
    requires Chain(log, first, w) && i <= j < |log| && log[i].verb == "GET" && log[i].content == None
    ensures log[j].verb == "GET" && log[j].content == None
    decreases j - i
  {
    if i < j {
      GetStays(log, first, w, i, j - 1);
      assert Hop(log, j, first, w);
    }
  }
}
