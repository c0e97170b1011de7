/**
 * `MainActivity.startServerCheck`: poll the local server's health check until it answers
 * 200, then load the web UI; give up after a fixed number of failed attempts.
 *
 * One check sends a HEAD request, unless the retry count has reached the maximum, in
 * which case it only shows the give-up notice. A transport failure or any answer but 200
 * bumps the count by one and schedules the next check; a 200 cancels the pending check
 * and loads the UI. The HTTP client is an oracle: the sequence of outcomes the requests
 * meet, in order.
 */
module ReadinessProber {

  /** The page the web view loads once the server is ready. */
  const DefaultUrl: string := "http://127.0.0.1:8080"

  /** The health-check endpoint the prober sends HEAD requests to. */
  const TargetUrl: string := "http://127.0.0.1:8080/api/health-check"

  /** The delay before a re-armed check runs, in milliseconds. */
  const RetryIntervalMs: nat := 2000

  /** How many failed attempts are allowed before giving up. */
  const MaxRetryCount: int := 10

  /** What one request meets: an `IOException` (`onFailure`) or a response with a status code. */
  datatype Outcome = TransportFailure | Response(code: int)

  /** `response.isSuccessful && response.code == 200`. */
  predicate Ready(o: Outcome)
  {
    o.Response? && 200 <= o.code <= 299 && o.code == 200
  }

  /** What the prober does that the outside world sees, in order. */
  datatype Event =
    | HeadRequest(url: string)
    | Rearm(delayMs: nat)
    | FailureNotice(count: int)
    | BadStatusNotice(code: int, count: int)
    | CancelPending
    | ReadyNotice
    | LoadUrl(url: string)
    | GiveUpNotice

  /** How the polling ended: the UI is loaded, the prober gave up, or a request is still outstanding. */
  datatype End = Loaded | GaveUp | Awaiting

  /** The final retry count, everything that happened, and how it ended. */
  datatype Probe = Probe(count: int, events: seq<Event>, end: End)

  /**
   * The checks from retry count `count` on, the requests meeting `outcomes` in order (the
   * polling stops with a request outstanding when the outcomes run out).
   */
  function Run(count: int, outcomes: seq<Outcome>): (r: Probe)
    ensures count >= MaxRetryCount ==> r == Probe(count, [GiveUpNotice], GaveUp)
    ensures r.count >= count
    ensures count < MaxRetryCount ==> r.count <= MaxRetryCount
    ensures r.end == GaveUp <==> r.count >= MaxRetryCount
    ensures |r.events| > 0
    ensures r.end == Loaded <==> r.events[|r.events| - 1] == LoadUrl(DefaultUrl)
    ensures r.end == GaveUp <==> r.events[|r.events| - 1] == GiveUpNotice
    decreases |outcomes|
  {
    if count >= MaxRetryCount then Probe(count, [GiveUpNotice], GaveUp)
    else if |outcomes| == 0 then Probe(count, [HeadRequest(TargetUrl)], Awaiting)
    else
      var o := outcomes[0];
      if Ready(o) then Probe(count, [HeadRequest(TargetUrl), CancelPending, ReadyNotice, LoadUrl(DefaultUrl)], Loaded)
      else
        var notice := if o.TransportFailure? then FailureNotice(count + 1) else BadStatusNotice(o.code, count + 1);
        var rest := Run(count + 1, outcomes[1..]);
        Probe(rest.count, [HeadRequest(TargetUrl), Rearm(RetryIntervalMs), notice] + rest.events, rest.end)
  }

  /** The HEAD requests among `events`. */
  function Requests(events: seq<Event>): nat
  {
    if |events| == 0 then 0
    else (if events[0].HeadRequest? then 1 else 0) + Requests(events[1..])
  }

  /** The give-up notices among `events`. */
  function GiveUps(events: seq<Event>): nat
  {
    if |events| == 0 then 0
    else (if events[0] == GiveUpNotice then 1 else 0) + GiveUps(events[1..])
  }

  lemma {:induction false} CountsConcat(a: seq<Event>, b: seq<Event>)
    ensures Requests(a + b) == Requests(a) + Requests(b)
    ensures GiveUps(a + b) == GiveUps(a) + GiveUps(b)
  {
    if |a| > 0 {
      assert (a + b)[1..] == a[1..] + b;
      CountsConcat(a[1..], b);
    } else {
      assert a + b == b;
    }
  }

  /** Only status 200 is ready: other 2xx answers count as failures. */
  lemma ReadyIsExactly200(o: Outcome)
    ensures Ready(o) <==> o == Response(200)
  {
  }

  /**
   * Every request but the last one raised the count by one: the requests number the
   * count's growth, plus one for a request that succeeded or is still outstanding; the
   * prober gives up at most once, and only at the very end.
   */
  lemma {:induction false} RequestsTrackCount(count: int, outcomes: seq<Outcome>)
    ensures var r := Run(count, outcomes);
      && Requests(r.events) == (r.count - count) + (if r.end == GaveUp then 0 else 1)
      && GiveUps(r.events) == (if r.end == GaveUp then 1 else 0)
    decreases |outcomes|
  {
    if count >= MaxRetryCount {
      CountsOfOne(GiveUpNotice);
    } else if |outcomes| == 0 {
      CountsOfOne(HeadRequest(TargetUrl));
    } else if Ready(outcomes[0]) {
      CountsOf([HeadRequest(TargetUrl), CancelPending, ReadyNotice, LoadUrl(DefaultUrl)]);
    } else {
      var o := outcomes[0];
      var notice := if o.TransportFailure? then FailureNotice(count + 1) else BadStatusNotice(o.code, count + 1);
      var head := [HeadRequest(TargetUrl), Rearm(RetryIntervalMs), notice];
      var rest := Run(count + 1, outcomes[1..]);
      assert Run(count, outcomes) == Probe(rest.count, head + rest.events, rest.end);
      CountsOf(head);
      RequestsTrackCount(count + 1, outcomes[1..]);
      CountsConcat(head, rest.events);
    }
  }

  lemma CountsOfOne(e: Event)
    ensures Requests([e]) == (if e.HeadRequest? then 1 else 0)
    ensures GiveUps([e]) == (if e == GiveUpNotice then 1 else 0)
  {
  }

  /** A short run of events whose first is the only request and none gives up. */
  lemma {:induction false} CountsOf(es: seq<Event>)
    requires |es| > 0 && es[0].HeadRequest?
    requires forall k :: 0 < k < |es| ==> !es[k].HeadRequest? && es[k] != GiveUpNotice
    ensures Requests(es) == 1 && GiveUps(es) == 0
  {
    var k := 1;
    while k < |es|
      invariant 1 <= k <= |es|
      invariant Requests(es[..k]) == 1 && GiveUps(es[..k]) == 0
    {
      CountsOfOne(es[k]);
      CountsConcat(es[..k], [es[k]]);
      assert es[..k + 1] == es[..k] + [es[k]];
      k := k + 1;
    }
    assert es[..k] == es;
  }

  /** A failing request (transport error or any status but 200) bumps the count by exactly one and re-arms. */
  lemma FailureRearms(count: int, o: Outcome, rest: seq<Outcome>)
    requires count < MaxRetryCount && !Ready(o)
    ensures var r := Run(count, [o] + rest);
      && r == Run(count + 1, rest).(events := r.events)
      && r.events[..2] == [HeadRequest(TargetUrl), Rearm(RetryIntervalMs)]
      && r.events[2..] == [r.events[2]] + Run(count + 1, rest).events
  {
  }

  /** A 200 stops the polling at once: the count stays, nothing is re-armed and the UI loads. */
  lemma ReadyLoads(count: int, rest: seq<Outcome>)
    requires count < MaxRetryCount
    ensures Run(count, [Response(200)] + rest)
      == Probe(count, [HeadRequest(TargetUrl), CancelPending, ReadyNotice, LoadUrl(DefaultUrl)], Loaded)
  {
  }

  /** Only failures before the first 200 matter: the outcomes after it are never consulted. */
  lemma {:induction false} LaterOutcomesIgnored(count: int, outcomes: seq<Outcome>, k: nat, tail: seq<Outcome>)
    requires k < |outcomes| && Ready(outcomes[k])
    ensures Run(count, outcomes) == Run(count, outcomes[..k + 1] + tail)
    decreases k
  {
    if count < MaxRetryCount && !Ready(outcomes[0]) {
      assert k > 0;
      assert (outcomes[..k + 1] + tail)[1..] == outcomes[1..][..k] + tail;
      LaterOutcomesIgnored(count + 1, outcomes[1..], k - 1, tail);
    }
  }

  /**
   * Against a server that never answers 200, polling from count `count` issues exactly
   * `MaxRetryCount - count` requests, then gives up once.
   */
  lemma {:induction false} AlwaysFailingGivesUp(count: int, outcomes: seq<Outcome>)
    requires 0 <= count <= MaxRetryCount && |outcomes| >= MaxRetryCount - count
    requires forall k :: 0 <= k < |outcomes| ==> !Ready(outcomes[k])
    ensures var r := Run(count, outcomes);
      && r.end == GaveUp && r.count == MaxRetryCount
      && Requests(r.events) == MaxRetryCount - count && GiveUps(r.events) == 1
    decreases |outcomes|
  {
    RequestsTrackCount(count, outcomes);
    if count < MaxRetryCount {
      assert !Ready(outcomes[0]);
      AlwaysFailingGivesUp(count + 1, outcomes[1..]);
    }
  }

  /** From a fresh start, an unreachable server gets ten requests and one give-up notice. */
  lemma TenRequestsThenGiveUp(outcomes: seq<Outcome>)
    requires |outcomes| >= 10 && forall k :: 0 <= k < |outcomes| ==> !Ready(outcomes[k])
    ensures Requests(Run(0, outcomes).events) == 10 && GiveUps(Run(0, outcomes).events) == 1
  {
    AlwaysFailingGivesUp(0, outcomes);
  }

  /** Two refused connections and a 204 cost three retries; the 200 after them loads the UI. */
  lemma NoContentIsNotReady()
    ensures var r := Run(0, [TransportFailure, TransportFailure, Response(204), Response(200)]);
      r.end == Loaded && r.count == 3 && Requests(r.events) == 4
  {
    var os := [TransportFailure, TransportFailure, Response(204), Response(200)];
    assert os[1..] == [TransportFailure, Response(204), Response(200)];
    assert os[1..][1..] == [Response(204), Response(200)];
    assert os[1..][1..][1..] == [Response(200)];
    RequestsTrackCount(0, os);
  }
}
