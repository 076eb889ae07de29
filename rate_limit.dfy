/** The fixed-window limiter that guards the login and register endpoints:
    per client address and endpoint, at most MAX_ATTEMPTS admitted requests in
    a window that restarts once it is more than WINDOW_MS old.

    The value-level functions (`Admit`, `Admission`, `Replay`) specify the
    decision and the new state; the classes `AttemptTracker` and
    `RateLimitInterceptor` are the mutable objects of the source, proved to
    follow them. The clock is the `now` parameter (milliseconds). */
module RateLimit {
  import opened Wrappers
  import opened JavaStrings

  const MAX_ATTEMPTS: int := 5
  const WINDOW_MS: int := 60000

  const LOGIN_URI: string := "/api/auth/login"
  const REGISTER_URI: string := "/api/auth/register"

  /** What the interceptor reads from an HTTP request: the request URI, the
      X-Forwarded-For header (`None` when absent) and the peer address. */
  datatype Request = Request(uri: string, forwardedFor: Option<string>, remoteAddr: string)

  /** Only the two authentication endpoints are limited; the source's regular
      expression `^/api/auth/(login|register)$` under `matches` is a whole-string
      match, i.e. equality with one of the two paths. */
  predicate IsLimited(uri: string) {
    uri == LOGIN_URI || uri == REGISTER_URI
  }

  /** The limited paths are exactly those the pattern describes: the prefix
      `/api/auth/` followed by nothing but `login` or `register`. */
  lemma LimitedMatchesPattern(uri: string)
    ensures IsLimited(uri) <==>
      |uri| >= 10 && uri[..10] == "/api/auth/" && (uri[10..] == "login" || uri[10..] == "register")
  {
    if |uri| >= 10 && uri[..10] == "/api/auth/" {
      assert uri == uri[..10] + uri[10..];
    }
  }

  // ----------------------------------------------------------------------
  // Client identity
  // ----------------------------------------------------------------------

  /** The exception `getClientIp` can raise. */
  datatype IpError = ArrayIndexOutOfBounds

  /** A header that is present and not empty. */
  predicate HasForwardedFor(req: Request) {
    req.forwardedFor.Some? && req.forwardedFor.value != []
  }

  /** `getClientIp` as written: `split(",")[0].trim()` of a non-empty header,
      else the peer address. Indexing the split result fails when it is empty. */
  function ClientIpAsWritten(req: Request): (r: Result<string, IpError>)
    ensures !HasForwardedFor(req) ==> r == Success(req.remoteAddr)
  {
    if HasForwardedFor(req) then
      var parts := Split(req.forwardedFor.value);
      if parts == [] then Failure(ArrayIndexOutOfBounds) else Success(Trim(parts[0]))
    else
      Success(req.remoteAddr)
  }

  /** The client identity as intended: the trimmed first comma-separated entry
      of a non-empty X-Forwarded-For header, else the peer address. Never fails. */
  function ClientIp(req: Request): (r: string)
    ensures !HasForwardedFor(req) ==> r == req.remoteAddr
    ensures HasForwardedFor(req) ==> r == Trim(FirstField(req.forwardedFor.value))
    ensures HasForwardedFor(req) ==>
      && ',' !in r
      && (r == [] || (!Blank(r[0]) && !Blank(r[|r| - 1])))
  {
    if HasForwardedFor(req) then
      var f := FirstField(req.forwardedFor.value);
      Trim(f)
    else req.remoteAddr
  }

  /** The source fails exactly on a header made only of commas (such as ","). */
  lemma ClientIpAsWrittenFails(req: Request)
    ensures ClientIpAsWritten(req).Failure? <==> HasForwardedFor(req) && AllCommas(req.forwardedFor.value)
  {
    if HasForwardedFor(req) {
      SplitEmptyIff(req.forwardedFor.value);
    }
  }

  /** Wherever the source returns an address, it is the intended one. */
  lemma ClientIpAgrees(req: Request)
    requires ClientIpAsWritten(req).Success?
    ensures ClientIpAsWritten(req).value == ClientIp(req)
  {
    if HasForwardedFor(req) {
      SplitHead(req.forwardedFor.value);
    }
  }

  /** A concrete request on which the source throws. */
  lemma CommaHeaderThrows()
    ensures ClientIpAsWritten(Request(LOGIN_URI, Some(","), "10.0.0.1")) == Failure(ArrayIndexOutOfBounds)
  {
    var header := ",";
    assert |header| == 1 && header[0] == ',';
    assert AllCommas(header);
    SplitEmptyIff(header);
    var req := Request(LOGIN_URI, Some(header), "10.0.0.1");
    assert HasForwardedFor(req) && Split(req.forwardedFor.value) == [];
  }

  /** The limiter key: client address, ':' and the endpoint. */
  function RateKey(ip: string, uri: string): (k: string)
    ensures |k| == |ip| + 1 + |uri|
    ensures k[..|ip|] == ip && k[|ip|] == ':' && k[|ip| + 1..] == uri
  {
    ip + ":" + uri
  }

  /** For limited endpoints the key determines both the client and the
      endpoint, so no two clients or endpoints share a budget. */
  lemma RateKeyInjective(ip1: string, uri1: string, ip2: string, uri2: string)
    requires IsLimited(uri1) && IsLimited(uri2)
    requires RateKey(ip1, uri1) == RateKey(ip2, uri2)
    ensures ip1 == ip2 && uri1 == uri2
  {
    var key := RateKey(ip1, uri1);
    assert key[|key| - 1] == uri1[|uri1| - 1];
    assert key[|key| - 1] == uri2[|uri2| - 1];
    assert uri1 == uri2;
    assert |ip1| == |ip2|;
    assert ip1 == key[..|ip1|];
    assert ip2 == key[..|ip2|];
  }

  // ----------------------------------------------------------------------
  // Windows as values
  // ----------------------------------------------------------------------

  /** The state of one `AttemptTracker`: admitted requests and window start. */
  datatype Window = Window(count: int, start: int)

  /** `isExpired`: strictly more than WINDOW_MS since the window started. */
  predicate Expired(w: Window, now: int) {
    now - w.start > WINDOW_MS
  }

  /** Expiry is for good: a window expired at some time is expired at every
      later one, and it expires exactly one millisecond after WINDOW_MS. */
  lemma ExpiredStaysExpired(w: Window, now: int, later: int)
    requires Expired(w, now) && now <= later
    ensures Expired(w, later)
    ensures !Expired(w, w.start + WINDOW_MS) && Expired(w, w.start + WINDOW_MS + 1)
  {
  }

  /** The limiter's invariant: no window ever counts more than MAX_ATTEMPTS. */
  ghost predicate Bounded(ws: map<string, Window>) {
    forall k | k in ws :: 0 <= ws[k].count <= MAX_ATTEMPTS
  }

  /** A decision together with the windows it leaves behind. */
  datatype Verdict = Verdict(allowed: bool, windows: map<string, Window>)

  /** A decision on one window and the window it leaves. */
  datatype Outcome = Outcome(allowed: bool, window: Window)

  /** The check on one tracker: restart it when expired (`reset`), then deny
      if full, else count the request and admit it. */
  function AdmitWindow(w: Window, now: int): (o: Outcome)
    ensures o.allowed <==> Expired(w, now) || w.count < MAX_ATTEMPTS
    ensures o.allowed && !Expired(w, now) ==> o.window == Window(w.count + 1, w.start)
    ensures o.allowed && Expired(w, now) ==> o.window == Window(1, now)
    ensures !o.allowed ==> o.window == w
    ensures 0 <= w.count <= MAX_ATTEMPTS ==> 0 <= o.window.count <= MAX_ATTEMPTS
  {
    var live := if Expired(w, now) then Window(0, now) else w;
    if live.count >= MAX_ATTEMPTS then Outcome(false, live)
    else Outcome(true, Window(live.count + 1, live.start))
  }

  /** One limited request for `key` at time `now`: the key's tracker, created
      with an empty window starting now if absent (`computeIfAbsent`), goes
      through `AdmitWindow`; every other tracker is left alone. */
  function Admit(ws: map<string, Window>, key: string, now: int): (v: Verdict)
    ensures v.windows.Keys == ws.Keys + {key}
    ensures forall k | k in ws && k != key :: v.windows[k] == ws[k]
    ensures v.allowed <==> key !in ws || Expired(ws[key], now) || ws[key].count < MAX_ATTEMPTS
    ensures v.allowed && key in ws && !Expired(ws[key], now) ==> v.windows[key] == Window(ws[key].count + 1, ws[key].start)
    ensures v.allowed && (key !in ws || Expired(ws[key], now)) ==> v.windows[key] == Window(1, now)
    ensures !v.allowed ==> v.windows == ws
    ensures Bounded(ws) ==> Bounded(v.windows)
  {
    var o := AdmitWindow(if key in ws then ws[key] else Window(0, now), now);
    Verdict(o.allowed, ws[key := o.window])
  }

  /** `preHandle`: other endpoints pass untouched; limited ones go through
      `Admit` under the client's key. */
  function Admission(ws: map<string, Window>, req: Request, now: int): (v: Verdict)
    ensures !IsLimited(req.uri) ==> v.allowed && v.windows == ws
    ensures IsLimited(req.uri) ==> v == Admit(ws, RateKey(ClientIp(req), req.uri), now)
    ensures forall k | k in ws && k != RateKey(ClientIp(req), req.uri) :: k in v.windows && v.windows[k] == ws[k]
    ensures ws.Keys <= v.windows.Keys
    ensures Bounded(ws) ==> Bounded(v.windows)
  {
    if !IsLimited(req.uri) then Verdict(true, ws)
    else Admit(ws, RateKey(ClientIp(req), req.uri), now)
  }

  /** `preHandle` as written: on a limited endpoint the client lookup runs
      first, and when it throws nothing is decided and no tracker is touched. */
  function AdmissionAsWritten(ws: map<string, Window>, req: Request, now: int): (r: Result<Verdict, IpError>)
    ensures !IsLimited(req.uri) ==> r == Success(Verdict(true, ws))
  {
    if !IsLimited(req.uri) then Success(Verdict(true, ws))
    else
      match ClientIpAsWritten(req)
      case Failure(e) => Failure(e)
      case Success(ip) => Success(Admit(ws, RateKey(ip, req.uri), now))
  }

  /** The source's `preHandle` decides exactly as `Admission` does, except on
      a limited endpoint whose X-Forwarded-For header is only commas, where it
      throws and leaves the trackers as they were. */
  lemma AdmissionAsWrittenAgrees(ws: map<string, Window>, req: Request, now: int)
    ensures AdmissionAsWritten(ws, req, now).Failure? <==>
      IsLimited(req.uri) && HasForwardedFor(req) && AllCommas(req.forwardedFor.value)
    ensures AdmissionAsWritten(ws, req, now).Success? ==>
      AdmissionAsWritten(ws, req, now).value == Admission(ws, req, now)
  {
    ClientIpAsWrittenFails(req);
    if ClientIpAsWritten(req).Success? {
      ClientIpAgrees(req);
    }
  }

  /** A sequence of decisions with the final windows. */
  datatype Trace = Trace(decisions: seq<bool>, windows: map<string, Window>)

  /** A request at a given time. */
  datatype Call = Call(request: Request, now: int)

  /** Handles the calls in order. */
  function Replay(ws: map<string, Window>, calls: seq<Call>): (t: Trace)
    ensures |t.decisions| == |calls|
    ensures ws.Keys <= t.windows.Keys
    decreases |calls|
  {
    if calls == [] then Trace([], ws)
    else
      var v := Admission(ws, calls[0].request, calls[0].now);
      var rest := Replay(v.windows, calls[1..]);
      Trace([v.allowed] + rest.decisions, rest.windows)
  }

  /** The bound holds after any sequence of requests whatsoever. */
  lemma {:induction false} ReplayKeepsBound(ws: map<string, Window>, calls: seq<Call>)
    requires Bounded(ws)
    ensures Bounded(Replay(ws, calls).windows)
    decreases |calls|
  {
    if calls != [] {
      var v := Admission(ws, calls[0].request, calls[0].now);
      ReplayKeepsBound(v.windows, calls[1..]);
    }
  }

  /** Requests to any other endpoint are never refused, whatever came before:
      the i-th call, when it is not for login or register, is admitted. */
  lemma {:induction false} ReplayPassesUnlimited(ws: map<string, Window>, calls: seq<Call>, i: int)
    requires 0 <= i < |calls| && !IsLimited(calls[i].request.uri)
    ensures Replay(ws, calls).decisions[i]
    decreases i
  {
    var v := Admission(ws, calls[0].request, calls[0].now);
    var rest := Replay(v.windows, calls[1..]);
    var t := Replay(ws, calls);
    assert t.decisions == [v.allowed] + rest.decisions;
    if i == 0 {
      assert v.allowed;
    } else {
      assert calls[1..][i - 1] == calls[i];
      ReplayPassesUnlimited(v.windows, calls[1..], i - 1);
      assert t.decisions[i] == rest.decisions[i - 1];
    }
  }

  /** Limited requests for one key at the given times. */
  function AdmitAll(ws: map<string, Window>, key: string, times: seq<int>): (t: Trace)
    ensures |t.decisions| == |times|
    decreases |times|
  {
    if times == [] then Trace([], ws)
    else
      var v := Admit(ws, key, times[0]);
      var rest := AdmitAll(v.windows, key, times[1..]);
      Trace([v.allowed] + rest.decisions, rest.windows)
  }

  /** Within one window that has already admitted `c` requests, the i-th
      further request is admitted exactly when c + i is under the limit, and
      the window keeps its start. */
  lemma {:induction false} BurstInWindow(ws: map<string, Window>, key: string, c: int, t0: int, times: seq<int>)
    requires key in ws && ws[key] == Window(c, t0) && 0 <= c <= MAX_ATTEMPTS
    requires forall i | 0 <= i < |times| :: times[i] - t0 <= WINDOW_MS
    ensures forall i | 0 <= i < |times| :: AdmitAll(ws, key, times).decisions[i] == (c + i < MAX_ATTEMPTS)
    ensures var t := AdmitAll(ws, key, times);
      key in t.windows && t.windows[key] == Window(if c + |times| < MAX_ATTEMPTS then c + |times| else MAX_ATTEMPTS, t0)
    decreases |times|
  {
    if times != [] {
      var v := Admit(ws, key, times[0]);
      var c' := if c < MAX_ATTEMPTS then c + 1 else c;
      assert v.windows[key] == Window(c', t0);
      BurstInWindow(v.windows, key, c', t0, times[1..]);
      var rest := AdmitAll(v.windows, key, times[1..]);
      assert AdmitAll(ws, key, times).decisions == [v.allowed] + rest.decisions;
      forall i | 1 <= i < |times|
        ensures AdmitAll(ws, key, times).decisions[i] == (c + i < MAX_ATTEMPTS)
      {
        assert AdmitAll(ws, key, times).decisions[i] == rest.decisions[i - 1];
        assert times[1..][i - 1] == times[i];
      }
    }
  }

  /** Starting from a key that has no live window, requests that all fall
      within WINDOW_MS of the first are admitted exactly for the first
      MAX_ATTEMPTS of them. */
  lemma FirstFiveAdmitted(ws: map<string, Window>, key: string, times: seq<int>)
    requires |times| > 0
    requires key !in ws || Expired(ws[key], times[0])
    requires forall i | 0 <= i < |times| :: times[i] - times[0] <= WINDOW_MS
    ensures forall i | 0 <= i < |times| :: AdmitAll(ws, key, times).decisions[i] == (i < MAX_ATTEMPTS)
  {
    var v := Admit(ws, key, times[0]);
    assert v.windows[key] == Window(1, times[0]);
    BurstInWindow(v.windows, key, 1, times[0], times[1..]);
    var rest := AdmitAll(v.windows, key, times[1..]);
    forall i | 1 <= i < |times|
      ensures AdmitAll(ws, key, times).decisions[i] == (i < MAX_ATTEMPTS)
    {
      assert AdmitAll(ws, key, times).decisions[i] == rest.decisions[i - 1];
    }
  }

  /** Five attempts at once are admitted and the sixth denied; at exactly
      WINDOW_MS later the window is still closed, one millisecond after that
      it has reopened. */
  lemma LimitScenario(ws: map<string, Window>, key: string, t0: int)
    requires key !in ws
    ensures var t := AdmitAll(ws, key, [t0, t0, t0, t0, t0, t0]);
      && t.decisions == [true, true, true, true, true, false]
      && !Admit(t.windows, key, t0 + WINDOW_MS).allowed
      && Admit(t.windows, key, t0 + WINDOW_MS + 1).allowed
  {
    var times := [t0, t0, t0, t0, t0, t0];
    FirstFiveAdmitted(ws, key, times);
    var v := Admit(ws, key, t0);
    BurstInWindow(v.windows, key, 1, t0, times[1..]);
    var t := AdmitAll(ws, key, times);
    assert t.windows == AdmitAll(v.windows, key, times[1..]).windows;
    assert t.windows[key] == Window(MAX_ATTEMPTS, t0);
  }

  // ----------------------------------------------------------------------
  // The mutable objects
  // ----------------------------------------------------------------------

  /** One client's window: a counter and the time the window started. */
  class AttemptTracker {
    var count: int
    var firstAttemptTime: int

    /** A tracker is created with no attempts, its window starting now. */
    constructor (now: int)
      ensures count == 0 && firstAttemptTime == now
    {
      count := 0;
      firstAttemptTime := now;
    }

    /** The window is older than WINDOW_MS. */
    predicate IsExpired(now: int)
      reads this
      ensures IsExpired(now) <==> Expired(Window(count, firstAttemptTime), now)
    {
      Expired(Window(count, firstAttemptTime), now)
    }

    /** Empties the window and restarts it now. */
    method Reset(now: int)
      modifies this
      ensures count == 0 && firstAttemptTime == now
    {
      count := 0;
      firstAttemptTime := now;
    }

    /** The part of `preHandle` that works on the tracker: reset it when
        expired, then deny if full, else count the request and admit it.
        Acts on this window exactly as `AdmitWindow` does on its value. */
    method Check(now: int) returns (allowed: bool)
      modifies this
      ensures Outcome(allowed, Window(count, firstAttemptTime)) == AdmitWindow(old(Window(count, firstAttemptTime)), now)
    {
      if IsExpired(now) {
        Reset(now);
      }
      if count >= MAX_ATTEMPTS {
        allowed := false;
      } else {
        count := count + 1;
        allowed := true;
      }
    }
  }

  /** The interceptor: one tracker per key, created on first use. */
  class RateLimitInterceptor {
    var attempts: map<string, AttemptTracker>

    /** No tracker serves two keys. */
    ghost predicate Distinct()
      reads this
    {
      forall k, k' | k in attempts && k' in attempts && k != k' :: attempts[k] != attempts[k']
    }

    /** Trackers are distinct and every count is within the limit. */
    ghost predicate Valid()
      reads this, attempts.Values
    {
      Distinct() && Bounded(Windows())
    }

    /** The trackers' current values. */
    ghost function Windows(): (ws: map<string, Window>)
      reads this, attempts.Values
      ensures ws.Keys == attempts.Keys
    {
      map k | k in attempts :: Window(attempts[k].count, attempts[k].firstAttemptTime)
    }

    constructor ()
      ensures Valid() && attempts == map[]
    {
      attempts := map[];
    }

    /** `attempts.computeIfAbsent(key, ...)`: the tracker for `key`, created
        with an empty window starting now when there is none. */
    method TrackerFor(key: string, now: int) returns (tracker: AttemptTracker)
      requires Valid()
      modifies this
      ensures Valid()
      ensures key in attempts && tracker == attempts[key]
      ensures forall k | k in attempts && k != key :: k in old(attempts) && attempts[k] == old(attempts[k])
      ensures key in old(attempts) ==> attempts == old(attempts)
      ensures key !in old(attempts) ==> fresh(tracker) && tracker.count == 0 && tracker.firstAttemptTime == now
      ensures Windows() == old(Windows())[key := Window(tracker.count, tracker.firstAttemptTime)]
    {
      if key in attempts {
        tracker := attempts[key];
      } else {
        ghost var before := Windows();
        tracker := new AttemptTracker(now);
        attempts := attempts[key := tracker];
        assert forall k | k in before :: before[k] == Windows()[k];
      }
    }

    /** Runs the check on the tracker stored under `key`; only that tracker
        changes. */
    method CheckTracker(key: string, tracker: AttemptTracker, now: int) returns (allowed: bool)
      requires Valid() && key in attempts && attempts[key] == tracker
      modifies tracker
      ensures Valid()
      ensures var o := AdmitWindow(old(Windows())[key], now);
        allowed == o.allowed && Windows() == old(Windows())[key := o.window]
    {
      ghost var w0 := Windows();
      assert forall k | k in attempts && k != key :: attempts[k] != tracker;
      allowed := tracker.Check(now);
      assert Windows() == w0[key := Window(tracker.count, tracker.firstAttemptTime)];
    }

    /** The limit check for one key: fetch or create its tracker, then check
        it. */
    method AdmitKey(key: string, now: int) returns (allowed: bool)
      requires Valid()
      modifies this, attempts.Values
      ensures Valid()
      ensures Verdict(allowed, Windows()) == Admit(old(Windows()), key, now)
      ensures forall k | k in old(attempts) :: k in attempts && attempts[k] == old(attempts[k])
      ensures fresh(attempts.Values - old(attempts.Values))
    {
      ghost var before := Windows();
      var tracker := TrackerFor(key, now);
      ghost var w0 := Windows();
      allowed := CheckTracker(key, tracker, now);
      assert w0[key] == if key in before then before[key] else Window(0, now);
      ghost var o := AdmitWindow(w0[key], now);
      assert w0[key := o.window] == before[key := o.window];
      assert Admit(before, key, now) == Verdict(o.allowed, before[key := o.window]);
    }

    /** Admits or denies one request; trackers once created are never
        replaced, and the bound on every count is kept. */
    method PreHandle(request: Request, now: int) returns (allowed: bool)
      requires Valid()
      modifies this, attempts.Values
      ensures Valid()
      ensures Verdict(allowed, Windows()) == Admission(old(Windows()), request, now)
      ensures forall k | k in old(attempts) :: k in attempts && attempts[k] == old(attempts[k])
      ensures fresh(attempts.Values - old(attempts.Values))
    {
      if !IsLimited(request.uri) {
        return true;
      }
      var key := RateKey(ClientIp(request), request.uri);
      allowed := AdmitKey(key, now);
    }
  }

  /** Six logins from one address at the same instant: five pass, the sixth
      is turned away, and a minute and a millisecond later the address gets
      in again. */
  method RateLimitDemo()
  {
    var limiter := new RateLimitInterceptor();
    var a := Request(LOGIN_URI, None, "10.0.0.1");
    var key := RateKey("10.0.0.1", LOGIN_URI);
    var ok := limiter.PreHandle(a, 1000);
    assert ok && limiter.Windows()[key] == Window(1, 1000);
    ok := limiter.PreHandle(a, 1000);
    assert ok && limiter.Windows()[key] == Window(2, 1000);
    ok := limiter.PreHandle(a, 1000);
    assert ok && limiter.Windows()[key] == Window(3, 1000);
    ok := limiter.PreHandle(a, 1000);
    assert ok && limiter.Windows()[key] == Window(4, 1000);
    ok := limiter.PreHandle(a, 1000);
    assert ok && limiter.Windows()[key] == Window(5, 1000);
    ok := limiter.PreHandle(a, 1000);
    assert !ok && limiter.Windows()[key] == Window(5, 1000);
    ok := limiter.PreHandle(a, 1000 + WINDOW_MS);
    assert !ok && limiter.Windows()[key] == Window(5, 1000);
    ok := limiter.PreHandle(a, 1000 + WINDOW_MS + 1);
    assert ok;
  }
}
