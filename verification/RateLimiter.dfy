/** Per-address request limiting over a window that restarts when it is more than a second old. */
module RateLimiter {
  /** Clock readings are in nanoseconds; they are taken under the write lock, so they never decrease. */
  const SECOND: int := 1_000_000_000

  datatype Window = Window(start: int, timestamps: seq<int>)

  type Windows = map<string, Window>

  datatype Request = Request(ip: string, now: int)

  /** The timestamps less than a second old at `now`. */
  function Retain(ts: seq<int>, now: int): seq<int> {
    if ts == [] then []
    else
      var rest, last := Retain(ts[..|ts| - 1], now), ts[|ts| - 1];
      if now - last < SECOND then rest + [last] else rest
  }

  function Opened(s: Windows, r: Request): Window {
    if r.ip in s then s[r.ip] else Window(r.now, [])
  }

  predicate Expired(w: Window, now: int) {
    now - w.start > SECOND
  }

  function Refreshed(w: Window, now: int): Window {
    if Expired(w, now) then Window(now, []) else Window(w.start, Retain(w.timestamps, now))
  }

  predicate Allows(limit: nat, s: Windows, r: Request) {
    |Refreshed(Opened(s, r), r.now).timestamps| < limit
  }

  function Apply(limit: nat, s: Windows, r: Request): Windows {
    var w := Refreshed(Opened(s, r), r.now);
    s[r.ip := if Allows(limit, s, r) then w.(timestamps := w.timestamps + [r.now]) else w]
  }

  function Exec(limit: nat, run: seq<Request>): Windows {
    if run == [] then map[] else Apply(limit, Exec(limit, run[..|run| - 1]), run[|run| - 1])
  }

  function Count(s: Windows, ip: string, now: int): nat {
    if ip in s then |Retain(s[ip].timestamps, now)| else 0
  }

  predicate Ordered(run: seq<Request>) {
    forall i, j :: 0 <= i < j < |run| ==> run[i].now <= run[j].now
  }

  /** How many requests of `ip` with a clock reading in [lo, hi) were allowed. */
  function AllowedIn(limit: nat, run: seq<Request>, ip: string, lo: int, hi: int): nat {
    if run == [] then 0
    else
      var front, r := run[..|run| - 1], run[|run| - 1];
      AllowedIn(limit, front, ip, lo, hi) +
      if r.ip == ip && lo <= r.now < hi && Allows(limit, Exec(limit, front), r) then 1 else 0
  }

  /** The requests allowed in the second that ends with clock reading `now`. */
  function Recent(limit: nat, run: seq<Request>, ip: string, now: int): nat {
    AllowedIn(limit, run, ip, now - SECOND + 1, now + 1)
  }

  // ---------------------------------------------------------------- windows against the history

  function Since(ts: seq<int>, t: int): nat {
    if ts == [] then 0 else Since(ts[..|ts| - 1], t) + if ts[|ts| - 1] >= t then 1 else 0
  }

  lemma SinceSnoc(ts: seq<int>, x: int, t: int)
    ensures Since(ts + [x], t) == Since(ts, t) + if x >= t then 1 else 0
  {
    assert (ts + [x])[..|ts|] == ts;
  }

  lemma {:induction false} SinceBounds(ts: seq<int>, t: int)
    ensures Since(ts, t) <= |ts|
    ensures (forall x <- ts :: x < t) ==> Since(ts, t) == 0
    ensures (forall x <- ts :: x >= t) ==> Since(ts, t) == |ts|
  {
    if ts != [] {
      var front := ts[..|ts| - 1];
      SinceBounds(front, t);
      assert forall x <- front :: x in ts;
      assert ts[|ts| - 1] in ts;
    }
  }

  lemma {:induction false} RetainKeeps(ts: seq<int>, now: int, t: int)
    ensures forall x <- Retain(ts, now) :: x in ts && now - x < SECOND
    ensures |Retain(ts, now)| <= |ts|
    ensures now - SECOND < t ==> Since(Retain(ts, now), t) == Since(ts, t)
    ensures |Retain(ts, now)| == Since(ts, now - SECOND + 1)
  {
    if ts != [] {
      var front, last := ts[..|ts| - 1], ts[|ts| - 1];
      RetainKeeps(front, now, t);
      assert forall x <- front :: x in ts;
      SinceSnoc(Retain(front, now), last, t);
    }
  }

  ghost predicate WindowOk(limit: nat, w: Window, last: int) {
    && |w.timestamps| <= limit && w.start <= last
    && forall x <- w.timestamps :: w.start <= x <= w.start + SECOND && x <= last
  }

  lemma RefreshedOk(limit: nat, w: Window, last: int, now: int)
    requires WindowOk(limit, w, last) && last <= now
    ensures WindowOk(limit, Refreshed(w, now), now)
  {
    RetainKeeps(w.timestamps, now, 0);
  }

  lemma {:induction false} WindowsOk(limit: nat, run: seq<Request>, ip: string)
    requires Ordered(run)
    ensures ip in Exec(limit, run) ==> run != [] && WindowOk(limit, Exec(limit, run)[ip], run[|run| - 1].now)
  {
    if run != [] {
      var front, r := run[..|run| - 1], run[|run| - 1];
      WindowsOk(limit, front, ip);
      if ip == r.ip {
        var w := Opened(Exec(limit, front), r);
        RefreshedOk(limit, w, if ip in Exec(limit, front) then front[|front| - 1].now else r.now, r.now);
      }
    }
  }

  /** What the window of one address says about its allowed requests from `t` on, all within a second. */
  ghost predicate Explains(limit: nat, s: Windows, ip: string, t: int, allowed: nat) {
    if ip !in s then allowed == 0
    else
      var since := Since(s[ip].timestamps, t);
      && since <= allowed <= limit + since
      && (s[ip].start <= t ==> allowed == since)
  }

  /** One request of the same address, against a window already explained. */
  lemma ExplainsStep(limit: nat, s: Windows, r: Request, last: int, t: int, allowed: nat)
    requires Explains(limit, s, r.ip, t, allowed) && last <= r.now < t + SECOND
    requires r.ip in s ==> WindowOk(limit, s[r.ip], last)
    ensures Explains(limit, Apply(limit, s, r), r.ip, t,
                     allowed + if t <= r.now && Allows(limit, s, r) then 1 else 0)
  {
    var w := Opened(s, r);
    var v := Refreshed(w, r.now);
    SinceBounds(w.timestamps, t);
    SinceBounds([], t);
    SinceSnoc(v.timestamps, r.now, t);
    RetainKeeps(w.timestamps, r.now, t);
    if Expired(w, r.now) {
      assert r.ip in s && w.start < t;
      if t >= r.now {
        assert Since(w.timestamps, t) == 0;
      }
    }
  }

  lemma {:induction false} RunExplained(limit: nat, run: seq<Request>, ip: string, t: int)
    requires Ordered(run) && (run != [] ==> run[|run| - 1].now < t + SECOND)
    ensures Explains(limit, Exec(limit, run), ip, t, AllowedIn(limit, run, ip, t, t + SECOND))
  {
    if run != [] {
      var front, r := run[..|run| - 1], run[|run| - 1];
      RunExplained(limit, front, ip, t);
      if r.ip == ip {
        WindowsOk(limit, front, ip);
        var s := Exec(limit, front);
        ExplainsStep(limit, s, r, if ip in s then front[|front| - 1].now else r.now, t,
                     AllowedIn(limit, front, ip, t, t + SECOND));
      }
    }
  }

  // ---------------------------------------------------------------- main results

  /** No second ever sees more than twice the limit. */
  lemma {:induction false} AtMostTwiceTheLimit(limit: nat, run: seq<Request>, ip: string, t: int)
    requires Ordered(run)
    ensures AllowedIn(limit, run, ip, t, t + 1_000_000_000) <= 2 * limit
  {
    if run != [] && run[|run| - 1].now >= t + SECOND {
      AtMostTwiceTheLimit(limit, run[..|run| - 1], ip, t);
    } else {
      RunExplained(limit, run, ip, t);
      WindowsOk(limit, run, ip);
      if ip in Exec(limit, run) {
        SinceBounds(Exec(limit, run)[ip].timestamps, t);
      }
    }
  }

  /** Within one window, from its restart to the next one, no second sees more than the limit. */
  lemma {:induction false} AtMostLimitPerWindow(limit: nat, run: seq<Request>, ip: string, t: int)
    requires Ordered(run) && ip in Exec(limit, run) && Exec(limit, run)[ip].start <= t
    ensures AllowedIn(limit, run, ip, t, t + SECOND) <= limit
  {
    if run[|run| - 1].now >= t + SECOND {
      AtMostLimitPerWindow(limit, run[..|run| - 1], ip, t);
    } else {
      RunExplained(limit, run, ip, t);
      WindowsOk(limit, run, ip);
      SinceBounds(Exec(limit, run)[ip].timestamps, t);
    }
  }

  /** `get_count` never exceeds the true count of the last second, and is exact unless the window restarted in it. */
  lemma CountIsRecent(limit: nat, run: seq<Request>, ip: string, now: int)
    requires Ordered(run) && (run != [] ==> run[|run| - 1].now <= now)
    ensures var n, s := Count(Exec(limit, run), ip, now), Exec(limit, run);
      && n <= Recent(limit, run, ip, now) <= n + limit && n <= limit
      && (ip !in s || now - s[ip].start >= SECOND - 1 ==> Recent(limit, run, ip, now) == n)
  {
    RunExplained(limit, run, ip, now - SECOND + 1);
    WindowsOk(limit, run, ip);
    if ip in Exec(limit, run) {
      RetainKeeps(Exec(limit, run)[ip].timestamps, now, 0);
    }
  }

  /** A request is refused only when the limit was already used up less than a second earlier. */
  lemma DeniedOnlyWhenUsedUp(limit: nat, run: seq<Request>, r: Request)
    requires Ordered(run + [r]) && !Allows(limit, Exec(limit, run), r)
    ensures Recent(limit, run, r.ip, r.now) >= limit
  {
    OrderedPrefix(run, r);
    CountIsRecent(limit, run, r.ip, r.now);
  }

  lemma OrderedPrefix(run: seq<Request>, r: Request)
    requires Ordered(run + [r])
    ensures Ordered(run) && (run != [] ==> run[|run| - 1].now <= r.now)
  {
    assert forall i :: 0 <= i < |run| ==> (run + [r])[i] == run[i];
    if run != [] {
      assert (run + [r])[|run| - 1].now <= (run + [r])[|run|].now;
    }
  }

  /** A request that restarts its window is allowed, and by itself overruns the limit of the last second
      exactly when the window it ends was full. */
  lemma RestartingRequest(limit: nat, run: seq<Request>, r: Request)
    requires Ordered(run + [r]) && limit > 0
    requires r.ip in Exec(limit, run) && Expired(Exec(limit, run)[r.ip], r.now)
    ensures Allows(limit, Exec(limit, run), r)
    ensures Recent(limit, run + [r], r.ip, r.now) <= limit <==> Count(Exec(limit, run), r.ip, r.now) < limit
  {
    OrderedPrefix(run, r);
    CountIsRecent(limit, run, r.ip, r.now);
    assert (run + [r])[..|run|] == run;
  }

  // ---------------------------------------------------------------- the bound is reached

  function Repeat(r: Request, n: nat): seq<Request> {
    seq(n, i => r)
  }

  /** One request, a full burst a second later, and another full burst just after it. */
  function TwoBursts(limit: nat, ip: string): seq<Request> {
    [Request(ip, 0)] + Repeat(Request(ip, 1_000_000_000), limit) + Repeat(Request(ip, 1_000_000_001), limit)
  }

  lemma Snoc(limit: nat, run: seq<Request>, r: Request, lo: int, hi: int)
    ensures Exec(limit, run + [r]) == Apply(limit, Exec(limit, run), r)
    ensures AllowedIn(limit, run + [r], r.ip, lo, hi) == AllowedIn(limit, run, r.ip, lo, hi) +
              if lo <= r.now < hi && Allows(limit, Exec(limit, run), r) then 1 else 0
  {
    assert (run + [r])[..|run|] == run;
  }

  /** A request that finds `k` others of the same instant in its window, and room, joins them. */
  lemma Joins(limit: nat, s: Windows, r: Request, start: int, k: nat)
    requires k < limit && Refreshed(Opened(s, r), r.now) == Window(start, Repeated(r.now, k))
    ensures Allows(limit, s, r)
    ensures Refreshed(Opened(Apply(limit, s, r), r), r.now) == Window(start, Repeated(r.now, k + 1))
    ensures r.ip in Apply(limit, s, r) && Apply(limit, s, r)[r.ip] == Window(start, Repeated(r.now, k + 1))
  {
    assert Repeated(r.now, k) + [r.now] == Repeated(r.now, k + 1);
    RetainAll(Repeated(r.now, k + 1), r.now);
  }

  /** `n` requests at one instant on a window that has room for them are all allowed. */
  lemma {:induction false} BurstAllowed(limit: nat, run: seq<Request>, r: Request, n: nat, start: int, t: int)
    requires n <= limit && t <= r.now < t + SECOND
    requires Refreshed(Opened(Exec(limit, run), r), r.now) == Window(start, [])
    ensures var after := run + Repeat(r, n);
      && AllowedIn(limit, after, r.ip, t, t + SECOND) == AllowedIn(limit, run, r.ip, t, t + SECOND) + n
      && Refreshed(Opened(Exec(limit, after), r), r.now) == Window(start, Repeated(r.now, n))
      && (n > 0 ==> r.ip in Exec(limit, after) && Exec(limit, after)[r.ip] == Window(start, Repeated(r.now, n)))
  {
    hide *;
    if n == 0 {
      assert Repeat(r, 0) == [] by { RepeatSnoc(r, 0); }
      assert run + Repeat(r, 0) == run;
      assert Repeated(r.now, 0) == [] by { RepeatSnoc(r, 0); }
    } else {
      var before := run + Repeat(r, n - 1);
      BurstAllowed(limit, run, r, n - 1, start, t);
      RepeatSnoc(r, n - 1);
      assert run + Repeat(r, n) == before + [r];
      Snoc(limit, before, r, t, t + SECOND);
      Joins(limit, Exec(limit, before), r, start, n - 1);
    }
  }

  lemma RepeatSnoc(r: Request, n: nat)
    ensures Repeat(r, n + 1) == Repeat(r, n) + [r]
    ensures Repeat(r, 0) == [] && Repeated(r.now, 0) == []
  {
  }

  function Repeated(x: int, n: nat): seq<int> {
    seq(n, i => x)
  }

  lemma {:induction false} RetainAll(ts: seq<int>, now: int)
    requires forall x <- ts :: x == now
    ensures Retain(ts, now) == ts
  {
    if ts != [] {
      var front := ts[..|ts| - 1];
      assert forall x <- front :: x in ts;
      assert ts[|ts| - 1] in ts;
      RetainAll(front, now);
      assert ts == front + [ts[|ts| - 1]];
    }
  }

  lemma {:induction false} RetainNone(ts: seq<int>, now: int)
    requires forall x <- ts :: now - x >= SECOND
    ensures Retain(ts, now) == []
  {
    if ts != [] {
      var front := ts[..|ts| - 1];
      assert forall x <- front :: x in ts;
      assert ts[|ts| - 1] in ts;
      RetainNone(front, now);
    }
  }

  lemma FirstRequest(limit: nat, ip: string)
    requires limit > 0
    ensures var run := [Request(ip, 0)];
      && AllowedIn(limit, run, ip, SECOND, 2 * SECOND) == 0
      && Refreshed(Opened(Exec(limit, run), Request(ip, SECOND)), SECOND) == Window(0, [])
  {
    var first := Request(ip, 0);
    Snoc(limit, [], first, SECOND, 2 * SECOND);
    assert [] + [first] == [first];
    RetainNone([], 0);
    assert Exec(limit, [first])[ip] == Window(0, [0]);
    RetainNone([0], SECOND);
  }

  lemma TwoBurstsOrdered(limit: nat, ip: string)
    ensures Ordered(TwoBursts(limit, ip))
  {
  }

  /** For every limit above zero some second sees twice the limit, so the limit per second is not enforced. */
  lemma TwiceTheLimitHappens(limit: nat, ip: string)
    requires limit > 0
    ensures Ordered(TwoBursts(limit, ip))
    ensures AllowedIn(limit, TwoBursts(limit, ip), ip, 1_000_000_000, 2_000_000_000) == 2 * limit
  {
    hide Exec, AllowedIn, Retain, Apply, Allows, Ordered, Repeat, Repeated;
    TwoBurstsOrdered(limit, ip);
    FirstRequest(limit, ip);
    var first, r, r' := Request(ip, 0), Request(ip, SECOND), Request(ip, SECOND + 1);
    BurstAllowed(limit, [first], r, limit, 0, SECOND);
    BurstAllowed(limit, [first] + Repeat(r, limit), r', limit, SECOND + 1, SECOND);
  }

  // ---------------------------------------------------------------- when the documented limit survives a restart

  lemma {:induction false} AllowedSplit(limit: nat, run: seq<Request>, ip: string, lo: int, mid: int, hi: int)
    requires lo <= mid <= hi
    ensures AllowedIn(limit, run, ip, lo, hi) == AllowedIn(limit, run, ip, lo, mid) + AllowedIn(limit, run, ip, mid, hi)
  {
    hide Exec, Allows;
    if run != [] {
      AllowedSplit(limit, run[..|run| - 1], ip, lo, mid, hi);
    }
  }

  /** Requests that come at `hi` or later do not count below `hi`. */
  lemma {:induction false} LaterDoesNotCount(limit: nat, run: seq<Request>, more: seq<Request>, ip: string, lo: int, hi: int)
    requires forall x <- more :: x.now >= hi
    ensures AllowedIn(limit, run + more, ip, lo, hi) == AllowedIn(limit, run, ip, lo, hi)
  {
    hide Exec, Allows;
    if more == [] {
      assert run + more == run;
    } else {
      var front := more[..|more| - 1];
      assert more[|more| - 1] in more && forall x <- front :: x in more;
      LaterDoesNotCount(limit, run, front, ip, lo, hi);
      assert (run + more)[..|run + more| - 1] == run + front;
    }
  }

  lemma {:induction false} NoneAhead(limit: nat, run: seq<Request>, ip: string, lo: int, hi: int)
    requires forall x <- run :: x.now < lo
    ensures AllowedIn(limit, run, ip, lo, hi) == 0
  {
    hide Exec, Allows;
    if run != [] {
      assert run[|run| - 1] in run && forall x <- run[..|run| - 1] :: x in run;
      NoneAhead(limit, run[..|run| - 1], ip, lo, hi);
    }
  }

  /** The requests allowed in the last second before the current window was opened. */
  function Forgotten(limit: nat, run: seq<Request>, ip: string, now: int): nat {
    var s, t := Exec(limit, run), now - SECOND + 1;
    if ip in s && s[ip].start > t then AllowedIn(limit, run, ip, t, s[ip].start) else 0
  }

  lemma WholeRetained(limit: nat, w: Window, last: int, now: int)
    requires WindowOk(limit, w, last) && last <= now && w.start > now - SECOND + 1
    ensures Since(w.timestamps, w.start) == |Retain(w.timestamps, now)|
  {
    SinceBounds(w.timestamps, w.start);
    SinceBounds(w.timestamps, now - SECOND + 1);
    RetainKeeps(w.timestamps, now, 0);
  }

  lemma WholeWindow(limit: nat, run: seq<Request>, ip: string, now: int)
    requires Ordered(run) && ip in Exec(limit, run)
    requires (run != [] ==> run[|run| - 1].now <= now) && Exec(limit, run)[ip].start > now - SECOND + 1
    ensures var w := Exec(limit, run)[ip];
      AllowedIn(limit, run, ip, w.start, w.start + SECOND) == Count(Exec(limit, run), ip, now)
  {
    hide Exec, AllowedIn, Ordered, Since, Retain;
    var w := Exec(limit, run)[ip];
    WindowsOk(limit, run, ip);
    RunExplained(limit, run, ip, w.start);
    WholeRetained(limit, w, run[|run| - 1].now, now);
  }

  lemma NoneAfterLast(limit: nat, run: seq<Request>, ip: string, now: int, hi: int)
    requires Ordered(run) && (run != [] ==> run[|run| - 1].now <= now)
    ensures AllowedIn(limit, run, ip, now + 1, hi) == 0
  {
    hide AllowedIn;
    forall x | x in run ensures x.now < now + 1 {
      var i :| 0 <= i < |run| && run[i] == x;
      assert run[i].now <= run[|run| - 1].now;
    }
    NoneAhead(limit, run, ip, now + 1, hi);
  }

  lemma SplitAtStart(limit: nat, run: seq<Request>, ip: string, now: int, start: int)
    requires Ordered(run) && (run != [] ==> run[|run| - 1].now <= now) && now - SECOND + 1 < start <= now
    ensures Recent(limit, run, ip, now) ==
      AllowedIn(limit, run, ip, now - SECOND + 1, start) + AllowedIn(limit, run, ip, start, start + SECOND)
  {
    hide AllowedIn, Ordered;
    var t := now - SECOND + 1;
    NoneAfterLast(limit, run, ip, now, start + SECOND);
    AllowedSplit(limit, run, ip, t, now + 1, start + SECOND);
    AllowedSplit(limit, run, ip, t, start, start + SECOND);
  }

  /** What `get_count` misses of the last second is exactly what the current window's start made it forget. */
  lemma CountMissesForgotten(limit: nat, run: seq<Request>, ip: string, now: int)
    requires Ordered(run) && (run != [] ==> run[|run| - 1].now <= now)
    ensures Recent(limit, run, ip, now) == Count(Exec(limit, run), ip, now) + Forgotten(limit, run, ip, now)
  {
    hide Exec, AllowedIn, Ordered, Count, Recent;
    var s := Exec(limit, run);
    WindowsOk(limit, run, ip);
    if ip in s && s[ip].start > now - SECOND + 1 {
      WholeWindow(limit, run, ip, now);
      SplitAtStart(limit, run, ip, now, s[ip].start);
    } else {
      CountIsRecent(limit, run, ip, now);
    }
  }

  /** `more` follows request `r` on the clock, and the window that `r` opened is still the current one. */
  predicate Continues(limit: nat, run: seq<Request>, r: Request, more: seq<Request>) {
    && Ordered(run + [r] + more)
    && r.ip in Exec(limit, run + [r] + more) && Exec(limit, run + [r] + more)[r.ip].start == r.now
  }

  predicate SecondWithin(limit: nat, run: seq<Request>, r: Request, more: seq<Request>, t: int) {
    AllowedIn(limit, run + [r] + more, r.ip, t, t + SECOND) <= limit
  }

  /** However the window goes on, no second that reaches into it sees more than the limit. */
  ghost predicate LimitHolds(limit: nat, run: seq<Request>, r: Request) {
    forall more, t :: Continues(limit, run, r, more) && t + SECOND > r.now ==>
      SecondWithin(limit, run, r, more, t)
  }

  lemma NothingForgottenKeepsLimit(limit: nat, run: seq<Request>, r: Request, more: seq<Request>, t: int)
    requires Continues(limit, run, r, more) && t + SECOND > r.now
    requires Recent(limit, run, r.ip, r.now) == 0
    ensures SecondWithin(limit, run, r, more, t)
  {
    var all := run + [r] + more;
    if t >= r.now {
      AtMostLimitPerWindow(limit, all, r.ip, t);
    } else {
      hide Exec, AllowedIn, Allows;
      forall x | x in [r] + more ensures x.now >= r.now {
        var i :| 0 <= i < |[r] + more| && ([r] + more)[i] == x;
        assert all[|run|] == r && all[|run| + i] == x;
      }
      assert all == run + ([r] + more);
      LaterDoesNotCount(limit, run, [r] + more, r.ip, t, r.now);
      AllowedSplit(limit, run, r.ip, r.now - SECOND + 1, t, r.now + 1);
      AllowedSplit(limit, run, r.ip, t, r.now, r.now + 1);
      AllowedSplit(limit, all, r.ip, t, r.now, t + SECOND);
      AllowedSplit(limit, all, r.ip, r.now, t + SECOND, r.now + SECOND);
      AtMostLimitPerWindow(limit, all, r.ip, r.now);
    }
  }

  lemma OrderedBurst(run: seq<Request>, r: Request, n: nat)
    requires Ordered(run + [r])
    ensures Ordered(run + [r] + Repeat(r, n))
  {
    var all := run + [r] + Repeat(r, n);
    forall i, j | 0 <= i < j < |all| ensures all[i].now <= all[j].now {
      assert all[i] == (run + [r])[if i <= |run| then i else |run|];
      assert all[j] == (run + [r])[if j <= |run| then j else |run|];
    }
  }

  lemma BurstAsOne(run: seq<Request>, r: Request, n: nat)
    requires n > 0
    ensures run + [r] + Repeat(r, n - 1) == run + Repeat(r, n)
  {
    assert [r] + Repeat(r, n - 1) == Repeat(r, n);
  }

  lemma RestartOpens(limit: nat, run: seq<Request>, r: Request)
    requires r.ip in Exec(limit, run) && Expired(Exec(limit, run)[r.ip], r.now)
    ensures Refreshed(Opened(Exec(limit, run), r), r.now) == Window(r.now, [])
  {
    hide Exec;
  }

  /** A burst at the restart brings the last second to what it remembered plus the limit. */
  lemma BurstAtRestart(limit: nat, run: seq<Request>, r: Request)
    requires Ordered(run + [r]) && limit > 0
    requires r.ip in Exec(limit, run) && Expired(Exec(limit, run)[r.ip], r.now)
    ensures Continues(limit, run, r, Repeat(r, limit - 1))
    ensures Recent(limit, run + [r] + Repeat(r, limit - 1), r.ip, r.now) == Recent(limit, run, r.ip, r.now) + limit
  {
    hide Exec, AllowedIn, Allows, Opened, Refreshed, Expired, Repeat, Repeated, Ordered;
    RestartOpens(limit, run, r);
    OrderedBurst(run, r, limit - 1);
    BurstAsOne(run, r, limit);
    BurstAllowed(limit, run, r, limit, r.now, r.now - SECOND + 1);
  }

  lemma BurstOverruns(limit: nat, run: seq<Request>, r: Request)
    requires Ordered(run + [r]) && limit > 0
    requires r.ip in Exec(limit, run) && Expired(Exec(limit, run)[r.ip], r.now)
    ensures SecondWithin(limit, run, r, Repeat(r, limit - 1), r.now - SECOND + 1) <==> Recent(limit, run, r.ip, r.now) == 0
  {
    hide Exec, AllowedIn, Expired, Ordered, Continues, Repeat;
    BurstAtRestart(limit, run, r);
  }

  /** At a restart the limit survives every continuation of the new window exactly when `get_count` is zero. */
  lemma RestartKeepsLimitExactly(limit: nat, run: seq<Request>, r: Request)
    requires Ordered(run + [r])
    requires r.ip in Exec(limit, run) && Expired(Exec(limit, run)[r.ip], r.now)
    ensures LimitHolds(limit, run, r) <==> Count(Exec(limit, run), r.ip, r.now) == 0
  {
    assert r.now - Exec(limit, run)[r.ip].start >= SECOND - 1;
    hide *;
    OrderedPrefix(run, r);
    CountIsRecent(limit, run, r.ip, r.now);
    if Count(Exec(limit, run), r.ip, r.now) == 0 {
      NothingForgottenHolds(limit, run, r);
    } else {
      BurstAtRestart(limit, run, r);
      BurstOverruns(limit, run, r);
      var burst, t := Repeat(r, limit - 1), r.now - SECOND + 1;
      if LimitHolds(limit, run, r) {
        HoldsAt(limit, run, r, burst, t);
      }
    }
  }

  lemma NothingForgottenHolds(limit: nat, run: seq<Request>, r: Request)
    requires Recent(limit, run, r.ip, r.now) == 0
    ensures LimitHolds(limit, run, r)
  {
    hide Continues, SecondWithin, Recent;
    forall more, t | Continues(limit, run, r, more) && t + SECOND > r.now
      ensures SecondWithin(limit, run, r, more, t)
    {
      NothingForgottenKeepsLimit(limit, run, r, more, t);
    }
  }

  lemma HoldsAt(limit: nat, run: seq<Request>, r: Request, more: seq<Request>, t: int)
    requires LimitHolds(limit, run, r) && Continues(limit, run, r, more) && t + SECOND > r.now
    ensures SecondWithin(limit, run, r, more, t)
  {
    hide Continues, SecondWithin;
  }

  /** Every window of `ip` was restarted at a time when `get_count` was zero. */
  predicate QuietRestarts(limit: nat, run: seq<Request>, ip: string) {
    run != [] ==>
      var front, r := run[..|run| - 1], run[|run| - 1];
      var s := Exec(limit, front);
      && QuietRestarts(limit, front, ip)
      && (r.ip == ip && ip in s && Expired(s[ip], r.now) ==> Count(s, ip, r.now) == 0)
  }

  /** The window then remembers every allowed request of the last second. */
  lemma {:induction false} QuietWindowsRemember(limit: nat, run: seq<Request>, ip: string, t: int)
    requires Ordered(run) && QuietRestarts(limit, run, ip) && (run != [] ==> run[|run| - 1].now < t + SECOND)
    ensures AllowedIn(limit, run, ip, t, t + SECOND) ==
            if ip in Exec(limit, run) then Since(Exec(limit, run)[ip].timestamps, t) else 0
  {
    if run != [] {
      var front, r := run[..|run| - 1], run[|run| - 1];
      QuietWindowsRemember(limit, front, ip, t);
      if r.ip == ip {
        WindowsOk(limit, front, ip);
        var s := Exec(limit, front);
        RemembersStep(limit, s, r, if ip in s then front[|front| - 1].now else r.now, t);
      }
    }
  }

  lemma RemembersStep(limit: nat, s: Windows, r: Request, last: int, t: int)
    requires last <= r.now < t + SECOND
    requires r.ip in s ==> WindowOk(limit, s[r.ip], last) && (Expired(s[r.ip], r.now) ==> Count(s, r.ip, r.now) == 0)
    ensures Since(Apply(limit, s, r)[r.ip].timestamps, t) ==
            (if r.ip in s then Since(s[r.ip].timestamps, t) else 0) + if t <= r.now && Allows(limit, s, r) then 1 else 0
  {
    var w := Opened(s, r);
    var v := Refreshed(w, r.now);
    SinceBounds([], t);
    SinceSnoc(v.timestamps, r.now, t);
    RetainKeeps(w.timestamps, r.now, t);
    if Expired(w, r.now) {
      SinceFewer(w.timestamps, r.now - SECOND + 1, t);
    }
  }

  lemma {:induction false} SinceFewer(ts: seq<int>, t: int, u: int)
    requires t <= u
    ensures Since(ts, u) <= Since(ts, t)
  {
    if ts != [] {
      SinceFewer(ts[..|ts| - 1], t, u);
    }
  }

  /** A run whose restarts were all quiet keeps the documented limit in every second. */
  lemma {:induction false} QuietRestartsKeepTheLimit(limit: nat, run: seq<Request>, ip: string, t: int)
    requires Ordered(run) && QuietRestarts(limit, run, ip)
    ensures AllowedIn(limit, run, ip, t, t + SECOND) <= limit
  {
    if run != [] && run[|run| - 1].now >= t + SECOND {
      QuietRestartsKeepTheLimit(limit, run[..|run| - 1], ip, t);
    } else {
      QuietWindowsRemember(limit, run, ip, t);
      WindowsOk(limit, run, ip);
      if ip in Exec(limit, run) {
        SinceBounds(Exec(limit, run)[ip].timestamps, t);
      }
    }
  }

  // ---------------------------------------------------------------- the object

  /** What one more request means for the counts of its address. */
  lemma AllowFacts(limit: nat, run: seq<Request>, r: Request)
    requires Ordered(run) && (run != [] ==> run[|run| - 1].now <= r.now)
    ensures Ordered(run + [r]) && Exec(limit, run + [r]) == Apply(limit, Exec(limit, run), r)
    ensures var allowed := Allows(limit, Exec(limit, run), r);
      && (!allowed ==> Recent(limit, run, r.ip, r.now) >= limit)
      && Recent(limit, run + [r], r.ip, r.now) == Recent(limit, run, r.ip, r.now) + (if allowed then 1 else 0)
      && Recent(limit, run + [r], r.ip, r.now) <= 2 * limit
  {
    Snoc(limit, run, r, r.now - SECOND + 1, r.now + 1);
    assert Ordered(run + [r]);
    hide Exec, AllowedIn, Apply, Ordered;
    AtMostTwiceTheLimit(limit, run + [r], r.ip, r.now - SECOND + 1);
    if !Allows(limit, Exec(limit, run), r) {
      DeniedOnlyWhenUsedUp(limit, run, r);
    }
  }

  class Limiter {
    const limit: nat
    var windows: Windows
    ghost var run: seq<Request>

    ghost predicate Valid()
      reads this
    {
      Ordered(run) && windows == Exec(limit, run)
    }

    constructor (limit: nat)
      ensures Valid() && run == [] && this.limit == limit
    {
      this.limit := limit;
      windows, run := map[], [];
    }

    method Allow(ip: string, now: int) returns (allowed: bool)
      requires Valid() && (run != [] ==> run[|run| - 1].now <= now)
      modifies this
      ensures Valid() && run == old(run) + [Request(ip, now)]
      ensures !allowed ==> Recent(limit, old(run), ip, now) >= limit
      ensures Recent(limit, run, ip, now) == Recent(limit, old(run), ip, now) + if allowed then 1 else 0
      ensures Recent(limit, run, ip, now) <= 2 * limit
    {
      AllowFacts(limit, run, Request(ip, now));
      run := run + [Request(ip, now)];
      hide Exec, AllowedIn, Ordered, Retain, Recent;
      if ip !in windows {
        windows := windows[ip := Window(now, [])];
      }
      var state := windows[ip];
      if now - state.start > SECOND {
        state := Window(now, []);
      }
      state := state.(timestamps := Retain(state.timestamps, now));
      if |state.timestamps| >= limit {
        windows := windows[ip := state];
        return false;
      }
      windows := windows[ip := state.(timestamps := state.timestamps + [now])];
      return true;
    }

    method GetCount(ip: string, now: int) returns (n: nat)
      requires Valid() && (run != [] ==> run[|run| - 1].now <= now)
      ensures n == Count(windows, ip, now)
      ensures n <= Recent(limit, run, ip, now) <= n + limit && n <= limit
    {
      CountIsRecent(limit, run, ip, now);
      n := if ip in windows then |Retain(windows[ip].timestamps, now)| else 0;
    }
  }
}
