/** The sliding-window rate limiter: one pruned set of timestamps per key, and the chain of
    a per-minute and a per-hour window that every request passes. */
module RateLimiting {
  import opened Commons

  // One window

  /** The entries a check at `now` keeps. The source files each under a dict key spelling
      the time itself, so equal times share one entry. */
  function Prune(log: set<real>, now: real, w: real): set<real> {
    set t | t in log && t > now - w
  }

  predicate Refuses(log: set<real>, now: real, n: int, w: real) {
    |Prune(log, now, w)| >= n
  }

  function AfterCheck(log: set<real>, now: real, n: int, w: real): set<real> {
    if Refuses(log, now, n, w) then Prune(log, now, w) else Prune(log, now, w) + {now}
  }

  /** A window's log together with its history: which requests (by index) it admitted, and
      when it was last asked. */
  datatype Gate = Gate(log: set<real>, admitted: set<nat>, since: Option<real>)

  const CLOSED := Gate({}, {}, None)

  function Ask(g: Gate, i: nat, now: real, n: int, w: real): Gate {
    Gate(AfterCheck(g.log, now, n, w),
         if Refuses(g.log, now, n, w) then g.admitted else g.admitted + {i}, Some(now))
  }

  ghost predicate Increasing(ts: seq<real>) {
    forall i, j | 0 <= i < j < |ts| :: ts[i] < ts[j]
  }

  ghost predicate Steady(ts: seq<real>) {
    forall i, j | 0 <= i < j < |ts| :: ts[i] <= ts[j]
  }

  /** Requests among `ix` made after time `c`. */
  function After(ix: set<nat>, ts: seq<real>, c: real): set<nat> {
    set i | i in ix && i < |ts| && ts[i] > c
  }

  function Times(ix: set<nat>, ts: seq<real>): set<real> {
    set i | i in ix && i < |ts| :: ts[i]
  }

  /** Requests made in [x, x + w) and in (x, x + w]. */
  function ClosedOpen(ix: set<nat>, ts: seq<real>, x: real, w: real): set<nat> {
    set i | i in ix && i < |ts| && x <= ts[i] < x + w
  }

  function OpenClosed(ix: set<nat>, ts: seq<real>, x: real, w: real): set<nat> {
    set i | i in ix && i < |ts| && x < ts[i] <= x + w
  }

  /** No interval of the window's length holds more than n requests. */
  ghost predicate Bounded(ix: set<nat>, ts: seq<real>, n: int, w: real) {
    && (forall x: real :: |ClosedOpen(ix, ts, x, w)| <= Max0(n))
    && (forall x: real :: |OpenClosed(ix, ts, x, w)| <= Max0(n))
  }

  /** No interval of the window's length holds requests at more than n distinct times. */
  ghost predicate InstantsBounded(ix: set<nat>, ts: seq<real>, n: int, w: real) {
    && (forall x: real :: |Times(ClosedOpen(ix, ts, x, w), ts)| <= Max0(n))
    && (forall x: real :: |Times(OpenClosed(ix, ts, x, w), ts)| <= Max0(n))
  }

  /** The log is exactly the admitted history inside the window that the last check saw. */
  ghost predicate Faithful(g: Gate, ts: seq<real>, w: real) {
    && (forall i <- g.admitted :: i < |ts|)
    && match g.since
       case None => g.log == {} && g.admitted == {}
       case Some(s) => ts != [] && s <= ts[|ts| - 1] && g.log == Times(After(g.admitted, ts, s - w), ts)
  }

  /** A window that has stayed within its limit and knows its own history. */
  ghost predicate Holds(g: Gate, ts: seq<real>, n: int, w: real) {
    Faithful(g, ts, w) && InstantsBounded(g.admitted, ts, n, w)
  }

  /** The listed requests were made at distinct times, in order. */
  ghost predicate Apart(ix: set<nat>, ts: seq<real>) {
    (forall i <- ix :: i < |ts|) && forall i, j | i in ix && j in ix && i < j :: ts[i] < ts[j]
  }

  lemma {:induction false} TimesSize(ix: set<nat>, ts: seq<real>)
    requires Apart(ix, ts)
    ensures |Times(ix, ts)| == |ix|
    decreases ix
  {
    if ix != {} {
      var i :| i in ix;
      TimesSize(ix - {i}, ts);
      assert Times(ix, ts) == Times(ix - {i}, ts) + {ts[i]};
    }
  }

  lemma SubsetSize<T>(a: set<T>, b: set<T>)
    requires a <= b
    ensures |a| <= |b|
  {
    if a != b {
      assert b == a + (b - a);
    }
  }

  /** Where no two requests share an instant, instants are requests. */
  lemma InstantsAreRequests(ix: set<nat>, ts: seq<real>, n: int, w: real)
    requires Apart(ix, ts) && InstantsBounded(ix, ts, n, w)
    ensures Bounded(ix, ts, n, w)
  {
    forall x: real ensures |ClosedOpen(ix, ts, x, w)| <= Max0(n) && |OpenClosed(ix, ts, x, w)| <= Max0(n) {
      TimesSize(ClosedOpen(ix, ts, x, w), ts);
      TimesSize(OpenClosed(ix, ts, x, w), ts);
    }
  }

  lemma SteadyFront(ts: seq<real>, now: real)
    requires Steady(ts + [now])
    ensures Steady(ts) && forall i | 0 <= i < |ts| :: ts[i] <= now
  {
    var us := ts + [now];
    forall i, j | 0 <= i < j < |ts| ensures ts[i] <= ts[j] { assert us[i] <= us[j]; }
    forall i | 0 <= i < |ts| ensures ts[i] <= now { assert us[i] <= us[|ts|]; }
  }

  /** What a check counts is the admitted history in its own trailing window: its instants, as
      many as its requests where no two share an instant. */
  lemma CheckCountsWindow(g: Gate, ts: seq<real>, now: real, w: real)
    requires Faithful(g, ts, w) && Steady(ts + [now])
    ensures Prune(g.log, now, w) == Times(After(g.admitted, ts, now - w), ts)
    ensures Apart(g.admitted, ts) ==> |Prune(g.log, now, w)| == |After(g.admitted, ts, now - w)|
  {
    SteadyFront(ts, now);
    if Apart(g.admitted, ts) { TimesSize(After(g.admitted, ts, now - w), ts); }
  }

  lemma TimesOfFront(ix: set<nat>, ts: seq<real>, now: real)
    requires forall i <- ix :: i < |ts|
    ensures Times(ix, ts + [now]) == Times(ix, ts)
  {
    var us := ts + [now];
    assert forall i | 0 <= i < |ts| :: us[i] == ts[i];
    forall t ensures t in Times(ix, us) <==> t in Times(ix, ts) {
      if t in Times(ix, ts) {
        var i :| i in ix && i < |ts| && ts[i] == t;
        assert us[i] == t;
      }
    }
  }

  lemma SkipKeeps(g: Gate, ts: seq<real>, now: real, n: int, w: real)
    requires Holds(g, ts, n, w) && Steady(ts + [now])
    ensures Holds(g, ts + [now], n, w)
  {
    var us := ts + [now];
    forall x: real ensures |Times(ClosedOpen(g.admitted, us, x, w), us)| <= Max0(n) &&
                           |Times(OpenClosed(g.admitted, us, x, w), us)| <= Max0(n) {
      assert ClosedOpen(g.admitted, us, x, w) == ClosedOpen(g.admitted, ts, x, w);
      assert OpenClosed(g.admitted, us, x, w) == OpenClosed(g.admitted, ts, x, w);
      TimesOfFront(ClosedOpen(g.admitted, ts, x, w), ts, now);
      TimesOfFront(OpenClosed(g.admitted, ts, x, w), ts, now);
    }
    SteadyFront(ts, now);
    if g.since.Some? {
      var recent := After(g.admitted, ts, g.since.value - w);
      assert After(g.admitted, us, g.since.value - w) == recent;
      TimesOfFront(recent, ts, now);
    }
  }

  /** Admitting keeps the bound: an interval no longer than the window that contains the
      new request lies inside the window the check counted. */
  lemma AdmitBounded(g: Gate, ts: seq<real>, now: real, n: int, w: real)
    requires Holds(g, ts, n, w) && Steady(ts + [now])
    requires !Refuses(g.log, now, n, w)
    ensures InstantsBounded(g.admitted + {|ts|}, ts + [now], n, w)
  {
    var us, ix := ts + [now], g.admitted + {|ts|};
    CheckCountsWindow(g, ts, now, w);
    forall x: real ensures |Times(ClosedOpen(ix, us, x, w), us)| <= Max0(n) &&
                           |Times(OpenClosed(ix, us, x, w), us)| <= Max0(n) {
      AdmitInterval(g, ts, now, n, w, ClosedOpen(ix, us, x, w), ClosedOpen(g.admitted, ts, x, w));
      AdmitInterval(g, ts, now, n, w, OpenClosed(ix, us, x, w), OpenClosed(g.admitted, ts, x, w));
    }
  }

  /** `a` is an interval of the new history, `b` the same interval of the old one. */
  lemma AdmitInterval(g: Gate, ts: seq<real>, now: real, n: int, w: real, a: set<nat>, b: set<nat>)
    requires Faithful(g, ts, w) && Prune(g.log, now, w) == Times(After(g.admitted, ts, now - w), ts)
    requires |Prune(g.log, now, w)| < n
    requires a <= g.admitted + {|ts|} && b <= g.admitted && |Times(b, ts)| <= Max0(n)
    requires |ts| in a ==> forall i | i in a && i < |ts| :: ts[i] > now - w
    requires |ts| !in a ==> a == b
    ensures |Times(a, ts + [now])| <= Max0(n)
  {
    if |ts| in a {
      var us := ts + [now];
      forall t | t in Times(a, us) ensures t in Prune(g.log, now, w) + {now} {
        var i :| i in a && i < |us| && us[i] == t;
        if i < |ts| { assert i in After(g.admitted, ts, now - w) && ts[i] == t; }
      }
      SubsetSize(Times(a, us), Prune(g.log, now, w) + {now});
    } else {
      TimesOfFront(b, ts, now);
    }
  }

  lemma AskFaithful(g: Gate, ts: seq<real>, now: real, n: int, w: real)
    requires (forall i <- g.admitted :: i < |ts|) && w > 0.0
    requires Prune(g.log, now, w) == Times(After(g.admitted, ts, now - w), ts)
    ensures Faithful(Ask(g, |ts|, now, n, w), ts + [now], w)
  {
    var us, r := ts + [now], Ask(g, |ts|, now, n, w);
    if Refuses(g.log, now, n, w) {
      assert After(r.admitted, us, now - w) == After(g.admitted, ts, now - w);
    } else {
      assert After(r.admitted, us, now - w) == After(g.admitted, ts, now - w) + {|ts|};
    }
    assert r.log == Times(After(r.admitted, us, now - w), us);
  }

  lemma AskKeeps(g: Gate, ts: seq<real>, now: real, n: int, w: real)
    requires Holds(g, ts, n, w) && Steady(ts + [now]) && w > 0.0
    ensures Holds(Ask(g, |ts|, now, n, w), ts + [now], n, w) && Holds(g, ts + [now], n, w)
  {
    SkipKeeps(g, ts, now, n, w);
    CheckCountsWindow(g, ts, now, w);
    AskFaithful(g, ts, now, n, w);
    if !Refuses(g.log, now, n, w) { AdmitBounded(g, ts, now, n, w); }
  }

  lemma MembersTimed(ix: set<nat>, ts: seq<real>)
    ensures forall i | i in ix && i < |ts| :: ts[i] in Times(ix, ts)
  {
  }

  /** A window that admits at most one request does not admit a second at the same time. */
  lemma AskKeepsApart(g: Gate, ts: seq<real>, now: real, n: int, w: real)
    requires Faithful(g, ts, w) && Apart(g.admitted, ts) && Steady(ts + [now]) && w > 0.0 && n <= 1
    ensures Apart(Ask(g, |ts|, now, n, w).admitted, ts + [now])
  {
    var us, recent := ts + [now], After(g.admitted, ts, now - w);
    CheckCountsWindow(g, ts, now, w);
    if !Refuses(g.log, now, n, w) {
      assert Times(recent, ts) == {};
      assert recent == {} by { MembersTimed(recent, ts); }
      forall i | i in g.admitted ensures us[i] < now { assert i !in recent; }
    }
  }

  // One window by itself

  function Asked(ts: seq<real>, n: int, w: real): Gate {
    if ts == [] then CLOSED else Ask(Asked(ts[..|ts| - 1], n, w), |ts| - 1, ts[|ts| - 1], n, w)
  }

  lemma {:induction false} AskedHolds(ts: seq<real>, n: int, w: real)
    requires Steady(ts) && w > 0.0
    ensures Holds(Asked(ts, n, w), ts, n, w)
    decreases |ts|
  {
    if ts == [] {
      NothingBounded(n, w);
    } else {
      var front, now := ts[..|ts| - 1], ts[|ts| - 1];
      assert ts == front + [now];
      SteadyFront(front, now);
      AskedHolds(front, n, w);
      AskKeeps(Asked(front, n, w), front, now, n, w);
    }
  }

  lemma {:induction false} AskedApart(ts: seq<real>, n: int, w: real)
    requires Steady(ts) && w > 0.0 && n <= 1
    ensures Apart(Asked(ts, n, w).admitted, ts)
    decreases |ts|
  {
    if ts != [] {
      var front, now := ts[..|ts| - 1], ts[|ts| - 1];
      assert ts == front + [now];
      SteadyFront(front, now);
      AskedHolds(front, n, w);
      AskedApart(front, n, w);
      AskKeepsApart(Asked(front, n, w), front, now, n, w);
    }
  }

  function Repeat<T>(x: T, k: nat): (r: seq<T>)
    ensures |r| == k && forall i | 0 <= i < k :: r[i] == x
  {
    seq(k, i => x)
  }

  /** The first k requests. */
  function FirstOf(k: nat): (r: set<nat>)
    ensures |r| == k && forall i: nat :: i in r <==> i < k
  {
    if k == 0 then {} else FirstOf(k - 1) + {k - 1}
  }

  lemma AskAgain(g: Gate, i: nat, t: real, n: int, w: real)
    requires g.log <= {t} && n >= 2
    ensures !Refuses(g.log, t, n, w)
    ensures var r := Ask(g, i, t, n, w); r.log <= {t} && r.admitted == g.admitted + {i}
  {
    SubsetSize(Prune(g.log, t, w), {t});
  }

  /** Equal times share an entry, so at one instant a limit above one admits without end. */
  lemma {:induction false} SameInstantEscapes(k: nat, t: real, n: int, w: real)
    requires n >= 2 && w > 0.0
    ensures Asked(Repeat(t, k), n, w).admitted == FirstOf(k) && Asked(Repeat(t, k), n, w).log <= {t}
    decreases k
  {
    if k > 0 {
      SameInstantEscapes(k - 1, t, n, w);
      assert Repeat(t, k)[..k - 1] == Repeat(t, k - 1);
      AskAgain(Asked(Repeat(t, k - 1), n, w), k - 1, t, n, w);
    }
  }

  ghost predicate BoundsEveryRun(n: int, w: real) {
    forall ts | Steady(ts) :: Bounded(Asked(ts, n, w).admitted, ts, n, w)
  }

  /** A window keeps its limit under every clock that does not go back exactly when the limit is
      at most one. */
  lemma BoundedIffAtMostOne(n: int, w: real)
    requires w > 0.0
    ensures BoundsEveryRun(n, w) <==> n <= 1
  {
    if n <= 1 {
      forall ts | Steady(ts) ensures Bounded(Asked(ts, n, w).admitted, ts, n, w) {
        AskedHolds(ts, n, w);
        AskedApart(ts, n, w);
        InstantsAreRequests(Asked(ts, n, w).admitted, ts, n, w);
      }
    } else {
      var ts := Repeat(0.0, n + 1);
      SameInstantEscapes(n + 1, 0.0, n, w);
      assert ClosedOpen(FirstOf(n + 1), ts, 0.0, w) == FirstOf(n + 1);
      assert Steady(ts) && !Bounded(Asked(ts, n, w).admitted, ts, n, w);
    }
  }

  // Two windows

  const MINUTE := 60.0
  const HOUR := 3600.0

  datatype Limits = Limits(perMinute: int, perHour: int)

  /** One request of a caller class, with the two times its checks read from the clock. */
  datatype Call = Call(minuteAt: real, hourAt: real)

  datatype Outcome = Forwarded | MinuteRefused | HourRefused

  /** A caller class's two windows. */
  datatype Ledger = Ledger(minute: Gate, hour: Gate)

  function DecideOn(minuteLog: set<real>, hourLog: set<real>, c: Call, lim: Limits): Outcome {
    if Refuses(minuteLog, c.minuteAt, lim.perMinute, MINUTE) then MinuteRefused
    else if Refuses(hourLog, c.hourAt, lim.perHour, HOUR) then HourRefused
    else Forwarded
  }

  /** The outcome by the times on record that lie within the last 60 and the last 3600 seconds. */
  ghost predicate Rules(o: Outcome, minuteLog: set<real>, hourLog: set<real>, c: Call, lim: Limits) {
    var minute, hour := set t | t in minuteLog && c.minuteAt - t < 60.0, set t | t in hourLog && c.hourAt - t < 3600.0;
    if |minute| >= lim.perMinute then o == MinuteRefused
    else if |hour| >= lim.perHour then o == HourRefused
    else o == Forwarded
  }

  lemma DecideRules(minuteLog: set<real>, hourLog: set<real>, c: Call, lim: Limits)
    ensures Rules(DecideOn(minuteLog, hourLog, c, lim), minuteLog, hourLog, c, lim)
  {
    assert Prune(minuteLog, c.minuteAt, MINUTE) == set t | t in minuteLog && c.minuteAt - t < 60.0;
    assert Prune(hourLog, c.hourAt, HOUR) == set t | t in hourLog && c.hourAt - t < 3600.0;
  }

  function Decide(l: Ledger, c: Call, lim: Limits): Outcome {
    DecideOn(l.minute.log, l.hour.log, c, lim)
  }

  function Pass(l: Ledger, i: nat, c: Call, lim: Limits): Ledger {
    var minute := Ask(l.minute, i, c.minuteAt, lim.perMinute, MINUTE);
    if Decide(l, c, lim) == MinuteRefused then l.(minute := minute)
    else Ledger(minute, Ask(l.hour, i, c.hourAt, lim.perHour, HOUR))
  }

  function Play(calls: seq<Call>, lim: Limits): Ledger {
    if calls == [] then Ledger(CLOSED, CLOSED)
    else
      var last := |calls| - 1;
      Pass(Play(calls[..last], lim), last, calls[last], lim)
  }

  function MinuteTimes(calls: seq<Call>): seq<real> {
    seq(|calls|, i requires 0 <= i < |calls| => calls[i].minuteAt)
  }

  function HourTimes(calls: seq<Call>): seq<real> {
    seq(|calls|, i requires 0 <= i < |calls| => calls[i].hourAt)
  }

  /** What became of each request, in order. */
  function Outcomes(calls: seq<Call>, lim: Limits): (r: seq<Outcome>)
    ensures |r| == |calls|
  {
    if calls == [] then []
    else
      var last := |calls| - 1;
      Outcomes(calls[..last], lim) + [Decide(Play(calls[..last], lim), calls[last], lim)]
  }

  function Having(outcomes: seq<Outcome>, o: Outcome): set<nat> {
    set i | 0 <= i < |outcomes| && outcomes[i] == o
  }

  function ForwardedBy(calls: seq<Call>, lim: Limits): set<nat> {
    Having(Outcomes(calls, lim), Forwarded)
  }

  function HourRefusedBy(calls: seq<Call>, lim: Limits): set<nat> {
    Having(Outcomes(calls, lim), HourRefused)
  }

  lemma HavingAppend(outcomes: seq<Outcome>, x: Outcome, o: Outcome)
    ensures Having(outcomes + [x], o) == Having(outcomes, o) + if x == o then {|outcomes|} else {}
  {
  }

  /** The hour window has recorded exactly the forwarded requests; the minute window those
      and the ones the hour window then refused. */
  lemma {:induction false} LogsRecord(calls: seq<Call>, lim: Limits)
    ensures Play(calls, lim).hour.admitted == ForwardedBy(calls, lim)
    ensures Play(calls, lim).minute.admitted == ForwardedBy(calls, lim) + HourRefusedBy(calls, lim)
    decreases |calls|
  {
    if calls != [] {
      var n := |calls| - 1;
      var front := calls[..n];
      LogsRecord(front, lim);
      var x := Decide(Play(front, lim), calls[n], lim);
      assert Outcomes(calls, lim) == Outcomes(front, lim) + [x];
      HavingAppend(Outcomes(front, lim), x, Forwarded);
      HavingAppend(Outcomes(front, lim), x, HourRefused);
    }
  }

  ghost predicate BothHold(l: Ledger, calls: seq<Call>, lim: Limits) {
    Holds(l.minute, MinuteTimes(calls), lim.perMinute, MINUTE) && Holds(l.hour, HourTimes(calls), lim.perHour, HOUR)
  }

  ghost predicate ClockAdvances(calls: seq<Call>) {
    Increasing(MinuteTimes(calls)) && Increasing(HourTimes(calls))
  }

  /** A clock that may stand still but does not go back. */
  ghost predicate ClockSteady(calls: seq<Call>) {
    Steady(MinuteTimes(calls)) && Steady(HourTimes(calls))
  }

  lemma TimesAppend(calls: seq<Call>, c: Call)
    requires ClockSteady(calls + [c])
    ensures MinuteTimes(calls + [c]) == MinuteTimes(calls) + [c.minuteAt]
    ensures HourTimes(calls + [c]) == HourTimes(calls) + [c.hourAt]
    ensures ClockSteady(calls)
  {
    assert MinuteTimes(calls + [c]) == MinuteTimes(calls) + [c.minuteAt];
    assert HourTimes(calls + [c]) == HourTimes(calls) + [c.hourAt];
    SteadyFront(MinuteTimes(calls), c.minuteAt);
    SteadyFront(HourTimes(calls), c.hourAt);
  }

  lemma PassKeeps(l: Ledger, calls: seq<Call>, c: Call, lim: Limits)
    requires BothHold(l, calls, lim) && ClockSteady(calls + [c])
    ensures BothHold(Pass(l, |calls|, c, lim), calls + [c], lim)
  {
    TimesAppend(calls, c);
    AskKeeps(l.minute, MinuteTimes(calls), c.minuteAt, lim.perMinute, MINUTE);
    AskKeeps(l.hour, HourTimes(calls), c.hourAt, lim.perHour, HOUR);
  }

  /** Every run under a clock that does not go back keeps both windows faithful and bounded. */
  lemma {:induction false} WindowsHold(calls: seq<Call>, lim: Limits)
    requires ClockSteady(calls)
    ensures BothHold(Play(calls, lim), calls, lim)
    decreases |calls|
  {
    if calls == [] {
      NothingBounded(lim.perMinute, MINUTE);
      NothingBounded(lim.perHour, HOUR);
    } else {
      var n := |calls| - 1;
      assert calls == calls[..n] + [calls[n]];
      TimesAppend(calls[..n], calls[n]);
      WindowsHold(calls[..n], lim);
      PassKeeps(Play(calls[..n], lim), calls[..n], calls[n], lim);
    }
  }

  lemma NothingBounded(n: int, w: real)
    ensures InstantsBounded({}, [], n, w)
  {
    forall x: real ensures |Times(ClosedOpen({}, [], x, w), [])| == 0 && |Times(OpenClosed({}, [], x, w), [])| == 0 {
      assert Times(ClosedOpen({}, [], x, w), []) == {} && Times(OpenClosed({}, [], x, w), []) == {};
    }
  }

  lemma SubsetBounded(f: set<nat>, m: set<nat>, ts: seq<real>, n: int, w: real)
    requires InstantsBounded(m, ts, n, w) && f <= m
    ensures InstantsBounded(f, ts, n, w)
  {
    forall x: real ensures |Times(ClosedOpen(f, ts, x, w), ts)| <= Max0(n) &&
                           |Times(OpenClosed(f, ts, x, w), ts)| <= Max0(n) {
      SubsetSize(Times(ClosedOpen(f, ts, x, w), ts), Times(ClosedOpen(m, ts, x, w), ts));
      SubsetSize(Times(OpenClosed(f, ts, x, w), ts), Times(OpenClosed(m, ts, x, w), ts));
    }
  }

  /** In every minute and in every hour, wherever they start, requests are forwarded at no more
      distinct times than the limits allow, as long as the clock does not go back. */
  lemma ForwardedInstantsRespectLimits(calls: seq<Call>, lim: Limits)
    requires ClockSteady(calls)
    ensures InstantsBounded(ForwardedBy(calls, lim), MinuteTimes(calls), lim.perMinute, MINUTE)
    ensures InstantsBounded(ForwardedBy(calls, lim), HourTimes(calls), lim.perHour, HOUR)
  {
    WindowsHold(calls, lim);
    LogsRecord(calls, lim);
    SubsetBounded(ForwardedBy(calls, lim), Play(calls, lim).minute.admitted, MinuteTimes(calls), lim.perMinute, MINUTE);
  }

  lemma {:induction false} SingleKeepsApart(calls: seq<Call>, lim: Limits)
    requires ClockSteady(calls)
    ensures lim.perMinute <= 1 ==> Apart(Play(calls, lim).minute.admitted, MinuteTimes(calls))
    ensures lim.perHour <= 1 ==> Apart(Play(calls, lim).hour.admitted, HourTimes(calls))
    decreases |calls|
  {
    if calls != [] {
      var front, c := calls[..|calls| - 1], calls[|calls| - 1];
      assert calls == front + [c];
      TimesAppend(front, c);
      SingleKeepsApart(front, lim);
      WindowsHold(front, lim);
      var l := Play(front, lim);
      if lim.perMinute <= 1 { AskKeepsApart(l.minute, MinuteTimes(front), c.minuteAt, lim.perMinute, MINUTE); }
      if lim.perHour <= 1 { AskKeepsApart(l.hour, HourTimes(front), c.hourAt, lim.perHour, HOUR); }
    }
  }

  lemma IncreasingIsApart(ix: set<nat>, ts: seq<real>)
    requires Increasing(ts) && forall i <- ix :: i < |ts|
    ensures Apart(ix, ts)
  {
  }

  /** The promise: in every minute and in every hour, wherever they start, no more requests
      are forwarded than the limits allow, if no two readings of that window's clock are equal,
      or its limit is at most one. */
  lemma ForwardedRespectLimits(calls: seq<Call>, lim: Limits)
    requires ClockSteady(calls)
    ensures Increasing(MinuteTimes(calls)) || lim.perMinute <= 1 ==>
              Bounded(ForwardedBy(calls, lim), MinuteTimes(calls), lim.perMinute, MINUTE)
    ensures Increasing(HourTimes(calls)) || lim.perHour <= 1 ==>
              Bounded(ForwardedBy(calls, lim), HourTimes(calls), lim.perHour, HOUR)
  {
    var f := ForwardedBy(calls, lim);
    ForwardedInstantsRespectLimits(calls, lim);
    SingleKeepsApart(calls, lim);
    LogsRecord(calls, lim);
    if Increasing(MinuteTimes(calls)) { IncreasingIsApart(f, MinuteTimes(calls)); }
    if Increasing(HourTimes(calls)) { IncreasingIsApart(f, HourTimes(calls)); }
    if Apart(f, MinuteTimes(calls)) { InstantsAreRequests(f, MinuteTimes(calls), lim.perMinute, MINUTE); }
    if Apart(f, HourTimes(calls)) { InstantsAreRequests(f, HourTimes(calls), lim.perHour, HOUR); }
  }

  lemma {:induction false} BurstLedger(c: Call, k: nat, lim: Limits)
    requires lim.perMinute >= 2 && lim.perHour >= 2
    ensures var l := Play(Repeat(c, k), lim);
      l.minute.log <= {c.minuteAt} && l.hour.log <= {c.hourAt} && l.hour.admitted == FirstOf(k)
    decreases k
  {
    if k > 0 {
      BurstLedger(c, k - 1, lim);
      assert Repeat(c, k)[..k - 1] == Repeat(c, k - 1);
      var l := Play(Repeat(c, k - 1), lim);
      AskAgain(l.minute, k - 1, c.minuteAt, lim.perMinute, MINUTE);
      AskAgain(l.hour, k - 1, c.hourAt, lim.perHour, HOUR);
    }
  }

  /** Where both limits are above one, any number of requests at one instant is forwarded. */
  lemma BurstForwarded(c: Call, k: nat, lim: Limits)
    requires lim.perMinute >= 2 && lim.perHour >= 2
    ensures forall i | 0 <= i < k :: Outcomes(Repeat(c, k), lim)[i] == Forwarded
  {
    BurstLedger(c, k, lim);
    LogsRecord(Repeat(c, k), lim);
    forall i: nat | i < k ensures Outcomes(Repeat(c, k), lim)[i] == Forwarded {
      assert i in ForwardedBy(Repeat(c, k), lim);
    }
  }

  /** What has been spent in the minute before a call: forwarded and hour-refused requests. */
  function SpentBefore(calls: seq<Call>, c: Call, lim: Limits): set<nat> {
    set i | 0 <= i < |calls| && Outcomes(calls, lim)[i] != MinuteRefused && c.minuteAt - calls[i].minuteAt < 60.0
  }

  /** What has been forwarded in the hour before it. */
  function ForwardedBefore(calls: seq<Call>, c: Call, lim: Limits): set<nat> {
    set i | 0 <= i < |calls| && Outcomes(calls, lim)[i] == Forwarded && c.hourAt - calls[i].hourAt < 3600.0
  }

  lemma BeforeIsAfter(calls: seq<Call>, c: Call, lim: Limits)
    ensures SpentBefore(calls, c, lim) ==
            After(ForwardedBy(calls, lim) + HourRefusedBy(calls, lim), MinuteTimes(calls), c.minuteAt - MINUTE)
    ensures ForwardedBefore(calls, c, lim) == After(ForwardedBy(calls, lim), HourTimes(calls), c.hourAt - HOUR)
  {
  }

  lemma DecisionCounts(l: Ledger, calls: seq<Call>, c: Call, lim: Limits)
    requires BothHold(l, calls, lim) && ClockSteady(calls + [c])
    ensures var minute := After(l.minute.admitted, MinuteTimes(calls), c.minuteAt - MINUTE);
      Decide(l, c, lim) == MinuteRefused <==> |Times(minute, MinuteTimes(calls))| >= lim.perMinute
    ensures var hour := After(l.hour.admitted, HourTimes(calls), c.hourAt - HOUR);
      Decide(l, c, lim) != MinuteRefused ==>
        (Decide(l, c, lim) == HourRefused <==> |Times(hour, HourTimes(calls))| >= lim.perHour)
  {
    TimesAppend(calls, c);
    CheckCountsWindow(l.minute, MinuteTimes(calls), c.minuteAt, MINUTE);
    CheckCountsWindow(l.hour, HourTimes(calls), c.hourAt, HOUR);
  }

  /** No request is refused without cause: the minute window refuses exactly when its trailing
      minute already holds the limit of instants, those of hour-refused requests included, and
      the hour window exactly when its trailing hour holds the limit of forwarding instants. */
  lemma RefusalsHaveCause(calls: seq<Call>, c: Call, lim: Limits)
    requires ClockSteady(calls + [c])
    ensures var o := Decide(Play(calls, lim), c, lim);
      && (o == MinuteRefused <==> |Times(SpentBefore(calls, c, lim), MinuteTimes(calls))| >= lim.perMinute)
      && (o != MinuteRefused ==>
            (o == HourRefused <==> |Times(ForwardedBefore(calls, c, lim), HourTimes(calls))| >= lim.perHour))
  {
    TimesAppend(calls, c);
    WindowsHold(calls, lim);
    LogsRecord(calls, lim);
    BeforeIsAfter(calls, c, lim);
    DecisionCounts(Play(calls, lim), calls, c, lim);
  }

  /** Under a strictly increasing clock those instants are requests. */
  lemma RefusalsCountRequests(calls: seq<Call>, c: Call, lim: Limits)
    requires ClockAdvances(calls) && ClockSteady(calls + [c])
    ensures var o := Decide(Play(calls, lim), c, lim);
      && (o == MinuteRefused <==> |SpentBefore(calls, c, lim)| >= lim.perMinute)
      && (o != MinuteRefused ==> (o == HourRefused <==> |ForwardedBefore(calls, c, lim)| >= lim.perHour))
  {
    RefusalsHaveCause(calls, c, lim);
    IncreasingIsApart(SpentBefore(calls, c, lim), MinuteTimes(calls));
    IncreasingIsApart(ForwardedBefore(calls, c, lim), HourTimes(calls));
    TimesSize(SpentBefore(calls, c, lim), MinuteTimes(calls));
    TimesSize(ForwardedBefore(calls, c, lim), HourTimes(calls));
  }

  // The middleware

  /** What the middleware reads from a request; an empty id means there is none. */
  datatype Request = Request(path: string, verb: string, apiKeyId: string, userId: string, address: string)

  datatype Identity = ApiKey(id: string) | User(id: string) | Address(ip: string)

  /** Requests that share their two windows. */
  datatype CallerClass = CallerClass(who: Identity, isRead: bool)

  datatype Settings = Settings(regular: Limits, read: Limits, apiKey: Limits)

  function Identify(r: Request): Identity {
    if r.apiKeyId != "" then ApiKey(r.apiKeyId) else if r.userId != "" then User(r.userId) else Address(r.address)
  }

  function ClassOf(r: Request): CallerClass {
    CallerClass(Identify(r), r.verb in {"GET", "HEAD", "OPTIONS"})
  }

  predicate Exempt(path: string) {
    path in {"/health", "/metrics"} || "/static" <= path
  }

  function LimitsFor(s: Settings, c: CallerClass): Limits {
    if c.isRead then s.read else if c.who.ApiKey? then s.apiKey else s.regular
  }

  // The keys as the store spells them

  function Kind(who: Identity): string {
    match who
    case ApiKey(_) => "api_key:"
    case User(_) => "user:"
    case Address(_) => "ip:"
  }

  function Id(who: Identity): string {
    match who
    case ApiKey(id) => id
    case User(id) => id
    case Address(ip) => ip
  }

  /** The name under which a class's requests are counted. */
  function Spell(c: CallerClass): string {
    Kind(c.who) + (Id(c.who) + if c.isRead then ":read" else "")
  }

  /** Under which name a request is counted, told from the request: the id of its API key, else its
      user's, else its address; reads apart from writes. */
  ghost function NameOf(r: Request): string {
    var suffix := if r.verb == "GET" || r.verb == "HEAD" || r.verb == "OPTIONS" then ":read" else "";
    if r.apiKeyId == "" && r.userId == "" then "ip:" + r.address + suffix
    else if r.apiKeyId == "" then "user:" + r.userId + suffix
    else "api_key:" + r.apiKeyId + suffix
  }

  lemma SpelledOut(r: Request)
    ensures Spell(ClassOf(r)) == NameOf(r)
  {
    var c := ClassOf(r);
    assert Spell(c) == Kind(c.who) + Id(c.who) + if c.isRead then ":read" else "";
  }

  function MinuteKey(name: string): string {
    name + ":minute"
  }

  function HourKey(name: string): string {
    name + ":hour"
  }

  /** `b` writes under an id that ends like the reads of `a`. */
  predicate Echoes(a: CallerClass, b: CallerClass) {
    a.isRead && !b.isRead && Kind(a.who) == Kind(b.who) && Id(b.who) == Id(a.who) + ":read"
  }

  lemma CancelRight(a: string, b: string, c: string)
    requires a + c == b + c
    ensures a == b
  {
    assert a == (a + c)[..|a + c| - |c|] && b == (b + c)[..|b + c| - |c|];
  }

  lemma CancelLeft(a: string, b: string, c: string)
    requires c + a == c + b
    ensures a == b
  {
    assert a == (c + a)[|c|..] && b == (c + b)[|c|..];
  }

  lemma SameKind(a: Identity, b: Identity, x: string, y: string)
    requires Kind(a) + x == Kind(b) + y
    ensures Kind(a) == Kind(b) && x == y
  {
    assert (Kind(a) + x)[0] == Kind(a)[0] && (Kind(b) + y)[0] == Kind(b)[0];
    CancelLeft(x, y, Kind(a));
  }

  /** Two classes share their windows exactly when they are the same, or the reads of one id meet
      the writes of an id ending in ":read". */
  lemma ClassesCollideIff(a: CallerClass, b: CallerClass)
    ensures Spell(a) == Spell(b) <==> a == b || Echoes(a, b) || Echoes(b, a)
  {
    if Spell(a) == Spell(b) {
      var x, y := if a.isRead then ":read" else "", if b.isRead then ":read" else "";
      SameKind(a.who, b.who, Id(a.who) + x, Id(b.who) + y);
      if a.isRead == b.isRead {
        CancelRight(Id(a.who), Id(b.who), x);
      } else {
        assert Id(a.who) + "" == Id(a.who) && Id(b.who) + "" == Id(b.who);
      }
    }
    if Echoes(a, b) { assert Id(b.who) + "" == Id(b.who); }
    if Echoes(b, a) { assert Id(a.who) + "" == Id(a.who); }
  }

  lemma KeysApart(a: string, b: string)
    ensures MinuteKey(a) != HourKey(b)
    ensures a != b ==> MinuteKey(a) != MinuteKey(b) && HourKey(a) != HourKey(b)
  {
    assert MinuteKey(a)[|MinuteKey(a)| - 1] == 'e' && HourKey(b)[|HourKey(b)| - 1] == 'r';
    if MinuteKey(a) == MinuteKey(b) { CancelRight(a, b, ":minute"); }
    if HourKey(a) == HourKey(b) { CancelRight(a, b, ":hour"); }
  }

  /** A request with the limits it was held to. */
  datatype Entry = Entry(call: Call, lim: Limits)

  function PlayEach(entries: seq<Entry>): Ledger {
    if entries == [] then Ledger(CLOSED, CLOSED)
    else
      var last := |entries| - 1;
      Pass(PlayEach(entries[..last]), last, entries[last].call, entries[last].lim)
  }

  function CallsIn(entries: seq<Entry>): seq<Call> {
    seq(|entries|, i requires 0 <= i < |entries| => entries[i].call)
  }

  /** Windows that only one class uses are those of a run under fixed limits. */
  lemma {:induction false} UniformIsPlay(entries: seq<Entry>, lim: Limits)
    requires forall e <- entries :: e.lim == lim
    ensures PlayEach(entries) == Play(CallsIn(entries), lim)
    decreases |entries|
  {
    if entries != [] {
      var last := |entries| - 1;
      assert CallsIn(entries)[..last] == CallsIn(entries[..last]);
      assert entries[last] in entries;
      UniformIsPlay(entries[..last], lim);
    }
  }

  class RateLimitingMiddleware {
    const settings: Settings
    var store: map<string, set<real>>
    /** The requests counted under each name: those that were not exempt. */
    ghost var entries: map<string, seq<Entry>>

    constructor (settings: Settings)
      ensures Valid() && this.settings == settings && entries == map[]
    {
      this.settings := settings;
      store, entries := map[], map[];
    }

    function LogOf(key: string): set<real>
      reads this
    {
      if key in store then store[key] else {}
    }

    ghost function EntriesOf(name: string): seq<Entry>
      reads this
    {
      if name in entries then entries[name] else []
    }

    ghost function LedgerOf(name: string): Ledger
      reads this
    {
      PlayEach(EntriesOf(name))
    }

    ghost predicate Agrees(name: string)
      reads this
    {
      LogOf(MinuteKey(name)) == LedgerOf(name).minute.log && LogOf(HourKey(name)) == LedgerOf(name).hour.log
    }

    /** The store is what the history under each name makes it. */
    ghost predicate Valid()
      reads this
    {
      forall name :: Agrees(name)
    }

    /** `_is_rate_limited`. */
    method IsRateLimited(key: string, n: int, w: real, now: real) returns (limited: bool)
      modifies this`store
      ensures limited == Refuses(old(LogOf(key)), now, n, w)
      ensures LogOf(key) == AfterCheck(old(LogOf(key)), now, n, w)
      ensures forall other | other != key :: LogOf(other) == old(LogOf(other))
    {
      if key !in store { store := store[key := {}]; }
      store := store[key := set t | t in store[key] && t > now - w];
      if |store[key]| >= n { return true; }
      store := store[key := store[key] + {now}];
      return false;
    }

    /** The two checks of `__call__`, the hour check only after the minute check passed. */
    method CheckWindows(name: string, lim: Limits, call: Call) returns (o: Outcome)
      modifies this`store
      ensures o == DecideOn(old(LogOf(MinuteKey(name))), old(LogOf(HourKey(name))), call, lim)
      ensures LogOf(MinuteKey(name)) ==
              AfterCheck(old(LogOf(MinuteKey(name))), call.minuteAt, lim.perMinute, MINUTE)
      ensures LogOf(HourKey(name)) ==
              if o == MinuteRefused then old(LogOf(HourKey(name)))
              else AfterCheck(old(LogOf(HourKey(name))), call.hourAt, lim.perHour, HOUR)
      ensures forall other | other != MinuteKey(name) && other != HourKey(name) :: LogOf(other) == old(LogOf(other))
    {
      KeysApart(name, name);
      var minuteLimited := IsRateLimited(MinuteKey(name), lim.perMinute, MINUTE, call.minuteAt);
      if minuteLimited { return MinuteRefused; }
      var hourLimited := IsRateLimited(HourKey(name), lim.perHour, HOUR, call.hourAt);
      return if hourLimited then HourRefused else Forwarded;
    }

    /** The limits a request is held to: those for reads; for writes, those for API keys if it has
        one, and the regular ones otherwise. */
    ghost function LimitsOf(r: Request): Limits {
      if r.verb == "GET" || r.verb == "HEAD" || r.verb == "OPTIONS" then settings.read
      else if r.apiKeyId == "" then settings.regular
      else settings.apiKey
    }

    /** The request was decided by the history under `name`, to which it was added. */
    twostate predicate Decided(o: Outcome, call: Call, name: string, lim: Limits)
      reads this
    {
      && Rules(o, old(LogOf(name + ":minute")), old(LogOf(name + ":hour")), call, lim)
      && o == Decide(old(LedgerOf(name)), call, lim)
      && entries == old(entries)[name := old(EntriesOf(name)) + [Entry(call, lim)]]
    }

    /** The checks, and the request on record under its name. */
    method Count(name: string, lim: Limits, call: Call) returns (o: Outcome)
      requires Valid()
      modifies this
      ensures Valid() && Decided(o, call, name, lim)
    {
      ghost var before := EntriesOf(name);
      assert Agrees(name);
      assert (before + [Entry(call, lim)])[..|before|] == before;
      DecideRules(LogOf(MinuteKey(name)), LogOf(HourKey(name)), call, lim);
      o := CheckWindows(name, lim, call);
      entries := entries[name := before + [Entry(call, lim)]];
      forall other ensures Agrees(other) {
        KeysApart(other, name);
        KeysApart(name, other);
        if other != name { assert old(Agrees(other)); }
      }
    }

    /** `__call__`: None for an exempt path, which leaves no trace. */
    method Handle(r: Request, call: Call) returns (o: Option<Outcome>)
      requires Valid()
      modifies this
      ensures Valid()
      ensures o == None <==> r.path == "/health" || r.path == "/metrics" || "/static" <= r.path
      ensures o == None ==> store == old(store) && entries == old(entries)
      ensures o != None ==> Decided(o.value, call, NameOf(r), LimitsOf(r))
    {
      if Exempt(r.path) { return None; }
      SpelledOut(r);
      var outcome := Count(Spell(ClassOf(r)), LimitsFor(settings, ClassOf(r)), call);
      return Some(outcome);
    }
  }
}
