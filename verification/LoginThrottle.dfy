/** What the login throttle guarantees over whole runs. */
module LoginThrottle {
  import opened GoTime
  import opened LoginSecurity

  // ---------- a key as seen from outside ----------

  /** The counting window of a key: closed, or open with a failure count and the instant it is anchored at. */
  datatype Window = Closed | Open(fails: nat, anchor: Time)

  /** All that matters about a key at some instant: until when it is locked (0: it is not), and its window. */
  datatype View = View(lock: Time, window: Window)

  function Lock(lockedTill: Time, now: Time): Time {
    if now < lockedTill then lockedTill else 0
  }

  function ViewOf(m: Records, key: Key, now: Time): View {
    if key !in m then View(0, Closed)
    else View(Lock(m[key].lockedTill, now),
              if WindowPassed(m[key], now) then Closed else Open(m[key].fails, m[key].firstFail))
  }

  /** The same view at a later instant, nothing having happened to the key. */
  function Aged(v: View, now: Time): View {
    View(Lock(v.lock, now),
         if v.window.Open? && now - v.window.anchor > LOGIN_FAIL_WINDOW then Closed else v.window)
  }

  /** The view after a failure at `now`. */
  function FailedView(v: View, now: Time): View {
    var n, a := if v.window.Open? then v.window.fails + 1 else 1, if v.window.Open? then v.window.anchor else now;
    if n >= MAX_LOGIN_FAILS then View(now + LOGIN_LOCK_DURATION, Open(0, now)) else View(v.lock, Open(n, a))
  }

  lemma ViewAges(m: Records, key: Key, now: Time, after: Time)
    requires now <= after
    ensures ViewOf(m, key, after) == Aged(ViewOf(m, key, now), after)
  {
  }

  lemma AllowedKeepsViews(m: Records, key: Key, now: Time, other: Key)
    ensures ViewOf(AfterAllowed(m, key, now), other, now) == ViewOf(m, other, now)
  {
  }

  lemma FailureChangesView(m: Records, key: Key, now: Time, other: Key)
    ensures ViewOf(AfterFailure(m, key, now), other, now)
         == if other == key then FailedView(ViewOf(m, key, now), now) else ViewOf(m, other, now)
  {
  }

  lemma SuccessChangesView(m: Records, key: Key, now: Time, other: Key)
    ensures ViewOf(AfterSuccess(m, key), other, now) == if other == key then View(0, Closed) else ViewOf(m, other, now)
  {
  }

  // ---------- garbage collection and the lazy reset are invisible ----------

  datatype Call = Allowed(key: Key, now: Time, later: Time) | Failure(key: Key, now: Time) | Success(key: Key)

  function After(m: Records, c: Call): Records {
    match c
    case Allowed(k, now, _) => AfterAllowed(m, k, now)
    case Failure(k, now) => AfterFailure(m, k, now)
    case Success(k) => AfterSuccess(m, k)
  }

  /** The plain guard: it never sweeps its table, and a query never writes. */
  function PlainAfter(m: Records, c: Call): Records {
    match c
    case Allowed(_, _, _) => m
    case Failure(k, now) => m[k := Failed(if k in m then m[k] else Record(0, now, 0), now)]
    case Success(k) => m - {k}
  }

  function Clock(c: Call, now: Time): Time {
    if c.Success? then now else c.now
  }

  /** The calls read a clock that never goes back, starting from `now`. */
  predicate InOrder(calls: seq<Call>, now: Time) {
    calls == [] || (now <= Clock(calls[0], now) && InOrder(calls[1..], Clock(calls[0], now)))
  }

  function Answers(m: Records, calls: seq<Call>): seq<Answer>
    decreases calls
  {
    if calls == [] then []
    else
      var rest := Answers(After(m, calls[0]), calls[1..]);
      if calls[0].Allowed? then [AllowedAnswer(m, calls[0].key, calls[0].now, calls[0].later)] + rest else rest
  }

  function PlainAnswers(m: Records, calls: seq<Call>): seq<Answer>
    decreases calls
  {
    if calls == [] then []
    else
      var rest := PlainAnswers(PlainAfter(m, calls[0]), calls[1..]);
      if calls[0].Allowed? then [AllowedAnswer(m, calls[0].key, calls[0].now, calls[0].later)] + rest else rest
  }

  ghost predicate SameViews(m: Records, p: Records, now: Time) {
    forall k :: ViewOf(m, k, now) == ViewOf(p, k, now)
  }

  lemma AnswerIsVisible(m: Records, p: Records, key: Key, now: Time, later: Time)
    requires ViewOf(m, key, now) == ViewOf(p, key, now)
    ensures AllowedAnswer(m, key, now, later) == AllowedAnswer(p, key, now, later)
  {
  }

  lemma PlainChangesView(p: Records, c: Call, now: Time, other: Key)
    ensures var t := Clock(c, now);
            ViewOf(PlainAfter(p, c), other, t) == StepView(c, other, ViewOf(p, other, t), t)
  {
  }

  /** What one call does to the view of a key, once the view has been brought to the time of the call. */
  function StepView(c: Call, k: Key, v: View, now: Time): View {
    if c.key != k || c.Allowed? then v else if c.Failure? then FailedView(v, now) else View(0, Closed)
  }

  /** Every operation on the table, sweeping included, moves each key by its own calls alone. */
  lemma CallChangesView(m: Records, c: Call, now: Time, other: Key)
    ensures var t := Clock(c, now);
            ViewOf(After(m, c), other, t) == StepView(c, other, ViewOf(m, other, t), t)
  {
    match c {
      case Allowed(k, t, _) => AllowedKeepsViews(m, k, t, other);
      case Failure(k, t) => FailureChangesView(m, k, t, other);
      case Success(k) => SuccessChangesView(m, k, now, other);
    }
  }

  lemma StepKeepsSameViews(m: Records, p: Records, c: Call, now: Time)
    requires SameViews(m, p, now) && now <= Clock(c, now)
    ensures SameViews(After(m, c), PlainAfter(p, c), Clock(c, now))
    ensures ViewOf(m, c.key, Clock(c, now)) == ViewOf(p, c.key, Clock(c, now))
  {
    var t := Clock(c, now);
    forall k ensures ViewOf(m, k, t) == ViewOf(p, k, t) && ViewOf(After(m, c), k, t) == ViewOf(PlainAfter(p, c), k, t) {
      assert ViewOf(m, k, now) == ViewOf(p, k, now);
      ViewAges(m, k, now, t);
      ViewAges(p, k, now, t);
      CallChangesView(m, c, now, k);
      PlainChangesView(p, c, now, k);
    }
  }

  lemma {:induction false} SameViewsSameAnswers(m: Records, p: Records, calls: seq<Call>, now: Time)
    requires SameViews(m, p, now) && InOrder(calls, now)
    ensures Answers(m, calls) == PlainAnswers(p, calls)
    decreases calls
  {
    if calls != [] {
      var c := calls[0];
      StepKeepsSameViews(m, p, c, now);
      SameViewsSameAnswers(After(m, c), PlainAfter(p, c), calls[1..], Clock(c, now));
      if c.Allowed? {
        AnswerIsVisible(m, p, c.key, c.now, c.later);
      }
    }
  }

  /** On every call sequence with a clock that never goes back, the guard answers as the plain guard does. */
  lemma SweepsAreInvisible(calls: seq<Call>)
    requires InOrder(calls, 0)
    ensures Answers(map[], calls) == PlainAnswers(map[], calls)
  {
    SameViewsSameAnswers(map[], map[], calls, 0);
  }

  // ---------- the lock ----------

  function Run(m: Records, calls: seq<Call>): Records
    decreases calls
  {
    if calls == [] then m else Run(After(m, calls[0]), calls[1..])
  }

  function EndClock(calls: seq<Call>, now: Time): Time {
    if calls == [] then now else EndClock(calls[1..], Clock(calls[0], now))
  }

  /** The view of a key after a run, computed from its own calls only. */
  function Replay(v: View, calls: seq<Call>, k: Key, now: Time): View
    decreases calls
  {
    if calls == [] then v
    else
      var t := Clock(calls[0], now);
      Replay(StepView(calls[0], k, Aged(v, t), t), calls[1..], k, t)
  }

  /** Other keys, however many, and the sweeps they cause, leave a key exactly where its own calls put it. */
  lemma {:induction false} RunIsReplay(m: Records, calls: seq<Call>, k: Key, now: Time)
    requires InOrder(calls, now)
    ensures ViewOf(Run(m, calls), k, EndClock(calls, now)) == Replay(ViewOf(m, k, now), calls, k, now)
    decreases calls
  {
    if calls != [] {
      var t := Clock(calls[0], now);
      ViewAges(m, k, now, t);
      CallChangesView(m, calls[0], now, k);
      RunIsReplay(After(m, calls[0]), calls[1..], k, t);
    }
  }

  /** The instants of the failures of k in a run. */
  function FailTimes(calls: seq<Call>, k: Key): seq<Time> {
    if calls == [] then []
    else (if calls[0].Failure? && calls[0].key == k then [calls[0].now] else []) + FailTimes(calls[1..], k)
  }

  lemma {:induction false} FailTimesLater(calls: seq<Call>, k: Key, now: Time)
    requires InOrder(calls, now)
    ensures forall t :: t in FailTimes(calls, k) ==> now <= t
  {
    if calls != [] {
      FailTimesLater(calls[1..], k, Clock(calls[0], now));
    }
  }

  function LockedView(t: Time): View {
    View(t + LOGIN_LOCK_DURATION, Open(0, t))
  }

  /** The failures fill a counting window: a closed one, which the first opens, or one that is open already. */
  predicate FillsWindow(w: Window, fs: seq<Time>) {
    && fs != []
    && match w
       case Closed => |fs| == MAX_LOGIN_FAILS && fs[|fs| - 1] - fs[0] <= LOGIN_FAIL_WINDOW
       case Open(n, anchor) => n + |fs| == MAX_LOGIN_FAILS && fs[|fs| - 1] - anchor <= LOGIN_FAIL_WINDOW
  }

  /** A window after one more failure, short of the fifth. */
  function Counted(w: Window, t: Time): Window {
    if w.Open? then Open(w.fails + 1, w.anchor) else Open(1, t)
  }

  lemma FillsRest(w: Window, fs: seq<Time>)
    requires FillsWindow(w, fs) && |fs| > 1
    ensures FillsWindow(Counted(w, fs[0]), fs[1..])
  {
  }

  /** One of the failures that fill a window: the last locks the key, any other only counts. */
  lemma FillStep(v: View, fs: seq<Time>)
    requires FillsWindow(v.window, fs)
    ensures if |fs| == 1 then FailedView(v, fs[0]) == LockedView(fs[0])
            else FailedView(v, fs[0]).window == Counted(v.window, fs[0])
  {
  }

  lemma LockIsFresh(t: Time)
    ensures Aged(LockedView(t), t) == LockedView(t)
  {
  }

  /** While a window is still to be filled it has not passed. */
  lemma StillOpen(v: View, calls: seq<Call>, k: Key, now: Time)
    requires InOrder(calls, now) && calls != [] && FillsWindow(v.window, FailTimes(calls, k))
    ensures Aged(v, Clock(calls[0], now)).window == v.window
  {
    var fs, t := FailTimes(calls, k), Clock(calls[0], now);
    FailTimesLater(calls[1..], k, t);
    assert fs[|fs| - 1] == t || fs[|fs| - 1] in FailTimes(calls[1..], k);
  }

  /** After the lock nothing happens to the key but queries. */
  lemma {:induction false} StaysLocked(v: View, calls: seq<Call>, k: Key, now: Time, locked: Time)
    requires InOrder(calls, now) && FailTimes(calls, k) == [] && v == Aged(LockedView(locked), now)
    requires forall c :: c in calls && c.key == k ==> !c.Success?
    ensures Replay(v, calls, k, now) == Aged(LockedView(locked), EndClock(calls, now))
    decreases calls
  {
    if calls != [] {
      var t := Clock(calls[0], now);
      assert !(calls[0].Failure? && calls[0].key == k);
      StaysLocked(Aged(v, t), calls[1..], k, t, locked);
    }
  }

  lemma {:induction false} FillingLocks(v: View, calls: seq<Call>, k: Key, now: Time)
    requires InOrder(calls, now) && FillsWindow(v.window, FailTimes(calls, k))
    requires forall c :: c in calls && c.key == k ==> !c.Success?
    ensures var fs := FailTimes(calls, k);
            Replay(v, calls, k, now) == Aged(LockedView(fs[|fs| - 1]), EndClock(calls, now))
    decreases calls
  {
    hide Aged, FailedView, LockedView, Counted;
    var c, t, fs := calls[0], Clock(calls[0], now), FailTimes(calls, k);
    StillOpen(v, calls, k, now);
    var next := StepView(c, k, Aged(v, t), t);
    if c.Failure? && c.key == k {
      FailTimesFirst(calls, k);
      FillStep(Aged(v, t), fs);
      if |fs| == 1 {
        LockIsFresh(t);
        StaysLocked(next, calls[1..], k, t, t);
      } else {
        FillsRest(v.window, fs);
        FillingLocks(next, calls[1..], k, t);
      }
    } else {
      assert fs == FailTimes(calls[1..], k);
      FillingLocks(next, calls[1..], k, t);
    }
  }

  lemma FailTimesFirst(calls: seq<Call>, k: Key)
    requires calls != [] && calls[0].Failure? && calls[0].key == k
    ensures FailTimes(calls, k) == [calls[0].now] + FailTimes(calls[1..], k)
    ensures FailTimes(calls, k)[1..] == FailTimes(calls[1..], k)
  {
  }

  /**
    * The fifth failure within one counting window locks the key for exactly the lock duration, wherever the window
    * is anchored, at a failure or at an earlier lock, and whatever queries of the key and whatever calls for other
    * keys happen in between and afterwards.
    */
  lemma FifthFailureLocks(m: Records, calls: seq<Call>, k: Key, now: Time, query: Time, later: Time)
    requires InOrder(calls, now) && FillsWindow(ViewOf(m, k, now).window, FailTimes(calls, k))
    requires forall c :: c in calls && c.key == k ==> !c.Success?
    requires EndClock(calls, now) <= query
    ensures var fs := FailTimes(calls, k);
            AllowedAnswer(Run(m, calls), k, query, later).ok <==> fs[|fs| - 1] + LOGIN_LOCK_DURATION <= query
  {
    FillingLocks(ViewOf(m, k, now), calls, k, now);
    RunIsReplay(m, calls, k, now);
    ViewAges(Run(m, calls), k, EndClock(calls, now), query);
  }

  function NotNegative(d: int): int {
    if d < 0 then 0 else d
  }

  /**
    * What a refused client is told against the time left at the second clock reading: at most a second more, and
    * more than is left exactly if that reading came less than a second after the lock had ended.
    */
  lemma WaitIsTight(m: Records, k: Key, now: Time, later: Time)
    requires k in m && now < m[k].lockedTill && now <= later
    ensures var a, left := AllowedAnswer(m, k, now, later), NotNegative(m[k].lockedTill - later);
            && !a.ok && a.wait * SECOND <= left + SECOND
            && (left < a.wait * SECOND <==> later < m[k].lockedTill + SECOND)
  {
    WholeSecondsBounds(m[k].lockedTill - later);
  }

  /** Truncation toward zero stays within a second, on the side of zero. */
  lemma WholeSecondsBounds(d: int)
    ensures d >= 0 ==> WholeSeconds(d) * SECOND <= d < (WholeSeconds(d) + 1) * SECOND
    ensures d <= 0 ==> (WholeSeconds(d) - 1) * SECOND < d <= WholeSeconds(d) * SECOND
  {
  }

  /** Refused with the second reading a second and a half past the lock, a client is told to wait 0 seconds. */
  lemma ToldToWaitNothing(k: Key) returns (m: Records, now: Time, later: Time)
    ensures k in m && now < m[k].lockedTill && now <= later
    ensures AllowedAnswer(m, k, now, later) == Answer(false, 0)
  {
    m, now := map[k := Record(0, 0, LOGIN_LOCK_DURATION)], LOGIN_LOCK_DURATION - 1;
    later := LOGIN_LOCK_DURATION + SECOND + SECOND / 2;
  }

  /** A refused client that waits as told is let through if nothing else happened to the key. */
  lemma WaitingSuffices(m: Records, k: Key, now: Time, later: Time, after: Time)
    requires !AllowedAnswer(m, k, now, later).ok && now <= after
    requires later + AllowedAnswer(m, k, now, later).wait * SECOND <= after
    ensures AllowedAnswer(m, k, after, after).ok
  {
    WholeSecondsBounds(m[k].lockedTill - later);
  }

  /** In no reachable state does a counter stand at the limit. */
  ghost predicate BelowLimit(m: Records) {
    forall k :: k in m ==> m[k].fails < MAX_LOGIN_FAILS
  }

  lemma {:induction false} CountersStayBelowLimit(m: Records, calls: seq<Call>)
    requires BelowLimit(m)
    ensures BelowLimit(Run(m, calls))
    decreases calls
  {
    if calls != [] {
      CountersStayBelowLimit(After(m, calls[0]), calls[1..]);
    }
  }
}
