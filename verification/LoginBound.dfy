/** How many failures of a key any ten minutes can hold, whether or not its logins overlap. */
module LoginBound {
  import opened GoTime
  import opened LoginSecurity
  import opened LoginThrottle
  import Sets

  // ---------- overlapping logins ----------

  /**
    * What matters for key k: the records, the instants of its failures since its last success, and how many of its
    * attempts are under way, let through by the guard and neither failed nor succeeded yet.
    */
  datatype Moment = Moment(records: Records, failures: seq<Time>, pending: nat, now: Time)

  const START: Moment := Moment(map[], [], 0, 0)

  function LetThrough(m: Records, c: Call): bool
    requires c.Allowed?
  {
    AllowedAnswer(m, c.key, c.now, c.later).ok
  }

  /** Only an attempt under way can end, and at most `limit` attempts of k are under way at once. */
  predicate Possible(s: Moment, c: Call, k: Key, limit: nat) {
    && s.now <= Clock(c, s.now)
    && (c.key == k ==> if c.Allowed? then LetThrough(s.records, c) ==> s.pending < limit else s.pending > 0)
  }

  function Next(s: Moment, c: Call, k: Key): Moment
    requires c.key == k && !c.Allowed? ==> s.pending > 0
  {
    var s1 := s.(records := After(s.records, c), now := Clock(c, s.now));
    if c.key != k then s1
    else
      match c
      case Allowed(_, _, _) => if LetThrough(s.records, c) then s1.(pending := s.pending + 1) else s1
      case Failure(_, now) => s1.(failures := s.failures + [now], pending := s.pending - 1)
      case Success(_) => s1.(failures := [], pending := s.pending - 1)
  }

  predicate PossibleRun(calls: seq<Call>, k: Key, limit: nat)
    decreases |calls|, 0
  {
    calls == []
    || (PossibleRun(calls[..|calls| - 1], k, limit)
        && Possible(Run(calls[..|calls| - 1], k, limit), calls[|calls| - 1], k, limit))
  }

  function Run(calls: seq<Call>, k: Key, limit: nat): Moment
    requires PossibleRun(calls, k, limit)
    decreases |calls|, 1
  {
    if calls == [] then START else Next(Run(calls[..|calls| - 1], k, limit), calls[|calls| - 1], k)
  }

  // ---------- the bound ----------

  /** Four failures before a lock's window has passed, five in the next, and those still under way at its lock. */
  function MostPerWindow(limit: nat): nat {
    2 * MAX_LOGIN_FAILS - 2 + limit
  }

  /** Instants in order, any `most` + 1 of them spread over at least a whole window. */
  ghost predicate Spaced(h: seq<Time>, most: nat) {
    && (forall i, j :: 0 <= i < j < |h| ==> h[i] <= h[j])
    && (forall i, j :: 0 <= i && j == i + most && j < |h| ==> h[i] + LOGIN_FAIL_WINDOW <= h[j])
  }

  /** Of the first m failures, those before the last four lie more than a window before `now`. */
  ghost predicate LongAgo(h: seq<Time>, m: nat, now: Time)
    requires m <= |h|
  {
    forall i :: 0 <= i <= m - MAX_LOGIN_FAILS ==> h[i] + LOGIN_FAIL_WINDOW < now
  }

  /** All but the last x failures lie a whole window before `now`. */
  ghost predicate AllBut(h: seq<Time>, x: nat, now: Time) {
    forall i :: 0 <= i < |h| - x ==> h[i] + LOGIN_FAIL_WINDOW <= now
  }

  /** While the key is locked every further failure takes one of the attempts under way. */
  ghost predicate LockExplains(v: View, h: seq<Time>, pending: nat, limit: nat, now: Time) {
    && v.window.Open? && v.lock == v.window.anchor + LOGIN_LOCK_DURATION
    && pending <= limit && AllBut(h, MostPerWindow(limit) - pending, now)
  }

  /** How the failures so far relate to the window and the lock the guard holds. */
  ghost predicate Explains(v: View, h: seq<Time>, pending: nat, limit: nat, now: Time) {
    && pending <= limit
    && Spaced(h, MostPerWindow(limit))
    && (forall i :: 0 <= i < |h| ==> h[i] <= now)
    && match v.window
       case Closed => LongAgo(h, |h|, now)
       case Open(n, a) =>
         && n < MAX_LOGIN_FAILS && n <= |h| && a <= now <= a + LOGIN_FAIL_WINDOW
         && (forall i :: 0 <= i < |h| - n ==> h[i] <= a)
         && (forall i :: |h| - n <= i < |h| ==> a <= h[i])
         && (LockExplains(v, h, pending, limit, now) || now == a + LOGIN_LOCK_DURATION || LongAgo(h, |h| - n, a))
  }

  lemma AgedExplains(v: View, h: seq<Time>, pending: nat, limit: nat, now: Time, after: Time)
    requires Explains(v, h, pending, limit, now) && now <= after
    ensures Explains(Aged(v, after), h, pending, limit, after)
  {
  }

  /** A failure takes an attempt under way, and cannot follow `most` others within a window. */
  lemma StaysSpaced(v: View, h: seq<Time>, pending: nat, limit: nat, now: Time)
    requires Explains(v, h, pending, limit, now) && pending > 0
    ensures AllBut(h, MostPerWindow(limit) - pending, now) || AllBut(h, MostPerWindow(1) - 1, now)
    ensures Spaced(h + [now], MostPerWindow(limit))
  {
  }

  lemma FailureExplains(v: View, h: seq<Time>, pending: nat, limit: nat, now: Time)
    requires Explains(v, h, pending, limit, now) && pending > 0
    ensures Explains(FailedView(v, now), h + [now], pending - 1, limit, now)
  {
    StaysSpaced(v, h, pending, limit, now);
    hide Spaced;
  }

  /** A key that is let through is not locked, so one more attempt under way changes nothing. */
  lemma LetThroughExplains(v: View, h: seq<Time>, pending: nat, limit: nat, now: Time)
    requires Explains(v, h, pending, limit, now) && v.lock == 0 && pending < limit
    ensures Explains(v, h, pending + 1, limit, now)
  {
  }

  lemma NothingExplains(pending: nat, limit: nat, now: Time)
    requires pending <= limit
    ensures Explains(View(0, Closed), [], pending, limit, now)
  {
  }

  ghost predicate Explained(s: Moment, k: Key, limit: nat) {
    Explains(ViewOf(s.records, k, s.now), s.failures, s.pending, limit, s.now)
  }

  lemma StepStaysExplained(s: Moment, c: Call, k: Key, limit: nat)
    requires Explained(s, k, limit) && Possible(s, c, k, limit)
    ensures Explained(Next(s, c, k), k, limit)
  {
    hide Explains, Aged, FailedView, After;
    var t := Clock(c, s.now);
    var v := ViewOf(s.records, k, t);
    ViewAges(s.records, k, s.now, t);
    AgedExplains(ViewOf(s.records, k, s.now), s.failures, s.pending, limit, s.now, t);
    CallChangesView(s.records, c, s.now, k);
    if c.key == k {
      PendingFits(s, k, limit);
      match c {
        case Allowed(_, _, _) =>
          if LetThrough(s.records, c) {
            LetThroughExplains(v, s.failures, s.pending, limit, t);
          }
        case Failure(_, _) => FailureExplains(v, s.failures, s.pending, limit, t);
        case Success(_) => NothingExplains(s.pending - 1, limit, t);
      }
    }
  }

  lemma PendingFits(s: Moment, k: Key, limit: nat)
    requires Explained(s, k, limit)
    ensures s.pending <= limit
  {
  }

  lemma {:induction false} RunIsExplained(calls: seq<Call>, k: Key, limit: nat)
    requires PossibleRun(calls, k, limit)
    ensures Explained(Run(calls, k, limit), k, limit)
  {
    if calls == [] {
      NothingExplains(0, limit, 0);
    } else {
      RunIsExplained(calls[..|calls| - 1], k, limit);
      StepStaysExplained(Run(calls[..|calls| - 1], k, limit), calls[|calls| - 1], k, limit);
    }
  }

  /** The failures at or after `lo` and before `hi`, by index. */
  ghost function Within(h: seq<Time>, lo: Time, hi: int): set<nat> {
    set i: nat | i < |h| && lo <= h[i] < hi
  }

  lemma {:induction false} SpacedFar(h: seq<Time>, most: nat, i: nat, j: nat, windows: nat)
    requires Spaced(h, most) && i + windows * most <= j < |h|
    ensures h[i] + windows * LOGIN_FAIL_WINDOW <= h[j]
    decreases windows
  {
    if windows > 0 {
      assert windows * most == most + (windows - 1) * most >= most;
      SpacedFar(h, most, i + most, j, windows - 1);
    }
  }

  lemma SpacedIsFew(h: seq<Time>, most: nat, lo: Time, windows: nat)
    requires Spaced(h, most)
    ensures |Within(h, lo, lo + windows * LOGIN_FAIL_WINDOW)| <= windows * most
  {
    var s := Within(h, lo, lo + windows * LOGIN_FAIL_WINDOW);
    if s != {} {
      var first := Sets.Least(s);
      forall i | i in s ensures first <= i < first + windows * most {
        if i >= first + windows * most {
          SpacedFar(h, most, first, i, windows);
        }
      }
      Sets.NarrowSet(s, first, windows * most);
    }
  }

  /**
    * Whatever calls are made, for whatever keys: if at most `limit` attempts of a key are under way at once, an
    * interval of `windows` counting windows holds at most `limit` + 8 failures per window of that key since its
    * last success.
    */
  lemma OverlapBound(calls: seq<Call>, k: Key, limit: nat, lo: Time, windows: nat)
    requires PossibleRun(calls, k, limit)
    ensures |Within(Run(calls, k, limit).failures, lo, lo + windows * LOGIN_FAIL_WINDOW)| <= windows * (limit + 8)
  {
    RunIsExplained(calls, k, limit);
    SpacedIsFew(Run(calls, k, limit).failures, MostPerWindow(limit), lo, windows);
  }

  // ---------- the bound is reached ----------

  lemma Extend(calls: seq<Call>, c: Call, k: Key, limit: nat)
    requires PossibleRun(calls, k, limit) && Possible(Run(calls, k, limit), c, k, limit)
    ensures PossibleRun(calls + [c], k, limit)
    ensures Run(calls + [c], k, limit) == Next(Run(calls, k, limit), c, k)
  {
    assert (calls + [c])[..|calls|] == calls;
  }

  // Five failures at once, four as the lock ends, and four more just later.

  function SharpTime(i: int): Time {
    if i < 5 then 0 else if i < 9 then LOGIN_FAIL_WINDOW else LOGIN_FAIL_WINDOW + 1
  }

  function SharpTimes(n: nat): (ts: seq<Time>)
    ensures |ts| == n && forall i :: 0 <= i < n ==> ts[i] == SharpTime(i)
  {
    if n == 0 then [] else SharpTimes(n - 1) + [SharpTime(n - 1)]
  }

  function SharpRecord(i: nat): Record {
    var w := LOGIN_FAIL_WINDOW;
    if i < 5 then Record(i, 0, 0)
    else if i < 10 then Record(i - 5, 0, w)
    else if i < 14 then Record(i - 9, w + 1, w)
    else Record(0, w + 1, 2 * w + 1)
  }

  function SharpRecords(k: Key, i: nat): Records {
    if i == 0 then map[] else map[k := SharpRecord(i)]
  }

  lemma SharpStep(k: Key, i: nat)
    requires i < 13
    ensures var t := SharpTime(i);
            && AllowedAnswer(SharpRecords(k, i), k, t, t).ok
            && AfterFailure(AfterAllowed(SharpRecords(k, i), k, t), k, t) == SharpRecords(k, i + 1)
  {
  }

  /** One more attempt that fails at once. */
  lemma FailAtOnce(calls: seq<Call>, k: Key, limit: nat, t: Time) returns (more: seq<Call>)
    requires PossibleRun(calls, k, limit) && Run(calls, k, limit).pending == 0 < limit
    requires Run(calls, k, limit).now <= t && AllowedAnswer(Run(calls, k, limit).records, k, t, t).ok
    ensures PossibleRun(more, k, limit)
    ensures var s, n := Run(calls, k, limit), Run(more, k, limit);
            && n.records == AfterFailure(AfterAllowed(s.records, k, t), k, t) && n.failures == s.failures + [t]
            && n.pending == 0 && n.now == t
  {
    hide AllowedAnswer, AfterAllowed, AfterFailure;
    Extend(calls, Allowed(k, t, t), k, limit);
    more := calls + [Allowed(k, t, t)];
    Extend(more, Failure(k, t), k, limit);
    more := more + [Failure(k, t)];
  }

  /** The first i of these, one after the other. */
  lemma {:induction false} SharpFailures(k: Key, limit: nat, i: nat) returns (calls: seq<Call>)
    requires limit > 0 && i <= 13
    ensures PossibleRun(calls, k, limit)
    ensures var s := Run(calls, k, limit);
            && s.failures == SharpTimes(i) && s.pending == 0 && s.now <= SharpTime(i)
            && s.records == SharpRecords(k, i)
  {
    hide AllowedAnswer, AfterAllowed, AfterFailure, SharpRecord;
    calls := [];
    if i > 0 {
      calls := SharpFailures(k, limit, i - 1);
      SharpStep(k, i - 1);
      calls := FailAtOnce(calls, k, limit, SharpTime(i - 1));
    }
  }

  /** Then n attempts are let through before any of them ends. */
  lemma {:induction false} ManyLetThrough(k: Key, limit: nat, n: nat) returns (calls: seq<Call>)
    requires 0 < limit && n <= limit
    ensures PossibleRun(calls, k, limit)
    ensures var s := Run(calls, k, limit);
            && s.failures == SharpTimes(13) && s.pending == n && s.now <= SharpTime(13)
            && s.records == map[k := SharpRecord(13)]
  {
    var t := SharpTime(13);
    if n == 0 {
      calls := SharpFailures(k, limit, 13);
    } else {
      calls := ManyLetThrough(k, limit, n - 1);
      Extend(calls, Allowed(k, t, t), k, limit);
      calls := calls + [Allowed(k, t, t)];
    }
  }

  /** And n of them fail. */
  lemma {:induction false} ManyFail(k: Key, limit: nat, n: nat) returns (calls: seq<Call>)
    requires 0 < limit && n <= limit
    ensures PossibleRun(calls, k, limit)
    ensures var s := Run(calls, k, limit);
            s.failures == SharpTimes(13 + n) && s.pending == limit - n && s.now <= SharpTime(13)
  {
    var t := SharpTime(13);
    if n == 0 {
      calls := ManyLetThrough(k, limit, limit);
    } else {
      calls := ManyFail(k, limit, n - 1);
      Extend(calls, Failure(k, t), k, limit);
      calls := calls + [Failure(k, t)];
    }
  }

  lemma SharpCount(n: nat)
    requires n > 0
    ensures |Within(SharpTimes(13 + n), LOGIN_FAIL_WINDOW, 2 * LOGIN_FAIL_WINDOW)| == n + 8
  {
    Sets.RangeSize(Within(SharpTimes(13 + n), LOGIN_FAIL_WINDOW, 2 * LOGIN_FAIL_WINDOW), 5, n + 8);
  }

  /** The bound is sharp for every limit: some run has `limit` + 8 failures within one window. */
  lemma BoundIsReached(k: Key, limit: nat) returns (calls: seq<Call>)
    requires limit > 0
    ensures PossibleRun(calls, k, limit)
    ensures |Within(Run(calls, k, limit).failures, LOGIN_FAIL_WINDOW, 2 * LOGIN_FAIL_WINDOW)| == limit + 8
  {
    calls := ManyFail(k, limit, limit);
    SharpCount(limit);
  }

  // ---------- logins one after the other ----------

  /** Attempts made one after the other on a clock that never goes back. */
  predicate Serial(run: seq<Attempt>, now: Time) {
    run == [] || (now <= run[0].at <= run[0].failAt && Serial(run[1..], run[0].failAt))
  }

  /** The instants at which key k failed since its last success, h being those before the run. */
  function Failures(h: seq<Time>, m: Records, run: seq<Attempt>, k: Key): seq<Time>
    decreases run
  {
    if run == [] then h else Failures(Recorded(h, m, run[0], k), AfterLogin(m, run[0]), run[1..], k)
  }

  function Recorded(h: seq<Time>, m: Records, a: Attempt, k: Key): seq<Time> {
    if a.key != k then h
    else
      match LoginStatus(m, a)
      case TooManyRequests(_) => h
      case Unauthorized => h + [a.failAt]
      case LoggedIn => []
  }

  /** A whole login is one attempt that ends before the next begins. */
  lemma OneLogin(calls: seq<Call>, a: Attempt, k: Key) returns (more: seq<Call>)
    requires PossibleRun(calls, k, 1) && Run(calls, k, 1).pending == 0 && Run(calls, k, 1).now <= a.at <= a.failAt
    ensures PossibleRun(more, k, 1)
    ensures var s, t := Run(calls, k, 1), Run(more, k, 1);
            && t.records == AfterLogin(s.records, a) && t.failures == Recorded(s.failures, s.records, a, k)
            && t.pending == 0 && t.now <= a.failAt
  {
    hide AfterAllowed, AfterFailure, AfterSuccess, AllowedAnswer;
    var s := Run(calls, k, 1);
    Extend(calls, Allowed(a.key, a.at, a.later), k, 1);
    more := calls + [Allowed(a.key, a.at, a.later)];
    match LoginStatus(s.records, a) {
      case TooManyRequests(_) =>
      case Unauthorized =>
        Extend(more, Failure(a.key, a.failAt), k, 1);
        more := more + [Failure(a.key, a.failAt)];
      case LoggedIn =>
        Extend(more, Success(a.key), k, 1);
        more := more + [Success(a.key)];
    }
  }

  lemma {:induction false} SerialIsOverlap(calls: seq<Call>, run: seq<Attempt>, k: Key, now: Time)
    returns (more: seq<Call>)
    requires PossibleRun(calls, k, 1) && Run(calls, k, 1).pending == 0
    requires Run(calls, k, 1).now <= now && Serial(run, now)
    ensures PossibleRun(more, k, 1)
    ensures Run(more, k, 1).failures == Failures(Run(calls, k, 1).failures, Run(calls, k, 1).records, run, k)
    decreases run
  {
    if run == [] {
      more := calls;
    } else {
      var next := OneLogin(calls, run[0], k);
      more := SerialIsOverlap(next, run[1..], k, run[0].failAt);
    }
  }

  lemma NoCalls(k: Key)
    ensures PossibleRun([], k, 1) && Run([], k, 1) == START
  {
  }

  /**
    * Whatever serial logins are made, by whatever keys, an interval of `windows` counting windows holds at most
    * nine failures per window of a key since its last success.
    */
  lemma ThrottleBound(run: seq<Attempt>, k: Key, lo: Time, windows: nat)
    requires Serial(run, 0)
    ensures |Within(Failures([], map[], run, k), lo, lo + windows * LOGIN_FAIL_WINDOW)| <= windows * 9
  {
    hide Failures, Within, PossibleRun, Run, Serial;
    NoCalls(k);
    var calls := SerialIsOverlap([], run, k, 0);
    OverlapBound(calls, k, 1, lo, windows);
  }

  /** A wrong password for k at instant t. */
  function Wrong(k: Key, t: Time): Attempt {
    Attempt(k, false, t, t, t)
  }

  /** The records a single key goes through when every instant of ts is a failure. */
  ghost predicate Passes(rs: seq<Record>, ts: seq<Time>) {
    && |rs| == |ts| + 1
    && forall i :: 0 <= i < |ts| ==> rs[i].lockedTill <= ts[i] && rs[i + 1] == Failed(rs[i], ts[i])
  }

  lemma {:induction false} WrongRun(h: seq<Time>, k: Key, rs: seq<Record>, ts: seq<Time>, run: seq<Attempt>)
    requires Passes(rs, ts) && run == seq(|ts|, i requires 0 <= i < |ts| => Wrong(k, ts[i]))
    ensures Failures(h, map[k := rs[0]], run, k) == h + ts
    decreases |ts|
  {
    if ts != [] {
      var m := map[k := rs[0]];
      assert AfterLogin(m, run[0]) == map[k := rs[1]];
      WrongRun(h + [ts[0]], k, rs[1..], ts[1..], run[1..]);
      assert h + [ts[0]] + ts[1..] == h + ts;
    }
  }

  lemma SharpPasses() returns (rs: seq<Record>)
    ensures Passes(rs, SharpTimes(14)) && rs[0] == Record(0, 0, 0)
  {
    rs := seq(15, i requires 0 <= i < 15 => SharpRecord(i));
  }

  /** The bound is sharp: after a lock, four failures as it ends and five just later make nine in one window. */
  lemma NineIsReached(k: Key) returns (run: seq<Attempt>)
    ensures Serial(run, 0)
    ensures |Within(Failures([], map[], run, k), LOGIN_FAIL_WINDOW, 2 * LOGIN_FAIL_WINDOW)| == 9
  {
    var rs := SharpPasses();
    run := seq(14, i requires 0 <= i < 14 => Wrong(k, SharpTimes(14)[i]));
    OrderedIsSerial(k, SharpTimes(14), run, 0);
    FirstWrong(k, rs, SharpTimes(14), run);
    SharpCount(1);
  }

  /** From an empty table: the first failure makes the record. */
  lemma FirstWrong(k: Key, rs: seq<Record>, ts: seq<Time>, run: seq<Attempt>)
    requires Passes(rs, ts) && ts != [] && rs[0] == Record(0, ts[0], 0)
    requires run == seq(|ts|, i requires 0 <= i < |ts| => Wrong(k, ts[i]))
    ensures Failures([], map[], run, k) == ts
  {
    assert run[0] == Wrong(k, ts[0]) && LoginStatus(map[], run[0]) == Unauthorized;
    assert AfterLogin(map[], run[0]) == map[k := rs[1]];
    assert Recorded([], map[], run[0], k) == [ts[0]];
    WrongRun([ts[0]], k, rs[1..], ts[1..], run[1..]);
    assert [ts[0]] + ts[1..] == ts;
  }

  lemma {:induction false} OrderedIsSerial(k: Key, ts: seq<Time>, run: seq<Attempt>, now: Time)
    requires forall i, j :: 0 <= i < j < |ts| ==> ts[i] <= ts[j]
    requires ts == [] || now <= ts[0]
    requires run == seq(|ts|, i requires 0 <= i < |ts| => Wrong(k, ts[i]))
    ensures Serial(run, now)
    decreases |ts|
  {
    if ts != [] {
      OrderedIsSerial(k, ts[1..], run[1..], ts[0]);
    }
  }
}
