/** Relay requests at once: a handler marks its choice some time after it has chosen, and others choose in between. */
module RelayOverlap {
  import opened GoTime
  import opened Relay
  import Sets

  /** A session, never the same for two logins. */
  type Ref = nat

  /** Handler w chooses a session, and later marks it as used. */
  datatype Event =
    | Login(s: Ref, at: Time, back: nat)
    | Select(w: nat, eligible: set<Ref>, s: Ref, at: Time)
    | Mark(w: nat, at: Time)

  /** The relay times, and the choices not yet marked. */
  datatype State = State(times: map<Ref, int>, chosen: map<nat, Ref>)

  ghost predicate Fits(st: State, e: Event, limit: nat) {
    match e
    case Login(s, _, back) => s !in st.times && back >= IDLE_TIME
    case Select(w, eligible, s, at) => w < limit && w !in st.chosen && GoodChoice(st.times, eligible, s, at)
    case Mark(w, _) => w in st.chosen
  }

  function Next(st: State, e: Event): State
    requires e.Mark? ==> e.w in st.chosen
  {
    match e
    case Login(s, at, back) => st.(times := st.times[s := at - back])
    case Select(w, _, s, _) => st.(chosen := st.chosen[w := s])
    case Mark(w, at) => State(st.times[st.chosen[w] := at], st.chosen - {w})
  }

  /** A run of at most `limit` handlers at once, on a strictly increasing clock. */
  ghost predicate Possible(run: seq<Event>, limit: nat)
    decreases |run|, 0
  {
    run == []
    || (Possible(run[..|run| - 1], limit) && Fits(Run(run[..|run| - 1], limit), run[|run| - 1], limit)
        && forall i :: 0 <= i < |run| - 1 ==> run[i].at < run[|run| - 1].at)
  }

  ghost function Run(run: seq<Event>, limit: nat): State
    requires Possible(run, limit)
    decreases |run|, 1
  {
    if run == [] then State(map[], map[]) else Next(Run(run[..|run| - 1], limit), run[|run| - 1])
  }

  /** The last event marks x. */
  ghost predicate Marks(run: seq<Event>, limit: nat, x: Ref)
    requires Possible(run, limit) && run != []
  {
    run[|run| - 1].Mark? && Run(run[..|run| - 1], limit).chosen[run[|run| - 1].w] == x
  }

  /** How often x is marked from the a-th event on. */
  ghost function Count(run: seq<Event>, limit: nat, a: nat, x: Ref): nat
    requires Possible(run, limit) && a <= |run|
    decreases |run|
  {
    if |run| == a then 0 else Count(run[..|run| - 1], limit, a, x) + if Marks(run, limit, x) then 1 else 0
  }

  /** From the a-th event on s is marked, and r not since then. */
  ghost predicate Ahead(run: seq<Event>, limit: nat, a: nat, s: Ref, r: Ref)
    requires Possible(run, limit) && a <= |run|
    decreases |run|
  {
    |run| > a && (Marks(run, limit, s) || (!Marks(run, limit, r) && Ahead(run[..|run| - 1], limit, a, s, r)))
  }

  /** From the a-th event on the requests share one set of eligible sessions, and less than half an hour passes. */
  ghost predicate ShortWindow(run: seq<Event>, a: nat, eligible: set<Ref>) {
    && a <= |run|
    && (forall i :: a <= i < |run| && run[i].Select? ==> run[i].eligible == eligible)
    && (forall i, j :: a <= i < j < |run| ==> run[j].at - run[i].at < IDLE_TIME)
  }

  // ---------- the bound ----------

  /** The handlers that have chosen s and not marked it yet. */
  ghost function Pending(chosen: map<nat, Ref>, s: Ref): set<nat> {
    set w | w in chosen && chosen[w] == s
  }

  function Product(m: nat, n: nat): nat {
    m * n
  }

  /** While s is ahead, those who chose it before may still mark it; once r is marked s has no such credit. */
  predicate Balanced(ahead: bool, mine: nat, other: nat, pending: nat, limit: nat) {
    if ahead then mine + pending <= Product(limit, other + 1) else mine <= Product(limit, other)
  }

  ghost predicate Bounded(run: seq<Event>, limit: nat, a: nat, s: Ref, r: Ref)
    requires Possible(run, limit) && a <= |run|
  {
    Balanced(Ahead(run, limit, a, s, r), Count(run, limit, a, s), Count(run, limit, a, r),
             |Pending(Run(run, limit).chosen, s)|, limit)
  }

  /** s was used in the window, and r before that. */
  ghost predicate Newer(run: seq<Event>, st: State, a: nat, s: Ref, r: Ref) {
    && s in st.times && (r in st.times ==> st.times[r] < st.times[s])
    && exists i :: a <= i < |run| && run[i].at == st.times[s]
  }

  lemma {:induction false} HandlersAreFew(run: seq<Event>, limit: nat)
    requires Possible(run, limit)
    ensures forall w :: w in Run(run, limit).chosen ==> w < limit
  {
    if run != [] {
      HandlersAreFew(run[..|run| - 1], limit);
    }
  }

  lemma {:induction false} TimesArePast(run: seq<Event>, limit: nat, t: int)
    requires Possible(run, limit) && forall i :: 0 <= i < |run| ==> run[i].at < t
    ensures forall q :: q in Run(run, limit).times ==> Run(run, limit).times[q] < t
  {
    if run != [] {
      TimesArePast(run[..|run| - 1], limit, t);
    }
  }

  lemma PendingFits(run: seq<Event>, limit: nat, s: Ref)
    requires Possible(run, limit)
    ensures |Pending(Run(run, limit).chosen, s)| <= limit
  {
    HandlersAreFew(run, limit);
    Sets.NarrowSet(Pending(Run(run, limit).chosen, s), 0, limit);
  }

  /** A session that was used after another, and within the window, is not chosen before it. */
  lemma AheadWaits(run: seq<Event>, st: State, a: nat, e: Event, eligible: set<Ref>, s: Ref, r: Ref, limit: nat)
    requires Newer(run, st, a, s, r) && ShortWindow(run + [e], a, eligible)
    requires e.Select? && e.eligible == eligible && Fits(st, e, limit) && s in eligible && r in eligible
    ensures e.s != s
  {
    var i :| a <= i < |run| && run[i].at == st.times[s];
    assert (run + [e])[i] == run[i] && (run + [e])[|run|] == e;
    assert e.at - run[i].at < IDLE_TIME;
  }

  lemma PendingMore(chosen: map<nat, Ref>, w: nat, t: Ref, s: Ref)
    requires w !in chosen
    ensures |Pending(chosen[w := t], s)| == |Pending(chosen, s)| + if t == s then 1 else 0
  {
    assert w !in Pending(chosen, s);
    assert Pending(chosen[w := t], s) == Pending(chosen, s) + if t == s then {w} else {};
  }

  lemma PendingLess(chosen: map<nat, Ref>, w: nat, s: Ref)
    requires w in chosen
    ensures |Pending(chosen, s)| == |Pending(chosen - {w}, s)| + if chosen[w] == s then 1 else 0
  {
    assert w !in Pending(chosen - {w}, s);
    assert Pending(chosen, s) == Pending(chosen - {w}, s) + if chosen[w] == s then {w} else {};
  }

  lemma PendingStep(st: State, e: Event, s: Ref, limit: nat)
    requires Fits(st, e, limit)
    ensures |Pending(Next(st, e).chosen, s)| + (if e.Mark? && st.chosen[e.w] == s then 1 else 0)
         == |Pending(st.chosen, s)| + (if e.Select? && e.s == s then 1 else 0)
  {
    hide GoodChoice, Pending;
    match e {
      case Login(_, _, _) =>
      case Select(w, _, t, _) => PendingMore(st.chosen, w, t, s);
      case Mark(w, _) => PendingLess(st.chosen, w, s);
    }
  }

  lemma StaysNewer(run: seq<Event>, st: State, a: nat, e: Event, s: Ref, r: Ref, limit: nat)
    requires Newer(run, st, a, s, r) && Fits(st, e, limit) && s != r
    requires forall i :: a <= i < |run| ==> e.at - run[i].at < IDLE_TIME
    requires e.Mark? ==> st.chosen[e.w] != s && st.chosen[e.w] != r
    ensures Newer(run + [e], Next(st, e), a, s, r)
  {
    var i :| a <= i < |run| && run[i].at == st.times[s];
    assert (run + [e])[i] == run[i];
  }

  lemma MarkedIsNewer(run: seq<Event>, limit: nat, a: nat, e: Event, s: Ref, r: Ref)
    requires Possible(run, limit) && Fits(Run(run, limit), e, limit) && a <= |run| && s != r
    requires e.Mark? && Run(run, limit).chosen[e.w] == s && forall i :: 0 <= i < |run| ==> run[i].at < e.at
    ensures Newer(run + [e], Next(Run(run, limit), e), a, s, r)
  {
    TimesArePast(run, limit, e.at);
    assert (run + [e])[|run|].at == e.at;
  }

  lemma {:induction false} AheadIsNewer(run: seq<Event>, limit: nat, a: nat, eligible: set<Ref>, s: Ref, r: Ref)
    requires Possible(run, limit) && ShortWindow(run, a, eligible) && s != r && Ahead(run, limit, a, s, r)
    ensures Newer(run, Run(run, limit), a, s, r)
    decreases |run|
  {
    hide Newer;
    var init, e := run[..|run| - 1], run[|run| - 1];
    assert run == init + [e];
    if Marks(run, limit, s) {
      MarkedIsNewer(init, limit, a, e, s, r);
    } else {
      AheadIsNewer(init, limit, a, eligible, s, r);
      StaysNewer(init, Run(init, limit), a, e, s, r, limit);
    }
  }

  /** A session that is ahead is not chosen. */
  lemma AheadIsNotChosen(run: seq<Event>, limit: nat, a: nat, eligible: set<Ref>, s: Ref, r: Ref)
    requires Possible(run, limit) && ShortWindow(run, a, eligible) && s in eligible && r in eligible && s != r
    requires |run| > a && Ahead(run[..|run| - 1], limit, a, s, r) && run[|run| - 1].Select?
    ensures run[|run| - 1].s != s
  {
    hide Ahead;
    var init, e := run[..|run| - 1], run[|run| - 1];
    assert run == init + [e];
    AheadIsNewer(init, limit, a, eligible, s, r);
    hide Newer;
    AheadWaits(init, Run(init, limit), a, e, eligible, s, r, limit);
  }

  lemma BalanceKept(ahead: bool, mine: nat, other: nat, pending: nat, limit: nat)
    requires Balanced(ahead, mine, other, pending, limit) && pending <= limit
    ensures Balanced(false, mine, other + 1, pending, limit)
    ensures pending > 0 ==> Balanced(true, mine + 1, other, pending - 1, limit)
    ensures !ahead ==> Balanced(false, mine, other, pending + 1, limit)
  {
    hide Product;
    OneMore(limit, other);
  }

  lemma {:induction false} RunIsBounded(run: seq<Event>, limit: nat, a: nat, eligible: set<Ref>, s: Ref, r: Ref)
    requires Possible(run, limit) && ShortWindow(run, a, eligible) && s in eligible && r in eligible && s != r
    ensures Bounded(run, limit, a, s, r)
    decreases |run|
  {
    assert a <= |run|;
    hide Product, Pending, ShortWindow;
    if |run| == a {
      NothingYet(limit);
    } else {
      var init := run[..|run| - 1];
      WindowShrinks(run, a, eligible);
      RunIsBounded(init, limit, a, eligible, s, r);
      PendingFits(init, limit, s);
      PendingStep(Run(init, limit), run[|run| - 1], s, limit);
      BalanceKept(Ahead(init, limit, a, s, r), Count(init, limit, a, s), Count(init, limit, a, r),
                  |Pending(Run(init, limit).chosen, s)|, limit);
      if Ahead(init, limit, a, s, r) && run[|run| - 1].Select? {
        AheadIsNotChosen(run, limit, a, eligible, s, r);
      }
      hide Fits, Next;
    }
  }

  lemma WindowShrinks(run: seq<Event>, a: nat, eligible: set<Ref>)
    requires ShortWindow(run, a, eligible) && |run| > a
    ensures ShortWindow(run[..|run| - 1], a, eligible)
  {
  }

  lemma NothingYet(limit: nat)
    ensures Product(limit, 0) == 0
  {
  }

  lemma OneMore(m: nat, n: nat)
    ensures Product(m, n + 1) == Product(m, n) + m
  {
  }

  /**
    * With at most `limit` handlers between choice and mark, over less than half an hour with fixed eligible sessions:
    * a session is used at most `limit` times as often as another, and `limit` more.
    */
  lemma OverlapBound(run: seq<Event>, limit: nat, a: nat, eligible: set<Ref>, s: Ref, r: Ref)
    requires Possible(run, limit) && ShortWindow(run, a, eligible) && s in eligible && r in eligible && s != r
    ensures Count(run, limit, a, s) <= limit * (Count(run, limit, a, r) + 1)
  {
    RunIsBounded(run, limit, a, eligible, s, r);
    OneMore(limit, Count(run, limit, a, r));
  }

  // ---------- the bound is reached ----------

  /** Sessions 0 and 1 have logged in, and since then one event has happened each nanosecond. */
  ghost predicate Sample(run: seq<Event>, limit: nat) {
    && Possible(run, limit) && |run| >= 2
    && (forall i :: 0 <= i < |run| ==> run[i].at == i && (run[i].Select? ==> run[i].eligible == {0, 1}))
    && Run(run, limit).times.Keys == {0, 1}
  }

  lemma Extend(run: seq<Event>, limit: nat, e: Event)
    requires Sample(run, limit) && Fits(Run(run, limit), e, limit) && e.at == |run| && !e.Login?
    requires e.Select? ==> e.eligible == {0, 1}
    requires e.Mark? ==> Run(run, limit).chosen[e.w] == 0 || Run(run, limit).chosen[e.w] == 1
    ensures Sample(run + [e], limit) && Run(run + [e], limit) == Next(Run(run, limit), e)
    ensures forall x ::
      Count(run + [e], limit, 2, x)
        == Count(run, limit, 2, x) + if e.Mark? && Run(run, limit).chosen[e.w] == x then 1 else 0
  {
    assert (run + [e])[..|run|] == run;
  }

  lemma Start(limit: nat) returns (run: seq<Event>)
    ensures Sample(run, limit) && |run| == 2
    ensures var st := Run(run, limit); st.chosen == map[] && st.times[0] < st.times[1]
  {
    var first, second := Login(0, 0, IDLE_TIME), Login(1, 1, IDLE_TIME);
    OneMoreEvent([], limit, first);
    OneMoreEvent([] + [first], limit, second);
    run := [] + [first] + [second];
  }

  lemma OneMoreEvent(run: seq<Event>, limit: nat, e: Event)
    requires Possible(run, limit) && Fits(Run(run, limit), e, limit) && forall i :: 0 <= i < |run| ==> run[i].at < e.at
    ensures Possible(run + [e], limit) && Run(run + [e], limit) == Next(Run(run, limit), e)
  {
    assert (run + [e])[..|run|] == run;
  }

  /** Handlers 0 to k-1 all choose the session that was used least recently. */
  lemma {:induction false} AllChoose(run: seq<Event>, limit: nat, s: Ref, k: nat) returns (more: seq<Event>)
    requires Sample(run, limit) && k <= limit && s < 2
    requires Run(run, limit).chosen == map[] && Run(run, limit).times[s] < Run(run, limit).times[1 - s]
    ensures Sample(more, limit) && |more| == |run| + k && Run(more, limit).times == Run(run, limit).times
    ensures forall w :: w in Run(more, limit).chosen <==> 0 <= w < k
    ensures forall w :: w in Run(more, limit).chosen ==> Run(more, limit).chosen[w] == s
    ensures forall x :: Count(more, limit, 2, x) == Count(run, limit, 2, x)
  {
    more := run;
    if k > 0 {
      more := AllChoose(run, limit, s, k - 1);
      var e := Select(k - 1, {0, 1}, s, |more|);
      Extend(more, limit, e);
      more := more + [e];
    }
  }

  /** Handlers k-1 down to 0 all mark it. */
  lemma {:induction false} AllMark(run: seq<Event>, limit: nat, s: Ref, k: nat) returns (more: seq<Event>)
    requires Sample(run, limit) && s < 2
    requires forall w :: w in Run(run, limit).chosen <==> 0 <= w < k
    requires forall w :: w in Run(run, limit).chosen ==> Run(run, limit).chosen[w] == s
    ensures Sample(more, limit) && |more| == |run| + k && Run(more, limit).chosen == map[]
    ensures Run(more, limit).times == if k == 0 then Run(run, limit).times else Run(run, limit).times[s := |more| - 1]
    ensures forall x :: Count(more, limit, 2, x) == Count(run, limit, 2, x) + if x == s then k else 0
    decreases k
  {
    more := run;
    if k > 0 {
      var e := Mark(k - 1, |run|);
      Extend(run, limit, e);
      more := AllMark(run + [e], limit, s, k - 1);
    }
  }

  /** k handlers use session s at once. */
  lemma UseAtOnce(run: seq<Event>, limit: nat, s: Ref, k: nat) returns (more: seq<Event>)
    requires Sample(run, limit) && 0 < k <= limit && s < 2
    requires Run(run, limit).chosen == map[] && Run(run, limit).times[s] < Run(run, limit).times[1 - s]
    ensures Sample(more, limit) && |more| == |run| + 2 * k && Run(more, limit).chosen == map[]
    ensures Run(more, limit).times[1 - s] < Run(more, limit).times[s]
    ensures forall x :: Count(more, limit, 2, x) == Count(run, limit, 2, x) + if x == s then k else 0
  {
    var chosen := AllChoose(run, limit, s, k);
    more := AllMark(chosen, limit, s, k);
    TimesArePast(run, limit, |run|);
  }

  lemma NoRounds(limit: nat)
    ensures Product(limit, 0) == 0 && Product(2 * limit + 2, 0) == 0
  {
  }

  lemma NoneCounted(run: seq<Event>, limit: nat)
    requires Possible(run, limit) && |run| == 2
    ensures forall x :: Count(run, limit, 2, x) == 0
  {
  }

  /** In each of n rounds all handlers use session 0 at once, and then one uses session 1. */
  lemma {:induction false} Rounds(limit: nat, n: nat) returns (run: seq<Event>)
    requires limit > 0
    ensures Sample(run, limit) && |run| == 2 + Product(2 * limit + 2, n)
    ensures Run(run, limit).chosen == map[] && Run(run, limit).times[0] < Run(run, limit).times[1]
    ensures Count(run, limit, 2, 0) == Product(limit, n) && Count(run, limit, 2, 1) == n
  {
    hide Product, Sample, Run, Count;
    if n == 0 {
      run := Start(limit);
      NoRounds(limit);
      NoneCounted(run, limit);
    } else {
      run := Rounds(limit, n - 1);
      OneMore(limit, n - 1);
      OneMore(2 * limit + 2, n - 1);
      run := UseAtOnce(run, limit, 0, limit);
      run := UseAtOnce(run, limit, 1, 1);
    }
  }

  /** The bound is sharp, for any numbers of handlers and of uses that half an hour has room for. */
  lemma BoundIsReached(limit: nat, n: nat) returns (run: seq<Event>)
    requires limit > 0 && 2 + (n + 1) * (2 * limit + 2) <= IDLE_TIME
    ensures Possible(run, limit) && ShortWindow(run, 2, {0, 1})
    ensures Count(run, limit, 2, 1) == n && Count(run, limit, 2, 0) == limit * (n + 1)
  {
    run := Rounds(limit, n);
    OneMore(limit, n);
    OneMore(2 * limit + 2, n);
    run := UseAtOnce(run, limit, 0, limit);
  }
}
