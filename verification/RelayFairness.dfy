/** Fairness of the relay choice over many requests. */
module RelayFairness {
  import opened GoTime
  import opened Relay

  /** A session, never the same for two logins. */
  type Ref = nat

  /**
    * Login sets a session's relay time `back` before the login; a request picks one of the sessions eligible
    * for it and sets its relay time to the instant of the pick.
    */
  datatype Event = Login(s: Ref, at: Time, back: nat) | Pick(eligible: set<Ref>, s: Ref, at: Time)

  /** The relay times after the first n events. */
  function Times(run: seq<Event>, n: nat): map<Ref, int>
    requires n <= |run|
  {
    if n == 0 then map[]
    else
      var e := run[n - 1];
      Times(run, n - 1)[e.s := if e.Login? then e.at - e.back else e.at]
  }

  /** What the handler of a relay request promises of its choice, at the instant of the pick. */
  ghost predicate GoodPick(times: map<Ref, int>, e: Event) {
    e.Pick? && GoodChoice(times, e.eligible, e.s, e.at)
  }

  ghost predicate GoodEvent(run: seq<Event>, i: nat)
    requires i < |run|
  {
    && (run[i].Pick? ==> GoodPick(Times(run, i), run[i]))
    && (run[i].Login? ==> run[i].s !in Times(run, i) && run[i].back >= IDLE_TIME)
  }

  /** A run on a strictly increasing clock; a login starts at least half an hour (really a day) in the past. */
  ghost predicate GoodRun(run: seq<Event>) {
    && (forall i, j :: 0 <= i < j < |run| ==> run[i].at < run[j].at)
    && (forall i :: 0 <= i < |run| ==> GoodEvent(run, i))
  }

  /** The last event that touched a session says what its relay time is. */
  lemma {:induction false} LastTouch(run: seq<Event>, n: nat, r: Ref) returns (k: nat)
    requires n <= |run| && r in Times(run, n)
    ensures k < n && run[k].s == r && forall j :: k < j < n ==> run[j].s != r
    ensures Times(run, n)[r] == if run[k].Login? then run[k].at - run[k].back else run[k].at
  {
    if run[n - 1].s == r {
      k := n - 1;
    } else {
      k := LastTouch(run, n - 1, r);
    }
  }

  lemma {:induction false} StaysKnown(run: seq<Event>, i: nat, n: nat)
    requires i < n <= |run|
    ensures run[i].s in Times(run, n)
  {
    if i < n - 1 {
      StaysKnown(run, i, n - 1);
    }
  }

  /** r is picked strictly between the i-th and the j-th event. */
  ghost predicate PickedBetween(run: seq<Event>, i: nat, j: nat, r: Ref) {
    exists k :: i < k < j <= |run| && run[k].Pick? && run[k].s == r
  }

  /**
    * If a session is picked twice less than half an hour apart, every other session eligible for the second
    * request is picked in between.
    */
  lemma EveryoneInBetween(run: seq<Event>, i: nat, j: nat, r: Ref)
    requires GoodRun(run) && i < j < |run| && run[i].Pick? && run[j].Pick? && run[i].s == run[j].s
    requires run[j].at - run[i].at < IDLE_TIME
    requires r in run[j].eligible && r != run[j].s
    ensures PickedBetween(run, i, j, r)
  {
    hide Times;
    assert GoodEvent(run, j);
    var last := LastTouch(run, j, run[j].s);
    var k := LastTouch(run, j, r);
    PickedNotLoggedIn(run, i, last);
    NotIdle(run, j, last, k, r);
    assert GoodEvent(run, k);
    assert run[last].at >= run[i].at;
    assert run[k].Pick? && k > last;
  }

  /** The pick at j was the least recently used, its last use being less than half an hour ago. */
  lemma NotIdle(run: seq<Event>, j: nat, last: nat, k: nat, r: Ref)
    requires GoodRun(run) && j < |run| && run[j].Pick? && r in run[j].eligible
    requires last < j && run[last].Pick? && run[j].s in Times(run, j) && r in Times(run, j)
    requires Times(run, j)[run[j].s] == run[last].at
    requires run[j].at - run[last].at < IDLE_TIME
    ensures run[last].at <= Times(run, j)[r]
  {
    hide Times;
    assert GoodEvent(run, j);
  }

  /** A session known already is never logged in again. */
  lemma PickedNotLoggedIn(run: seq<Event>, i: nat, k: nat)
    requires GoodRun(run) && i <= k < |run| && run[i].Pick? && run[k].s == run[i].s
    ensures run[k].Pick?
  {
    hide Times;
    if i < k {
      StaysKnown(run, i, k);
      assert GoodEvent(run, k);
    }
  }

  // ---------- counting ----------

  /** How often r is picked in the events from a up to b. */
  function Picks(run: seq<Event>, a: nat, b: nat, r: Ref): nat
    requires a <= b <= |run|
    decreases b
  {
    if a == b then 0
    else Picks(run, a, b - 1, r) + if run[b - 1].Pick? && run[b - 1].s == r then 1 else 0
  }

  lemma {:induction false} PicksGrow(run: seq<Event>, a: nat, b: nat, c: nat, r: Ref)
    requires a <= b <= c <= |run|
    ensures Picks(run, a, b, r) <= Picks(run, a, c, r)
    ensures b < c && PickedBetween(run, b, c, r) ==> Picks(run, a, b, r) + 1 <= Picks(run, a, c, r)
    decreases c
  {
    if b < c {
      PicksGrow(run, a, b, c - 1, r);
      if PickedBetween(run, b, c, r) {
        var k :| b < k < c && run[k].Pick? && run[k].s == r;
        assert k < c - 1 ==> PickedBetween(run, b, c - 1, r);
      }
    }
  }

  lemma {:induction false} LastPick(run: seq<Event>, a: nat, b: nat, r: Ref) returns (k: nat)
    requires a <= b <= |run| && Picks(run, a, b, r) > 0
    ensures a <= k < b && run[k].Pick? && run[k].s == r
    ensures Picks(run, a, b, r) == Picks(run, a, k, r) + 1
    decreases b
  {
    if run[b - 1].Pick? && run[b - 1].s == r {
      k := b - 1;
    } else {
      k := LastPick(run, a, b - 1, r);
    }
  }

  /** From a to b the requests share one set of eligible sessions, and less than half an hour passes. */
  ghost predicate ShortWindow(run: seq<Event>, a: nat, b: nat, eligible: set<Ref>) {
    && a <= b <= |run|
    && (forall i :: a <= i < b && run[i].Pick? ==> run[i].eligible == eligible)
    && (forall i, j :: a <= i < j < b ==> run[j].at - run[i].at < IDLE_TIME)
  }

  lemma {:induction false} AtEachPick(run: seq<Event>, a: nat, b: nat, eligible: set<Ref>, j: nat, r: Ref)
    requires GoodRun(run) && ShortWindow(run, a, b, eligible)
    requires a <= j < b && run[j].Pick? && r in eligible && r != run[j].s
    ensures Picks(run, a, j, run[j].s) <= Picks(run, a, j, r)
    decreases j
  {
    var s := run[j].s;
    if Picks(run, a, j, s) > 0 {
      var i := LastPick(run, a, j, s);
      AtEachPick(run, a, b, eligible, i, r);
      EveryoneInBetween(run, i, j, r);
      PicksGrow(run, a, i, j, r);
    }
  }

  /** In such a window the numbers of picks of any two eligible sessions differ by at most one. */
  lemma PicksAreBalanced(run: seq<Event>, a: nat, b: nat, eligible: set<Ref>, s: Ref, r: Ref)
    requires GoodRun(run) && ShortWindow(run, a, b, eligible) && s in eligible && r in eligible
    ensures -1 <= Picks(run, a, b, s) - Picks(run, a, b, r) <= 1
  {
    AheadByOne(run, a, b, eligible, s, r);
    AheadByOne(run, a, b, eligible, r, s);
  }

  lemma AheadByOne(run: seq<Event>, a: nat, b: nat, eligible: set<Ref>, s: Ref, r: Ref)
    requires GoodRun(run) && ShortWindow(run, a, b, eligible) && s in eligible && r in eligible
    ensures Picks(run, a, b, s) <= Picks(run, a, b, r) + 1
  {
    if s != r && Picks(run, a, b, s) > 0 {
      var j := LastPick(run, a, b, s);
      AtEachPick(run, a, b, eligible, j, r);
      PicksGrow(run, a, j, b, r);
    }
  }
}
