/** The registry of sessions over a run of logins, clean-ups and relay requests: its picks are fair. */
module RelayRuns {
  import opened GoTime
  import opened Protocol
  import opened Relay
  import opened RelayFairness

  /** A session in the registry, and when it last served as a relay. */
  datatype Entry = Entry(session: Ref, relayTime: int)

  type Online = map<NodeId, Entry>

  datatype Step =
    | LoginStep(id: NodeId, session: Ref, at: Time, back: nat)
    | CleanupStep(id: NodeId, session: Ref)
    | PickStep(eligible: set<NodeId>, id: NodeId, at: Time)

  /** The registry, and the logins and picks that led to it. */
  datatype System = System(online: Online, log: seq<Event>)

  function RelayTimesOf(online: Online): map<NodeId, int> {
    map id | id in online :: online[id].relayTime
  }

  function SessionsOf(online: Online, ids: set<NodeId>): set<Ref>
    requires ids <= online.Keys
  {
    set id | id in ids :: online[id].session
  }

  /** The session is new, or the choice is the one the handler of a relay request promises; the clock moves on. */
  ghost predicate Possible(s: System, step: Step) {
    match step
    case LoginStep(_, session, at, back) =>
      back >= IDLE_TIME && forall i :: 0 <= i < |s.log| ==> s.log[i].at < at && s.log[i].s != session
    case CleanupStep(_, _) => true
    case PickStep(eligible, id, at) =>
      GoodChoice(RelayTimesOf(s.online), eligible, id, at) && forall i :: 0 <= i < |s.log| ==> s.log[i].at < at
  }

  /** A login replaces whatever session its node had; a clean-up removes a session unless it was replaced. */
  function Next(s: System, step: Step): System
    requires step.PickStep? ==> step.id in s.online && step.eligible <= s.online.Keys
  {
    match step
    case LoginStep(id, session, at, back) =>
      System(s.online[id := Entry(session, at - back)], s.log + [Login(session, at, back)])
    case CleanupStep(id, session) =>
      if id in s.online && s.online[id].session == session then s.(online := s.online - {id}) else s
    case PickStep(eligible, id, at) =>
      System(s.online[id := s.online[id].(relayTime := at)],
             s.log + [Pick(SessionsOf(s.online, eligible), s.online[id].session, at)])
  }

  ghost predicate PossibleRun(steps: seq<Step>)
    decreases |steps|, 0
  {
    steps == []
    || (PossibleRun(steps[..|steps| - 1]) && Possible(Run(steps[..|steps| - 1]), steps[|steps| - 1]))
  }

  ghost function Run(steps: seq<Step>): System
    requires PossibleRun(steps)
    decreases |steps|, 1
  {
    if steps == [] then System(map[], []) else Next(Run(steps[..|steps| - 1]), steps[|steps| - 1])
  }

  /** No session is online twice, and the log knows each with the relay time the registry holds. */
  ghost predicate Agrees(online: Online, times: map<Ref, int>) {
    && (forall id :: id in online ==> online[id].session in times && times[online[id].session] == online[id].relayTime)
    && (forall id, other :: id in online && other in online && id != other ==>
          online[id].session != online[other].session)
  }

  ghost predicate Invariant(s: System) {
    GoodRun(s.log) && Agrees(s.online, Times(s.log, |s.log|))
  }

  lemma {:induction false} TimesOfPrefix(run: seq<Event>, e: Event, n: nat)
    requires n <= |run|
    ensures Times(run + [e], n) == Times(run, n)
  {
    if n > 0 {
      TimesOfPrefix(run, e, n - 1);
    }
  }

  lemma OneMoreEvent(run: seq<Event>, e: Event)
    requires GoodRun(run) && forall i :: 0 <= i < |run| ==> run[i].at < e.at
    requires e.Pick? ==> GoodPick(Times(run, |run|), e)
    requires e.Login? ==> e.s !in Times(run, |run|) && e.back >= IDLE_TIME
    ensures GoodRun(run + [e])
    ensures Times(run + [e], |run| + 1) == Times(run, |run|)[e.s := if e.Login? then e.at - e.back else e.at]
  {
    hide GoodPick;
    var more := run + [e];
    TimesOfPrefix(run, e, |run|);
    forall i | 0 <= i < |more| ensures GoodEvent(more, i) {
      if i < |run| {
        TimesOfPrefix(run, e, i);
        assert GoodEvent(run, i);
      }
    }
  }

  /** A good choice among the nodes is a good choice among their sessions. */
  lemma PickIsGood(online: Online, times: map<Ref, int>, eligible: set<NodeId>, id: NodeId, at: Time)
    requires Agrees(online, times) && GoodChoice(RelayTimesOf(online), eligible, id, at)
    ensures GoodPick(times, Pick(SessionsOf(online, eligible), online[id].session, at))
  {
  }

  lemma StepKeepsInvariant(s: System, step: Step)
    requires Invariant(s) && Possible(s, step)
    ensures Invariant(Next(s, step))
  {
    hide GoodRun, GoodPick, Times;
    match step {
      case LoginStep(id, session, at, back) =>
        if session in Times(s.log, |s.log|) {
          var k := LastTouch(s.log, |s.log|, session);
        }
        OneMoreEvent(s.log, Login(session, at, back));
      case CleanupStep(_, _) =>
      case PickStep(eligible, id, at) =>
        PickIsGood(s.online, Times(s.log, |s.log|), eligible, id, at);
        OneMoreEvent(s.log, Pick(SessionsOf(s.online, eligible), s.online[id].session, at));
    }
  }

  /** Whatever the logins, replacements and clean-ups, the picks of the handler make a good run. */
  lemma {:induction false} RunIsGood(steps: seq<Step>)
    requires PossibleRun(steps)
    ensures Invariant(Run(steps))
  {
    if steps == [] {
      assert Run(steps) == System(map[], []);
    } else {
      RunIsGood(steps[..|steps| - 1]);
      StepKeepsInvariant(Run(steps[..|steps| - 1]), steps[|steps| - 1]);
    }
  }

  /** So over any run of the registry picks are balanced in a short window with fixed eligible sessions. */
  lemma RegistryPicksAreBalanced(steps: seq<Step>, a: nat, b: nat, eligible: set<Ref>, s: Ref, r: Ref)
    requires PossibleRun(steps) && ShortWindow(Run(steps).log, a, b, eligible) && s in eligible && r in eligible
    ensures -1 <= Picks(Run(steps).log, a, b, s) - Picks(Run(steps).log, a, b, r) <= 1
  {
    RunIsGood(steps);
    PicksAreBalanced(Run(steps).log, a, b, eligible, s, r);
  }
}
