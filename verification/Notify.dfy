/** The queue of nodes that came online (notify.go): producers look at its length, and send a moment later. */
module Notify {
  import Sets

  const CHAN_SIZE: nat := 100000
  const MARGIN: nat := 100

  /** The channel; what each producer is about to send; and all that was sent and received, in order. */
  datatype State = State(queue: seq<string>, sending: map<nat, string>, sent: seq<string>, received: seq<string>)

  /** A producer checks the length, a producer sends, or a consumer receives. */
  datatype Step = Check(w: nat, node: string) | Send(w: nat) | Receive

  /** There are `producers` producers, each doing one notification at a time; a send needs room in the channel. */
  predicate Enabled(s: State, step: Step, producers: nat) {
    match step
    case Check(w, _) => w < producers && w !in s.sending
    case Send(w) => w in s.sending && HasRoom(s)
    case Receive => s.queue != []
  }

  predicate HasRoom(s: State) {
    |s.queue| < CHAN_SIZE
  }

  function Next(s: State, step: Step, producers: nat): State
    requires Enabled(s, step, producers)
  {
    match step
    case Check(w, node) => if |s.queue| < CHAN_SIZE - MARGIN then s.(sending := s.sending[w := node]) else s
    case Send(w) => s.(queue := s.queue + [s.sending[w]], sent := s.sent + [s.sending[w]], sending := s.sending - {w})
    case Receive => s.(queue := s.queue[1..], received := s.received + [s.queue[0]])
  }

  const START: State := State([], map[], [], [])

  predicate Possible(steps: seq<Step>, producers: nat)
    decreases |steps|, 0
  {
    steps == []
    || (Possible(steps[..|steps| - 1], producers)
        && Enabled(Run(steps[..|steps| - 1], producers), steps[|steps| - 1], producers))
  }

  function Run(steps: seq<Step>, producers: nat): State
    requires Possible(steps, producers)
    decreases |steps|, 1
  {
    if steps == [] then START else Next(Run(steps[..|steps| - 1], producers), steps[|steps| - 1], producers)
  }

  // ---------- no send ever waits ----------

  ghost predicate Bounded(s: State, producers: nat) {
    && (forall w :: w in s.sending ==> w < producers)
    && |s.queue| + |s.sending| <= CHAN_SIZE - MARGIN - 1 + producers
    && s.sent == s.received + s.queue
  }

  lemma StepKeepsBound(s: State, step: Step, producers: nat)
    requires producers > 0 && Bounded(s, producers) && Enabled(s, step, producers)
    ensures Bounded(Next(s, step, producers), producers)
  {
    var t := Next(s, step, producers);
    match step {
      case Check(w, node) =>
        Sets.NarrowSet(t.sending.Keys, 0, producers);
        assert |t.sending| == |t.sending.Keys|;
        if |s.queue| < CHAN_SIZE - MARGIN {
          assert |t.sending| <= producers;
        }
      case Send(w) =>
        assert t.sending.Keys == s.sending.Keys - {w};
        assert |t.sending.Keys| == |s.sending.Keys| - 1;
        assert s.sent + [s.sending[w]] == s.received + (s.queue + [s.sending[w]]);
      case Receive =>
        assert s.received + s.queue == (s.received + [s.queue[0]]) + s.queue[1..];
    }
  }

  lemma {:induction false} RunIsBounded(steps: seq<Step>, producers: nat)
    requires producers > 0 && Possible(steps, producers)
    ensures Bounded(Run(steps, producers), producers)
  {
    if steps != [] {
      RunIsBounded(steps[..|steps| - 1], producers);
      StepKeepsBound(Run(steps[..|steps| - 1], producers), steps[|steps| - 1], producers);
    }
  }

  /**
    * With the gateway's handlers as producers: in every interleaving the queue and the sends under way never
    * exceed the bound, whoever has passed the check finds room, and what is sent is received in order, once.
    */
  lemma {:induction false} SendsNeverBlock(steps: seq<Step>)
    requires Possible(steps, 16)
    ensures var s := Run(steps, 16);
            && |s.queue| + |s.sending| <= 100_000 - 101 + 16
            && (s.sending != map[] ==> |s.queue| < 100_000)
            && s.sent == s.received + s.queue
  {
    RunIsBounded(steps, 16);
    var s := Run(steps, 16);
    if s.sending != map[] {
      var w :| w in s.sending;
      assert |s.sending.Keys| > 0;
    }
  }

  // ---------- how many producers the margin allows ----------

  lemma Extend(steps: seq<Step>, step: Step, producers: nat)
    requires Possible(steps, producers) && Enabled(Run(steps, producers), step, producers)
    ensures Possible(steps + [step], producers)
    ensures Run(steps + [step], producers) == Next(Run(steps, producers), step, producers)
  {
    assert (steps + [step])[..|steps|] == steps;
  }

  lemma {:induction false} Fill(n: nat, producers: nat) returns (steps: seq<Step>)
    requires n < CHAN_SIZE - MARGIN && producers > 0
    ensures Possible(steps, producers)
    ensures |Run(steps, producers).queue| == n && Run(steps, producers).sending == map[]
  {
    steps := [];
    if n > 0 {
      steps := Fill(n - 1, producers);
      Extend(steps, Check(0, ""), producers);
      Extend(steps + [Check(0, "")], Send(0), producers);
      steps := steps + [Check(0, "")] + [Send(0)];
    }
  }

  /** Producers 0 to n-1 pass the check while the queue is as long as the check allows. */
  lemma {:induction false} AllCheck(n: nat, producers: nat) returns (steps: seq<Step>)
    requires n <= producers && producers > 0
    ensures Possible(steps, producers)
    ensures |Run(steps, producers).queue| == CHAN_SIZE - MARGIN - 1
    ensures forall w: nat :: w in Run(steps, producers).sending <==> w < n
  {
    if n == 0 {
      steps := Fill(CHAN_SIZE - MARGIN - 1, producers);
    } else {
      steps := AllCheck(n - 1, producers);
      Extend(steps, Check(n - 1, ""), producers);
      steps := steps + [Check(n - 1, "")];
    }
  }

  lemma {:induction false} SomeSend(n: nat, producers: nat) returns (steps: seq<Step>)
    requires n <= MARGIN + 1 <= producers
    ensures Possible(steps, producers)
    ensures |Run(steps, producers).queue| == CHAN_SIZE - MARGIN - 1 + n
    ensures forall w :: w in Run(steps, producers).sending <==> n <= w < producers
  {
    if n == 0 {
      steps := AllCheck(producers, producers);
    } else {
      steps := SomeSend(n - 1, producers);
      Extend(steps, Send(n - 1), producers);
      steps := steps + [Send(n - 1)];
    }
  }

  ghost predicate NeverBlocks(producers: nat) {
    forall steps :: Possible(steps, producers) && Run(steps, producers).sending != map[] ==>
      HasRoom(Run(steps, producers))
  }

  /** The margin of the length check is enough for exactly up to 101 concurrent producers. */
  lemma MarginIsExact(producers: nat)
    requires producers > 0
    ensures NeverBlocks(producers) <==> producers <= 101
  {
    if producers <= MARGIN + 1 {
      forall steps | Possible(steps, producers) && Run(steps, producers).sending != map[]
        ensures HasRoom(Run(steps, producers))
      {
        RunIsBounded(steps, producers);
        var s := Run(steps, producers);
        var w :| w in s.sending;
        assert |s.sending.Keys| > 0;
      }
    } else {
      var steps := SomeSend(MARGIN + 1, producers);
      assert MARGIN + 1 in Run(steps, producers).sending;
    }
  }
}
