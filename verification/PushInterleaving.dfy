/** The permission table under every interleaving of the steps of its handlers, however many run at once. */
module PushInterleaving {
  import opened GoTime
  import opened Protocol
  import opened PushPermission
  import opened Results

  /** A connect request or peer query whose token was verified; it grants to both nodes. */
  datatype Verified = Verified(a: NodeId, b: NodeId, at: Time)

  /** A node disconnected, or a check found its permission expired. */
  datatype Reason = Disconnected | FoundExpired

  /** A write to the table. A grant is computed from a clock reading taken some time before it is stored. */
  datatype Write =
    | Store(key: NodeId, to: NodeId, readAt: Time, at: Time, cause: nat)
    | Delete(key: NodeId, at: Time, reason: Reason)

  datatype Worker =
    | Idle
    | Granting(cause: nat, todo: seq<(NodeId, NodeId)>)
    | Storing(cause: nat, todo: seq<(NodeId, NodeId)>, readAt: Time)
    | Checking(from: NodeId)
    | Loaded(from: NodeId, entry: Option<PushNodeInfo>, seen: nat)
    | Deleting(from: NodeId)

  /** The outcome of one permission check: the writes that preceded its load, and the clock it compared with. */
  datatype Decision = Decision(from: NodeId, seen: nat, at: Time, forwarded: bool)

  datatype State = State(
    now: Time,
    table: Table,
    workers: map<nat, Worker>,
    verified: seq<Verified>,
    writes: seq<Write>,
    decisions: seq<Decision>)

  datatype Step =
    | Tick(now: Time)
    | Verify(w: nat, a: NodeId, b: NodeId)
    | ReadClock(w: nat)
    | StoreNext(w: nat)
    | Finish(w: nat)
    | Begin(w: nat, from: NodeId)
    | Load(w: nat)
    | Decide(w: nat)
    | DeleteExpired(w: nat)
    | Disconnect(id: NodeId)

  function At(s: State, w: nat): Worker {
    if w in s.workers then s.workers[w] else Idle
  }

  predicate Enabled(s: State, step: Step) {
    match step
    case Tick(now) => s.now <= now
    case Verify(w, _, _) => At(s, w).Idle?
    case ReadClock(w) => At(s, w).Granting? && At(s, w).todo != []
    case StoreNext(w) => At(s, w).Storing? && At(s, w).todo != []
    case Finish(w) => At(s, w).Granting? && At(s, w).todo == []
    case Begin(w, _) => At(s, w).Idle?
    case Load(w) => At(s, w).Checking?
    case Decide(w) => At(s, w).Loaded?
    case DeleteExpired(w) => At(s, w).Deleting?
    case Disconnect(_) => true
  }

  function Lookup(t: Table, key: NodeId): Option<PushNodeInfo> {
    if key in t then Some(t[key]) else None
  }

  predicate Unexpired(entry: Option<PushNodeInfo>, now: Time) {
    entry.Some? && now < entry.value.expiredAt
  }

  function Goes(s: State, w: nat, worker: Worker): State {
    s.(workers := s.workers[w := worker])
  }

  function Next(s: State, step: Step): State
    requires Enabled(s, step)
  {
    match step
    case Tick(now) => s.(now := now)
    case Verify(w, a, b) =>
      Goes(s.(verified := s.verified + [Verified(a, b, s.now)]), w, Granting(|s.verified|, [(a, b), (b, a)]))
    case ReadClock(w) =>
      var p := At(s, w);
      Goes(s, w, Storing(p.cause, p.todo, s.now))
    case StoreNext(w) =>
      var p := At(s, w);
      var (key, to) := p.todo[0];
      Goes(s.(table := Put(s.table, key, to, p.readAt),
              writes := s.writes + [Store(key, to, p.readAt, s.now, p.cause)]),
           w, Granting(p.cause, p.todo[1..]))
    case Finish(w) => Goes(s, w, Idle)
    case Begin(w, from) => Goes(s, w, Checking(from))
    case Load(w) =>
      var from := At(s, w).from;
      Goes(s, w, Loaded(from, Lookup(s.table, from), |s.writes|))
    case Decide(w) =>
      var p := At(s, w);
      var ok := Unexpired(p.entry, s.now);
      Goes(s.(decisions := s.decisions + [Decision(p.from, p.seen, s.now, ok)]),
           w, if !ok && p.entry.Some? then Deleting(p.from) else Idle)
    case DeleteExpired(w) =>
      var from := At(s, w).from;
      Goes(s.(table := s.table - {from}, writes := s.writes + [Delete(from, s.now, FoundExpired)]), w, Idle)
    case Disconnect(id) =>
      s.(table := s.table - {id}, writes := s.writes + [Delete(id, s.now, Disconnected)])
  }

  const START: State := State(0, map[], map[], [], [], [])

  // ---------- the invariant ----------

  function Written(t: Table, w: Write): Table {
    if w.Store? then Put(t, w.key, w.to, w.readAt) else t - {w.key}
  }

  function Replay(writes: seq<Write>): Table {
    if writes == [] then map[] else Written(Replay(writes[..|writes| - 1]), writes[|writes| - 1])
  }

  /** A store comes from a verified request that names both nodes, after a clock reading made since. */
  ghost predicate Justified(verified: seq<Verified>, cause: nat, key: NodeId, to: NodeId, readAt: Time) {
    && cause < |verified|
    && verified[cause].at <= readAt
    && ((key == verified[cause].a && to == verified[cause].b) || (key == verified[cause].b && to == verified[cause].a))
  }

  ghost predicate GoodWrite(s: State, w: Write) {
    w.at <= s.now && (w.Store? ==> w.readAt <= w.at && Justified(s.verified, w.cause, w.key, w.to, w.readAt))
  }

  ghost predicate GoodWorker(s: State, p: Worker) {
    match p
    case Granting(cause, todo) =>
      forall i :: 0 <= i < |todo| ==> Justified(s.verified, cause, todo[i].0, todo[i].1, s.now)
    case Storing(cause, todo, readAt) =>
      readAt <= s.now && forall i :: 0 <= i < |todo| ==> Justified(s.verified, cause, todo[i].0, todo[i].1, readAt)
    case Loaded(from, entry, seen) => seen <= |s.writes| && entry == Lookup(Replay(s.writes[..seen]), from)
    case _ => true
  }

  ghost predicate GoodDecision(s: State, d: Decision) {
    && d.seen <= |s.writes| && d.at <= s.now
    && (forall i :: 0 <= i < d.seen ==> s.writes[i].at <= d.at)
    && (d.forwarded <==> Unexpired(Lookup(Replay(s.writes[..d.seen]), d.from), d.at))
  }

  ghost predicate Invariant(s: State) {
    && s.table == Replay(s.writes)
    && (forall i :: 0 <= i < |s.writes| ==> GoodWrite(s, s.writes[i]))
    && (forall w :: w in s.workers ==> GoodWorker(s, s.workers[w]))
    && (forall i :: 0 <= i < |s.decisions| ==> GoodDecision(s, s.decisions[i]))
  }

  /** Everything the invariant says about the past only grows older. */
  ghost predicate Extends(s: State, t: State) {
    s.now <= t.now && s.verified <= t.verified && s.writes <= t.writes
  }

  lemma PastStaysGood(s: State, t: State)
    requires Invariant(s) && Extends(s, t)
    ensures forall i :: 0 <= i < |s.writes| ==> GoodWrite(t, s.writes[i])
    ensures forall w :: w in s.workers ==> GoodWorker(t, s.workers[w])
    ensures forall i :: 0 <= i < |s.decisions| ==> GoodDecision(t, s.decisions[i])
  {
    forall n | 0 <= n <= |s.writes| ensures t.writes[..n] == s.writes[..n] {
    }
  }

  /** The steps that write to the table. */
  predicate Writes(step: Step) {
    step.StoreNext? || step.DeleteExpired? || step.Disconnect?
  }

  /** One more write, good by itself, and workers that stay or go on as they should. */
  lemma WriteFits(s: State, t: State, w: Write)
    requires Invariant(s) && Extends(s, t) && t.writes == s.writes + [w] && t.decisions == s.decisions
    requires t.table == Written(s.table, w) && GoodWrite(t, w)
    requires forall k :: k in t.workers ==>
      (k in s.workers && t.workers[k] == s.workers[k]) || GoodWorker(t, t.workers[k])
    ensures Invariant(t)
  {
    hide GoodWrite, GoodWorker, GoodDecision, Written;
    PastStaysGood(s, t);
    assert t.writes[..|t.writes| - 1] == s.writes;
  }

  lemma WriteKeepsInvariant(s: State, step: Step)
    requires Invariant(s) && Enabled(s, step) && Writes(step)
    ensures Invariant(Next(s, step))
  {
    hide GoodDecision, Replay;
    var t := Next(s, step);
    if !step.Disconnect? {
      assert GoodWorker(s, s.workers[step.w]);
    }
    var w := t.writes[|s.writes|];
    hide Invariant;
    WriteFits(s, t, w);
  }

  lemma OtherStepKeepsInvariant(s: State, step: Step)
    requires Invariant(s) && Enabled(s, step) && !Writes(step)
    ensures Invariant(Next(s, step))
  {
    var t := Next(s, step);
    PastStaysGood(s, t);
    assert s.writes[..|s.writes|] == s.writes;
  }

  lemma StepKeepsInvariant(s: State, step: Step)
    requires Invariant(s) && Enabled(s, step)
    ensures Invariant(Next(s, step))
  {
    hide Invariant, Next;
    if Writes(step) {
      WriteKeepsInvariant(s, step);
    } else {
      OtherStepKeepsInvariant(s, step);
    }
  }

  // ---------- runs ----------

  predicate Possible(steps: seq<Step>)
    decreases |steps|, 0
  {
    steps == []
    || (Possible(steps[..|steps| - 1]) && Enabled(Run(steps[..|steps| - 1]), steps[|steps| - 1]))
  }

  function Run(steps: seq<Step>): State
    requires Possible(steps)
    decreases |steps|, 1
  {
    if steps == [] then START else Next(Run(steps[..|steps| - 1]), steps[|steps| - 1])
  }

  lemma {:induction false} RunKeepsInvariant(steps: seq<Step>)
    requires Possible(steps)
    ensures Invariant(Run(steps))
  {
    if steps != [] {
      RunKeepsInvariant(steps[..|steps| - 1]);
      StepKeepsInvariant(Run(steps[..|steps| - 1]), steps[|steps| - 1]);
    }
  }

  /** Of the first n writes, the i-th is the last one to the key. */
  ghost predicate LastWrite(writes: seq<Write>, n: nat, i: nat, key: NodeId) {
    i < n <= |writes| && writes[i].key == key && forall j :: i < j < n ==> writes[j].key != key
  }

  /** And it stores a grant. */
  ghost predicate LastStore(writes: seq<Write>, n: nat, i: nat, key: NodeId) {
    LastWrite(writes, n, i, key) && writes[i].Store?
  }

  lemma {:induction false} EntryHasLastStore(writes: seq<Write>, key: NodeId) returns (i: nat)
    requires Lookup(Replay(writes), key).Some?
    ensures LastStore(writes, |writes|, i, key)
    ensures Lookup(Replay(writes), key).value == PushNodeInfo(writes[i].to, writes[i].readAt + PERMISSION_TIME)
  {
    var n := |writes| - 1;
    if writes[n].key == key {
      i := n;
    } else {
      i := EntryHasLastStore(writes[..n], key);
    }
  }

  lemma {:induction false} LastStoreIsEntry(writes: seq<Write>, i: nat, key: NodeId)
    requires LastStore(writes, |writes|, i, key)
    ensures Lookup(Replay(writes), key) == Some(PushNodeInfo(writes[i].to, writes[i].readAt + PERMISSION_TIME))
  {
    var n := |writes| - 1;
    if i < n {
      assert LastStore(writes[..n], n, i, key);
      LastStoreIsEntry(writes[..n], i, key);
    }
  }

  lemma EntryIsLastStore(writes: seq<Write>, n: nat, key: NodeId, now: Time)
    requires n <= |writes|
    ensures Unexpired(Lookup(Replay(writes[..n]), key), now)
        <==> exists i: nat :: LastStore(writes, n, i, key) && now < writes[i].readAt + PERMISSION_TIME
  {
    if Lookup(Replay(writes[..n]), key).Some? {
      var i := EntryHasLastStore(writes[..n], key);
      assert LastStore(writes, n, i, key);
    }
    if i: nat :| LastStore(writes, n, i, key) && now < writes[i].readAt + PERMISSION_TIME {
      assert LastStore(writes[..n], n, i, key);
      LastStoreIsEntry(writes[..n], i, key);
    }
  }

  /**
    * In every interleaving a check forwards exactly when the last write to the claimed sender before its load is a
    * grant that has not run out at the instant of the comparison.
    */
  lemma DecisionIsLastStore(steps: seq<Step>, k: nat)
    requires Possible(steps) && k < |Run(steps).decisions|
    ensures var s := Run(steps); var d := s.decisions[k];
            d.forwarded
            <==> exists i: nat :: LastStore(s.writes, d.seen, i, d.from) && d.at < s.writes[i].readAt + PERMISSION_TIME
  {
    RunKeepsInvariant(steps);
    var s := Run(steps);
    var d := s.decisions[k];
    assert GoodDecision(s, d);
    EntryIsLastStore(s.writes, d.seen, d.from, d.at);
  }

  /**
    * Safety: whenever a gated message is forwarded, a verified request naming its claimed sender stored a grant
    * less than a minute before the check, and nothing deleted or replaced it between that store and the load.
    */
  lemma ForwardedIsGranted(steps: seq<Step>, k: nat) returns (i: nat)
    requires Possible(steps) && k < |Run(steps).decisions| && Run(steps).decisions[k].forwarded
    ensures var s := Run(steps); var d := s.decisions[k];
            && LastStore(s.writes, d.seen, i, d.from)
            && s.writes[i].at <= d.at < s.writes[i].at + 60_000_000_000
            && s.writes[i].cause < |s.verified|
            && var v := s.verified[s.writes[i].cause];
               (d.from == v.a || d.from == v.b) && v.at <= s.writes[i].readAt <= s.writes[i].at
  {
    RunKeepsInvariant(steps);
    DecisionIsLastStore(steps, k);
    var s := Run(steps);
    var d := s.decisions[k];
    assert GoodDecision(s, d);
    i :| LastStore(s.writes, d.seen, i, d.from) && d.at < s.writes[i].readAt + PERMISSION_TIME;
    assert GoodWrite(s, s.writes[i]);
  }

  /** A disconnect takes the permission of its node, and no other, and is on record. */
  lemma DisconnectRevokes(s: State, id: NodeId)
    ensures var t := Next(s, Disconnect(id));
            && t.table == s.table - {id} && t.workers == s.workers && t.decisions == s.decisions
            && t.writes == s.writes + [Delete(id, s.now, Disconnected)]
  {
  }

  // ---------- what concurrency costs ----------

  /** Of the first n writes, the i-th is a grant to the key that has not run out, and no disconnect follows it. */
  ghost predicate LiveStore(writes: seq<Write>, n: nat, i: nat, key: NodeId, now: Time) {
    && i < n <= |writes| && writes[i].Store? && writes[i].key == key && now < writes[i].readAt + PERMISSION_TIME
    && forall j :: i < j < n && writes[j].key == key ==> writes[j].Store? || writes[j].reason == FoundExpired
  }

  /** The serial rule: some grant lives. */
  ghost predicate SomeLives(writes: seq<Write>, n: nat, key: NodeId, now: Time) {
    exists i: nat :: LiveStore(writes, n, i, key, now)
  }

  /** The last write to the key is the delete of an expiry check, or stores a reading that has run out. */
  ghost predicate LastLapsed(writes: seq<Write>, n: nat, key: NodeId, now: Time) {
    exists i: nat :: LastWrite(writes, n, i, key)
      && (if writes[i].Store? then writes[i].readAt + PERMISSION_TIME <= now else writes[i].reason == FoundExpired)
  }

  lemma {:induction false} SomeLastWrite(writes: seq<Write>, n: nat, key: NodeId, i: nat) returns (last: nat)
    requires i < n <= |writes| && writes[i].key == key
    ensures i <= last && LastWrite(writes, n, last, key)
    decreases n
  {
    if writes[n - 1].key == key {
      last := n - 1;
    } else {
      last := SomeLastWrite(writes, n - 1, key, i);
    }
  }

  /**
    * In every interleaving a check departs from the serial rule, then always by refusing, exactly if a live grant
    * precedes its load and the last write to that key before it is the delete of an expiry check or a
    * store of a reading that has run out.
    */
  lemma SerialRuleFailsExactly(steps: seq<Step>, k: nat)
    requires Possible(steps) && k < |Run(steps).decisions|
    ensures var s := Run(steps); var d := s.decisions[k];
            && (d.forwarded ==> SomeLives(s.writes, d.seen, d.from, d.at))
            && ((d.forwarded <==> SomeLives(s.writes, d.seen, d.from, d.at))
                <==> !(SomeLives(s.writes, d.seen, d.from, d.at) && LastLapsed(s.writes, d.seen, d.from, d.at)))
  {
    DecisionIsLastStore(steps, k);
    var s := Run(steps);
    var d := s.decisions[k];
    if d.forwarded {
      var i: nat :| LastStore(s.writes, d.seen, i, d.from) && d.at < s.writes[i].readAt + PERMISSION_TIME;
      assert LiveStore(s.writes, d.seen, i, d.from, d.at);
    } else if i: nat :| LiveStore(s.writes, d.seen, i, d.from, d.at) {
      var last := SomeLastWrite(s.writes, d.seen, d.from, i);
      assert !LastStore(s.writes, d.seen, last, d.from) || s.writes[last].readAt + PERMISSION_TIME <= d.at;
    }
  }

  lemma Extend(steps: seq<Step>, step: Step)
    requires Possible(steps) && Enabled(Run(steps), step)
    ensures Possible(steps + [step]) && Run(steps + [step]) == Next(Run(steps), step)
  {
    assert (steps + [step])[..|steps|] == steps;
  }

  predicate IsCheck(step: Step) {
    step.Begin? || step.Load? || step.Decide?
  }

  /** A check by an idle worker, with nothing in between. */
  lemma CheckAtOnce(steps: seq<Step>, w: nat, from: NodeId) returns (more: seq<Step>)
    requires Possible(steps) && At(Run(steps), w).Idle?
    ensures Possible(more) && forall step :: step in more ==> step in steps || IsCheck(step)
    ensures var s, t := Run(steps), Run(more);
            var ok := Unexpired(Lookup(s.table, from), s.now);
            && t.decisions == s.decisions + [Decision(from, |s.writes|, s.now, ok)]
            && t.now == s.now && t.table == s.table && t.writes == s.writes && t.verified == s.verified
            && At(t, w) == (if !ok && from in s.table then Deleting(from) else Idle)
            && forall v: nat :: v != w ==> At(t, v) == At(s, v)
  {
    Extend(steps, Begin(w, from));
    more := steps + [Begin(w, from)];
    Extend(more, Load(w));
    more := more + [Load(w)];
    Extend(more, Decide(w));
    more := more + [Decide(w)];
  }

  /**
    * The serial rule does not survive interleaving: without any disconnect, a message is refused although its
    * sender was granted a permission at that very instant, because another check deletes what it takes for expired.
    */
  lemma FreshGrantIsLost() returns (steps: seq<Step>, i: nat)
    ensures Possible(steps) && (forall step :: step in steps ==> !step.Disconnect?)
    ensures var s := Run(steps);
            && s.decisions != []
            && var d := s.decisions[|s.decisions| - 1];
               !d.forwarded && i < d.seen <= |s.writes|
               && s.writes[i].Store? && s.writes[i].key == d.from && s.writes[i].readAt == d.at
               && LiveStore(s.writes, d.seen, i, d.from, d.at)
  {
    steps := Expiring();
    steps := Refreshed(steps);
    var s := Run(steps);
    i := 1;
    Extend(steps, DeleteExpired(1));
    steps := steps + [DeleteExpired(1)];
    steps := CheckAtOnce(steps, 1, 1);
  }

  /** Worker 0 grants to node 1; a minute later worker 1 finds that grant expired and is about to delete it. */
  lemma Expiring() returns (steps: seq<Step>)
    ensures Possible(steps) && (forall step :: step in steps ==> !step.Disconnect?)
    ensures var s := Run(steps);
            s.now == MINUTE && At(s, 1) == Deleting(1) && At(s, 2) == Idle && |s.writes| == 1
  {
    steps := FirstGrant();
    steps := CheckAtOnce(steps, 1, 1);
  }

  lemma FirstGrant() returns (steps: seq<Step>)
    ensures Possible(steps) && (forall step :: step in steps ==> !step.Disconnect?)
    ensures var s := Run(steps);
            && s.now == MINUTE && At(s, 1) == At(s, 2) == Idle && |s.writes| == 1
            && 1 in s.table && s.table[1].expiredAt == MINUTE
  {
    steps := [];
    Extend(steps, Verify(0, 1, 2));
    steps := steps + [Verify(0, 1, 2)];
    Extend(steps, ReadClock(0));
    steps := steps + [ReadClock(0)];
    Extend(steps, StoreNext(0));
    steps := steps + [StoreNext(0)];
    Extend(steps, Tick(MINUTE));
    steps := steps + [Tick(MINUTE)];
  }

  /** Worker 2 grants to node 1 anew. */
  lemma Refreshed(steps: seq<Step>) returns (more: seq<Step>)
    requires Possible(steps) && (forall step :: step in steps ==> !step.Disconnect?)
    requires var s := Run(steps);
             s.now == MINUTE && At(s, 1) == Deleting(1) && At(s, 2) == Idle && |s.writes| == 1
    ensures Possible(more) && (forall step :: step in more ==> !step.Disconnect?)
    ensures var s := Run(more);
            && s.now == MINUTE && At(s, 1) == Deleting(1) && |s.writes| == 2
            && s.writes[1].Store? && s.writes[1].key == 1 && s.writes[1].readAt == MINUTE
  {
    more := steps;
    Extend(more, Verify(2, 1, 2));
    more := more + [Verify(2, 1, 2)];
    Extend(more, ReadClock(2));
    more := more + [ReadClock(2)];
    Extend(more, StoreNext(2));
    more := more + [StoreNext(2)];
  }

  /**
    * Nor is a delete needed: a worker that read the clock early stores its grant over a newer one, and a minute
    * after the early reading the sender is refused although the newer grant has half a minute to go.
    */
  lemma OlderGrantWins() returns (steps: seq<Step>)
    ensures Possible(steps) && (forall step :: step in steps ==> !step.Disconnect? && !step.DeleteExpired?)
    ensures var s := Run(steps);
            && s.decisions != []
            && var d := s.decisions[|s.decisions| - 1];
               !d.forwarded && SomeLives(s.writes, d.seen, d.from, d.at)
  {
    steps := StoredOverNewer();
    steps := CheckAtOnce(steps, 2, 1);
    var s := Run(steps);
    assert LiveStore(s.writes, 2, 0, 1, MINUTE);
  }

  /** Workers 0 and 1 read the clock half a minute apart, and store in the other order. */
  lemma ReadApart() returns (steps: seq<Step>)
    ensures Possible(steps) && (forall step :: step in steps ==> !step.Disconnect? && !step.DeleteExpired?)
    ensures var s := Run(steps);
            && s.now == MINUTE / 2 && s.writes == [] && s.table == map[] && s.decisions == []
            && At(s, 0) == Storing(0, [(1, 2), (2, 1)], 0) && At(s, 1) == Storing(1, [(1, 2), (2, 1)], MINUTE / 2)
            && At(s, 2) == Idle
  {
    steps := [];
    Extend(steps, Verify(0, 1, 2));
    steps := steps + [Verify(0, 1, 2)];
    Extend(steps, ReadClock(0));
    steps := steps + [ReadClock(0)];
    Extend(steps, Tick(MINUTE / 2));
    steps := steps + [Tick(MINUTE / 2)];
    Extend(steps, Verify(1, 1, 2));
    steps := steps + [Verify(1, 1, 2)];
    Extend(steps, ReadClock(1));
    steps := steps + [ReadClock(1)];
  }

  lemma StoredOverNewer() returns (steps: seq<Step>)
    ensures Possible(steps) && (forall step :: step in steps ==> !step.Disconnect? && !step.DeleteExpired?)
    ensures var s := Run(steps);
            && s.now == MINUTE && At(s, 2) == Idle && 1 in s.table && s.table[1].expiredAt == MINUTE
            && s.writes == [Store(1, 2, MINUTE / 2, MINUTE / 2, 1), Store(1, 2, 0, MINUTE / 2, 0)] && s.decisions == []
  {
    steps := ReadApart();
    Extend(steps, StoreNext(1));
    steps := steps + [StoreNext(1)];
    Extend(steps, StoreNext(0));
    steps := steps + [StoreNext(0)];
    Extend(steps, Tick(MINUTE));
    steps := steps + [Tick(MINUTE)];
  }
}
