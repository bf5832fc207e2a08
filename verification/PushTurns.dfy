/** Push permissions when the handlers of one node take turns, whatever those of other nodes do. */
module PushTurns {
  import opened GoTime
  import opened Protocol
  import opened PushInterleaving
  import opened PushPermission
  import opened Results

  predicate HasKey(todo: seq<(NodeId, NodeId)>, key: NodeId) {
    exists i :: 0 <= i < |todo| && todo[i].0 == key
  }

  /** The worker has yet to store a grant to the key, or is checking it. */
  predicate Handles(p: Worker, key: NodeId) {
    match p
    case Idle => false
    case Granting(_, todo) => HasKey(todo, key)
    case Storing(_, todo, _) => HasKey(todo, key)
    case Checking(from) => from == key
    case Loaded(from, _, _) => from == key
    case Deleting(from) => from == key
  }

  /** A handler of the key starts only when no other is at work. */
  predicate InTurn(s: State, step: Step, key: NodeId) {
    (step.Verify? && (step.a == key || step.b == key)) || (step.Begin? && step.from == key) ==>
      forall w :: w in s.workers ==> !Handles(s.workers[w], key)
  }

  predicate TakesTurns(steps: seq<Step>, key: NodeId)
    requires Possible(steps)
  {
    steps == []
    || (TakesTurns(steps[..|steps| - 1], key) && InTurn(Run(steps[..|steps| - 1]), steps[|steps| - 1], key))
  }

  // ---------- what turns keep ----------

  ghost predicate IsGrant(w: Write, key: NodeId) {
    w.Store? && w.key == key
  }

  ghost predicate IsExpiry(w: Write, key: NodeId) {
    w.Delete? && w.key == key && w.reason == FoundExpired
  }

  /** Grants to the key are stored in the order of their readings, and expiry deletes only what has run out. */
  ghost predicate SerialLog(writes: seq<Write>, key: NodeId) {
    && (forall i, j :: 0 <= i < j < |writes| && IsGrant(writes[i], key) && IsGrant(writes[j], key) ==>
          writes[i].readAt <= writes[j].readAt)
    && (forall i, j :: 0 <= i < j < |writes| && IsGrant(writes[i], key) && IsExpiry(writes[j], key) ==>
          writes[i].readAt + PERMISSION_TIME <= writes[j].at)
  }

  ghost predicate ReadBy(writes: seq<Write>, key: NodeId, t: Time) {
    forall i :: 0 <= i < |writes| && IsGrant(writes[i], key) ==> writes[i].readAt <= t
  }

  ghost predicate RunOutBy(writes: seq<Write>, key: NodeId, t: Time) {
    forall i :: 0 <= i < |writes| && IsGrant(writes[i], key) ==> writes[i].readAt + PERMISSION_TIME <= t
  }

  /** Since the first n writes the key has at most been deleted by disconnects. */
  ghost predicate OnlyDisconnects(writes: seq<Write>, n: nat, key: NodeId) {
    forall i :: n <= i < |writes| && writes[i].key == key ==> writes[i].Delete? && writes[i].reason == Disconnected
  }

  ghost predicate Fits(s: State, p: Worker, key: NodeId) {
    match p
    case Storing(_, todo, readAt) => HasKey(todo, key) ==> ReadBy(s.writes, key, readAt)
    case Loaded(from, _, seen) => from == key ==> OnlyDisconnects(s.writes, seen, key)
    case Deleting(from) => from == key ==> RunOutBy(s.writes, key, s.now)
    case _ => true
  }

  ghost predicate InTurns(s: State, key: NodeId) {
    && (forall v, w :: v in s.workers && w in s.workers && Handles(s.workers[v], key) && Handles(s.workers[w], key) ==>
          v == w)
    && SerialLog(s.writes, key)
    && forall w :: w in s.workers ==> Fits(s, s.workers[w], key)
  }

  /** What a check finds expired covers every grant so far. */
  lemma ExpiredIsAll(s: State, w: nat, key: NodeId)
    requires PushInterleaving.Invariant(s) && InTurns(s, key)
    requires At(s, w).Loaded? && At(s, w).from == key && At(s, w).entry.Some? && !Unexpired(At(s, w).entry, s.now)
    ensures RunOutBy(s.writes, key, s.now)
  {
    var p := At(s, w);
    assert GoodWorker(s, p) && Fits(s, p, key);
    var last := EntryHasLastStore(s.writes[..p.seen], key);
    forall i | 0 <= i < |s.writes| && IsGrant(s.writes[i], key)
      ensures s.writes[i].readAt + PERMISSION_TIME <= s.now
    {
      assert i < p.seen;
      assert s.writes[..p.seen][i] == s.writes[i] && s.writes[..p.seen][last] == s.writes[last];
      assert i <= last;
      assert IsGrant(s.writes[last], key);
    }
  }

  lemma GrantsAreRead(s: State, key: NodeId)
    requires PushInterleaving.Invariant(s)
    ensures ReadBy(s.writes, key, s.now)
  {
    forall i | 0 <= i < |s.writes| && IsGrant(s.writes[i], key) ensures s.writes[i].readAt <= s.now {
      assert GoodWrite(s, s.writes[i]);
    }
  }

  lemma StoreKeepsTurns(s: State, step: Step, key: NodeId)
    requires InTurns(s, key) && Enabled(s, step) && step.StoreNext?
    ensures InTurns(Next(s, step), key)
  {
    var p, t := At(s, step.w), Next(s, step);
    assert Fits(s, p, key);
    assert HasKey(p.todo[1..], key) ==> HasKey(p.todo, key) by {
      if i :| 0 <= i < |p.todo[1..]| && p.todo[1..][i].0 == key {
        assert p.todo[i + 1].0 == key;
      }
    }
    if p.todo[0].0 == key {
      assert Handles(p, key);
    }
  }

  lemma DeleteKeepsTurns(s: State, step: Step, key: NodeId)
    requires InTurns(s, key) && Enabled(s, step) && (step.DeleteExpired? || step.Disconnect?)
    ensures InTurns(Next(s, step), key)
  {
    if step.DeleteExpired? {
      assert Fits(s, At(s, step.w), key);
    }
  }

  lemma StartKeepsTurns(s: State, step: Step, key: NodeId)
    requires InTurns(s, key) && Enabled(s, step) && (step.Verify? || step.Begin?) && InTurn(s, step, key)
    ensures InTurns(Next(s, step), key)
  {
    hide SerialLog, ReadBy, RunOutBy, OnlyDisconnects;
  }

  lemma OtherKeepsTurns(s: State, step: Step, key: NodeId)
    requires PushInterleaving.Invariant(s) && InTurns(s, key) && Enabled(s, step)
    requires !Writes(step) && !step.Verify? && !step.Begin?
    ensures InTurns(Next(s, step), key)
  {
    GrantsAreRead(s, key);
    if step.Decide? {
      var p := At(s, step.w);
      if p.from == key && p.entry.Some? && !Unexpired(p.entry, s.now) {
        ExpiredIsAll(s, step.w, key);
      }
    }
    hide PushInterleaving.Invariant, SerialLog, ReadBy, HasKey;
  }

  lemma {:induction false} RunKeepsTurns(steps: seq<Step>, key: NodeId)
    requires Possible(steps) && TakesTurns(steps, key)
    ensures InTurns(Run(steps), key)
  {
    hide InTurns, InTurn, Next, Enabled;
    if steps == [] {
      NothingInTurns(key);
    } else {
      var init, step := steps[..|steps| - 1], steps[|steps| - 1];
      RunKeepsTurns(init, key);
      RunKeepsInvariant(init);
      if step.StoreNext? {
        StoreKeepsTurns(Run(init), step, key);
      } else if step.Verify? || step.Begin? {
        StartKeepsTurns(Run(init), step, key);
      } else if Writes(step) {
        DeleteKeepsTurns(Run(init), step, key);
      } else {
        OtherKeepsTurns(Run(init), step, key);
      }
    }
  }

  lemma NothingInTurns(key: NodeId)
    ensures InTurns(START, key)
  {
  }

  /**
    * When the handlers of a node take turns, the serial rule decides each of its checks: it passes exactly if a grant
    * to the node, not yet run out, precedes it with no disconnect since. So a departure needs two handlers of that
    * node to overlap; handlers of other nodes may interleave at will.
    */
  lemma {:induction false} TurnsAreSerial(steps: seq<Step>, k: nat)
    requires Possible(steps) && k < |Run(steps).decisions| && TakesTurns(steps, Run(steps).decisions[k].from)
    ensures var s := Run(steps); var d := s.decisions[k];
            d.forwarded <==> SomeLives(s.writes, d.seen, d.from, d.at)
  {
    SerialRuleFailsExactly(steps, k);
    RunKeepsInvariant(steps);
    var s := Run(steps);
    var d := s.decisions[k];
    RunKeepsTurns(steps, d.from);
    assert GoodDecision(s, d);
    LiveIsNotLapsed(s.writes, d.seen, d.from, d.at);
  }

  /** With a live grant in a serial log the last write to the key is a grant that lives. */
  lemma LiveIsLast(writes: seq<Write>, n: nat, key: NodeId, now: Time, live: nat, last: nat)
    requires n <= |writes| && SerialLog(writes, key) && forall i :: 0 <= i < n ==> writes[i].at <= now
    requires LiveStore(writes, n, live, key, now) && LastWrite(writes, n, last, key)
    ensures writes[last].Store? && now < writes[last].readAt + PERMISSION_TIME
  {
    assert IsGrant(writes[live], key) && live <= last;
    assert writes[last].Store? ==> IsGrant(writes[last], key);
    assert writes[last].Delete? && writes[last].reason == FoundExpired ==> IsExpiry(writes[last], key);
  }

  lemma LiveIsNotLapsed(writes: seq<Write>, n: nat, key: NodeId, now: Time)
    requires n <= |writes| && SerialLog(writes, key) && forall i :: 0 <= i < n ==> writes[i].at <= now
    ensures SomeLives(writes, n, key, now) ==> !LastLapsed(writes, n, key, now)
  {
    if SomeLives(writes, n, key, now) {
      var live: nat :| LiveStore(writes, n, live, key, now);
      forall last: nat | LastWrite(writes, n, last, key)
        ensures writes[last].Store? && now < writes[last].readAt + PERMISSION_TIME
      {
        LiveIsLast(writes, n, key, now, live, last);
      }
    }
  }
}
