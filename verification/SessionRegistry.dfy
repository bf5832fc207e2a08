/** The map of online sessions (wssession.go) under every order of logins and clean-ups. */
module SessionRegistry {
  import opened Protocol

  /** A login stores its session under its node id, whatever was there. */
  function Registered<S>(m: map<NodeId, S>, id: NodeId, s: S): map<NodeId, S> {
    m[id := s]
  }

  /** A clean-up removes the session only while it is still the one stored. */
  function CleanedUp<S(==)>(m: map<NodeId, S>, id: NodeId, s: S): map<NodeId, S> {
    if id in m && m[id] == s then m - {id} else m
  }

  datatype Event<S> = Login(id: NodeId, session: S) | Cleanup(id: NodeId, session: S)

  function Registry<S(==)>(log: seq<Event<S>>): map<NodeId, S> {
    if log == [] then map[]
    else
      var m, e := Registry(log[..|log| - 1]), log[|log| - 1];
      if e.Login? then Registered(m, e.id, e.session) else CleanedUp(m, e.id, e.session)
  }

  /** Every session logs in once, and is cleaned up after its login, under the id it logged in with. */
  ghost predicate WellFormed<S(!new)>(log: seq<Event<S>>) {
    && (forall i, j :: 0 <= i < j < |log| && log[i].Login? && log[j].Login? ==> log[i].session != log[j].session)
    && (forall j :: 0 <= j < |log| && log[j].Cleanup? ==> LoggedInBefore(log, j, log[j].id, log[j].session))
  }

  ghost predicate LoggedInBefore<S(!new)>(log: seq<Event<S>>, j: nat, id: NodeId, s: S)
    requires j <= |log|
  {
    exists i :: 0 <= i < j && log[i] == Login(id, s)
  }

  /** The i-th event is the latest login of its node id, and its session has not been cleaned up since. */
  ghost predicate Current<S(!new)>(log: seq<Event<S>>, i: nat) {
    && i < |log| && log[i].Login?
    && (forall j :: i < j < |log| && log[j].Login? ==> log[j].id != log[i].id)
    && (forall j :: i < j < |log| ==> log[j] != Cleanup(log[i].id, log[i].session))
  }

  lemma {:induction false} EntryIsCurrent<S(!new)>(log: seq<Event<S>>, id: NodeId) returns (i: nat)
    requires WellFormed(log) && id in Registry(log)
    ensures Current(log, i) && log[i].id == id && log[i].session == Registry(log)[id]
  {
    var init, e := log[..|log| - 1], log[|log| - 1];
    InitWellFormed(log);
    if e.Login? && e.id == id {
      i := |log| - 1;
    } else {
      i := EntryIsCurrent(init, id);
      assert init[i] == log[i];
    }
  }

  lemma InitWellFormed<S(!new)>(log: seq<Event<S>>)
    requires WellFormed(log) && log != []
    ensures WellFormed(log[..|log| - 1])
  {
    var init := log[..|log| - 1];
    forall j | 0 <= j < |init| && init[j].Cleanup? ensures LoggedInBefore(init, j, init[j].id, init[j].session) {
      assert LoggedInBefore(log, j, log[j].id, log[j].session);
      var i :| 0 <= i < j && log[i] == Login(log[j].id, log[j].session);
      assert init[i] == log[i];
    }
  }

  lemma LoginOf<S(!new)>(log: seq<Event<S>>, j: nat) returns (k: nat)
    requires WellFormed(log) && j < |log| && log[j].Cleanup?
    ensures k < j && log[k] == Login(log[j].id, log[j].session)
  {
    assert LoggedInBefore(log, j, log[j].id, log[j].session);
    k :| 0 <= k < j && log[k] == Login(log[j].id, log[j].session);
  }

  lemma {:induction false} CurrentIsEntry<S(!new)>(log: seq<Event<S>>, i: nat)
    requires WellFormed(log) && Current(log, i)
    ensures log[i].id in Registry(log) && Registry(log)[log[i].id] == log[i].session
  {
    var n := |log| - 1;
    if i < n {
      var init, e := log[..n], log[n];
      InitWellFormed(log);
      assert Current(init, i);
      CurrentIsEntry(init, i);
      if e.Cleanup? {
        var k := LoginOf(log, n);
        assert k != i;
      }
    }
  }

  /**
    * For every interleaving of logins and clean-ups: an id is present exactly when its latest login has not been
    * cleaned up, and then maps to the session of that login.
    */
  lemma {:induction false} RegistryIsHistory<S(!new)>(log: seq<Event<S>>, id: NodeId, s: S)
    requires WellFormed(log)
    ensures id in Registry(log) && Registry(log)[id] == s
        <==> exists i: nat :: Current(log, i) && log[i].id == id && log[i].session == s
  {
    if id in Registry(log) && Registry(log)[id] == s {
      var i := EntryIsCurrent(log, id);
    }
    if i: nat :| Current(log, i) && log[i].id == id && log[i].session == s {
      CurrentIsEntry(log, i);
    }
  }

  /** A session that has been cleaned up is in the registry under no id, now or after any further events. */
  lemma CleanedUpStaysOut<S(!new)>(log: seq<Event<S>>, j: nat, id: NodeId)
    requires WellFormed(log) && j < |log| && log[j].Cleanup?
    ensures id in Registry(log) ==> Registry(log)[id] != log[j].session
  {
    var k := LoginOf(log, j);
    if id in Registry(log) {
      var i := EntryIsCurrent(log, id);
      assert i != k;
    }
  }
}
