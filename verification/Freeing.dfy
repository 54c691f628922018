/** Which transactions are freed: decided ones, and those that were given up before they did anything. */
module Freeing {
  import opened Types
  import opened Counting
  import opened VersionLists
  import opened Protocol
  import opened Invariant
  import opened References
  import opened Waiting
  import opened Machine
  import opened Books
  import opened Ids
  import opened MachineInvariant
  import opened MachineTheorems

  // ----- Only transactions that operated are depended on

  ghost predicate DepsOperated(s: State) {
    forall t, d | 0 <= t < |s.deps| && d in s.deps[t] :: HasOps(s.log, d)
  }

  lemma {:induction false} NoOpsAtAll(log: seq<Op>, t: Tid, k: Key)
    requires !HasOps(log, t)
    ensures OpsOf(log, t, k) == []
  {
    NoOpsYet(log, t, k);
  }

  lemma MoreOps(log: seq<Op>, o: Op, t: Tid)
    ensures HasOps(log + [o], t) <==> HasOps(log, t) || o.tid == t
  {
    assert (log + [o])[|log|] == o;
    if i :| 0 <= i < |log| && log[i].tid == t { assert (log + [o])[i].tid == t; }
  }

  lemma KeyOf(s: State, k: Key)
    requires Inv(s)
    ensures KeyInv(s, k)
  {
  }

  /** A creator that has not aborted has operated. */
  lemma CreatorOperated(s: State, k: Key, i: nat)
    requires Inv(s) && k in s.lists && i < |s.lists[k]| && s.status[s.lists[k][i].creator] != Aborted
    ensures HasOps(s.log, s.lists[k][i].creator)
  {
    hide AllKeys, Sorted, Ordered, RetiredOk, ChainComplete, CommitClosed, ReadsTracked, HasOps, Legal, Final;
    KeyOf(s, k);
    var c, t := Chain(s, k), s.lists[k][i].creator;
    var j := |At(s.retired, k)| + i;
    assert c[j] == s.lists[k][i];
    assert Explained(c, s.log, k, j);
    if !HasOps(s.log, t) { NoOpsAtAll(s.log, t, k); }
  }

  lemma PerformOperated(c: State, t: Tid, k: Key, act: Action)
    requires Inv(c) && DepsOperated(c) && t < |c.status| && k in c.lists
    ensures DepsOperated(Perform(c, t, k, act))
  {
    var vs := c.lists[k];
    var vs' := Install(vs, Version(t, act.value));
    var o := Op(t, k, act, LastCreator(vs));
    var s' := Perform(c, t, k, act);
    forall d | d in AddDependencies(c.deps[t], vs', t, c.status) ensures HasOps(c.log, d) {
      AddDependenciesAdds(c.deps[t], vs', t, c.status, d);
      if d !in c.deps[t] {
        var i :| 0 <= i < |vs'| && vs'[i].creator == d;
        assert i < |vs| && vs[i].creator == d;
        CreatorOperated(c, k, i);
      }
    }
    forall u, d | 0 <= u < |s'.deps| && d in s'.deps[u] ensures HasOps(s'.log, d) {
      MoreOps(c.log, o, d);
    }
  }

  lemma ApplyOperated(s: State, e: Event)
    requires Inv(s) && Enabled(s, e) && DepsOperated(s)
    ensures DepsOperated(Apply(s, e))
  {
    match e
    case EvCreate =>
    case EvPut(t, k, v) => AccessOperated(s, t, k, Put(v));
    case EvGet(t, k) => AccessOperated(s, t, k, Get(ReadValue(s, k)));
    case EvCommit(t) =>
    case EvAbort(t) =>
  }

  lemma AccessOperated(s: State, t: Tid, k: Key, act: Action)
    requires Inv(s) && DepsOperated(s) && t < |s.status|
    ensures DepsOperated(Access(s, t, k, act))
  {
    CollectKeeps(s, k);
    CollectWf(s, k);
    hide Inv;
    PerformOperated(Collect(s, k), t, k, act);
    hide Perform;
  }

  lemma {:induction false} RunsOperated(s: State, es: seq<Event>, s': State)
    requires Inv(s) && DepsOperated(s) && Runs(s, es, s')
    ensures DepsOperated(s')
    decreases |es|
  {
    if es != [] {
      ApplyKeeps(s, es[0]);
      ApplyOperated(s, es[0]);
      hide Inv, DepsOperated;
      RunsOperated(Apply(s, es[0]), es[1..], s');
    }
  }

  lemma ReachableOperated(s: State)
    requires Reachable(s)
    ensures DepsOperated(s)
  {
    InitInv();
    var es :| Runs(INIT, es, s);
    RunsOperated(INIT, es, s);
  }

  // ----- Who holds a transaction that has not been decided

  /** A pending transaction that has operated is held by a version. */
  lemma OperatedIsLive(w: World, t: Tid)
    requires WorldInv(w) && t < |w.counts| && w.core.status[t] == Pending && HasOps(w.core.log, t)
    ensures w.counts[t] > 0
  {
    var i :| 0 <= i < |w.core.log| && w.core.log[i].tid == t;
    var k := w.core.log[i].key;
    OpsOfSome(w.core.log, i);
    var j := PendingInList(w.core, k, t);
    hide Inv, WaitInv, IdOrder, Handled;
    HeldByVersion(w.core.lists, w.entries, k, j);
    HeldIsLive(w, t);
  }

  lemma PendingInList(s: State, k: Key, t: Tid) returns (j: nat)
    requires Inv(s) && t < |s.status| && s.status[t] == Pending && OpsOf(s.log, t, k) != []
    ensures k in s.lists && j < |s.lists[k]| && s.lists[k][j].creator == t
  {
    assert KeyInv(s, k);
    hide Sorted, Ordered, ChainExplained, Wf, AllKeys;
    assert Creates(Chain(s, k), t);
    j := NotRetired(At(s.retired, k), At(s.lists, k), s.status, t);
  }

  lemma NotRetired(r: seq<Version>, vs: seq<Version>, st: seq<Status>, t: Tid) returns (j: nat)
    requires t < |st| && st[t] == Pending && CreatorsBelow(r, |st|) && AllCommitted(r, st) && Creates(r + vs, t)
    ensures j < |vs| && vs[j].creator == t
  {
    var c := r + vs;
    var i :| 0 <= i < |c| && c[i].creator == t;
    assert forall x | 0 <= x < |r| :: c[x] == r[x] && r[x].creator != t;
    j := i - |r|;
  }

  /** One that has not is held by callers only. */
  lemma IdleHolders(w: World, t: Tid)
    requires WorldInv(w) && DepsOperated(w.core) && t < |w.counts|
    requires w.core.status[t] == Pending && !HasOps(w.core.log, t)
    ensures w.counts[t] == w.handles[t]
  {
    NoVersions(w, t);
    hide Inv, WaitInv, IdOrder, Handled, EntriesOk, Wf;
    SumZero(PerEntry(w.core.lists, w.entries, t));
    SumZero(DepHolders(w.counts, w.core.deps, t));
  }

  lemma NoVersions(w: World, t: Tid)
    requires WorldInv(w) && t < |w.counts| && w.core.status[t] == Pending && !HasOps(w.core.log, t)
    ensures forall x | 0 <= x < |PerEntry(w.core.lists, w.entries, t)| :: PerEntry(w.core.lists, w.entries, t)[x] == 0
  {
    hide WaitInv, IdOrder, Handled;
    forall x | 0 <= x < |w.entries| ensures CountBy(At(w.core.lists, w.entries[x]), t) == 0 {
      var k := w.entries[x];
      if k in w.core.lists {
        forall i | 0 <= i < |w.core.lists[k]| ensures w.core.lists[k][i].creator != t {
          if w.core.lists[k][i].creator == t { CreatorOperated(w.core, k, i); }
        }
        NotAmong(w.core.lists[k], t);
      }
    }
  }

  lemma {:induction false} NotAmong(vs: seq<Version>, t: Tid)
    requires forall i | 0 <= i < |vs| :: vs[i].creator != t
    ensures CountBy(vs, t) == 0
  {
    if vs != [] {
      NotAmong(vs[1..], t);
    }
  }

  // ----- Freed for good

  /** A call leaves the status of a freed transaction alone. */
  lemma FreedUntouched(w: World, c: Call, t: Tid)
    requires WorldInv(w) && Allowed(w, c) && t < |w.counts| && w.counts[t] == 0
    ensures t < |Do(w, c).core.status| && Do(w, c).core.status[t] == w.core.status[t]
  {
    hide Inv, WaitInv, BooksOk, IdOrder, Handled, StoreAccess, Unref, NextId, Wf;
    if c.CallPut? { AccessUntouched(w, c.t, c.k, Put(c.v), t); }
    if c.CallGet? { AccessUntouched(w, c.t, c.k, Get(ReadValue(w.core, c.k)), t); }
    if c.StepCommit? || c.CallAbort? { HandleIsLive(w, c.t); }
  }

  lemma AccessUntouched(w: World, u: Tid, k: Key, act: Action, t: Tid)
    requires WorldInv(w) && u < |w.handles| && w.handles[u] > 0 && w.waits.phase[u].Idle?
    requires act.Get? ==> act.value == ReadValue(w.core, k)
    requires t < |w.counts| && w.counts[t] == 0
    ensures |StoreAccess(w, u, k, act).core.status| == |w.core.status|
    ensures StoreAccess(w, u, k, act).core.status[t] == w.core.status[t]
  {
    HeldIsLive(w, u);
    AccessKeepsWorld(w, u, k, act);
    if k in w.core.lists { ListLive(w, k); }
    hide Inv, WaitInv, BooksOk, IdOrder, StoreAccess, Access;
    AccessStatus(w.core, u, k, act, t);
  }

  lemma AccessStatus(s: State, u: Tid, k: Key, act: Action, t: Tid)
    requires Wf(s) && u < |s.status| && t < |s.status| && u != t && !Creates(At(s.lists, k), t)
    ensures |Access(s, u, k, act).status| == |s.status| && Access(s, u, k, act).status[t] == s.status[t]
  {
    var vs := At(s.lists, k);
    CollectWf(s, k);
    AbortCreatorsAt(Doomed(vs, s.status), s.status, t);
    hide Wf, AbortCreators, Outdated, Collected, AddDependencies, Install;
  }

  /** Only decided transactions are freed, and pending ones that have not operated.  Once freed, a transaction
      stays freed, and as it is. */
  lemma FreedForGood(w: World, t: Tid, cs: seq<Call>, w': World)
    requires Possible(w) && t < |w.counts| && w.counts[t] == 0 && RunsTo(w, cs, w')
    ensures t < |w.core.status| && (w.core.status[t] == Pending ==> !HasOps(w.core.log, t))
    ensures t < |w'.counts| && w'.counts[t] == 0
    ensures t < |w'.core.status| && w'.core.status[t] == w.core.status[t]
  {
    PossibleInv(w);
    if w.core.status[t] == Pending && HasOps(w.core.log, t) { OperatedIsLive(w, t); }
    RunsStayFreed(w, t, cs, w');
  }

  lemma {:induction false} RunsStayFreed(w: World, t: Tid, cs: seq<Call>, w': World)
    requires WorldInv(w) && t < |w.counts| && w.counts[t] == 0 && RunsTo(w, cs, w')
    ensures t < |w'.counts| && w'.counts[t] == 0
    ensures t < |w'.core.status| && w'.core.status[t] == w.core.status[t]
    decreases |cs|
  {
    if cs != [] {
      DoKeeps(w, cs[0]);
      FreedUntouched(w, cs[0], t);
      hide WorldInv;
      RunsStayFreed(Do(w, cs[0]), t, cs[1..], w');
    }
  }

  // ----- How a pending transaction is freed

  /** References go with a decision, or are given back. */
  ghost predicate GivesUp(w: World, w': World, t: Tid)
    requires t < |w.handles|
  {
    && t < |w'.handles| && t < |w'.core.status|
    && (w'.core.status[t] == Pending ==> w'.handles[t] >= w.handles[t])
  }

  lemma AccessGivesUp(w: World, u: Tid, k: Key, act: Action, t: Tid)
    requires WorldWf(w) && u < |w.handles| && w.handles[u] > 0 && t < |w.handles|
    ensures GivesUp(w, StoreAccess(w, u, k, act), t)
  {
    GarbageCollectWf(w, k);
    hide Wf, Unref, AddDependencies, RefDependencies, InstallId, AdmitsId, DropCreators, WakeCreators, Collect;
  }

  lemma StepGivesUp(w: World, u: Tid, t: Tid)
    requires WorldWf(w) && CanStep(w, u) && t < |w.handles|
    ensures GivesUp(w, CommitStep(w, u), t)
  {
    hide Wf, Unref;
  }

  lemma DoGivesUp(w: World, c: Call, t: Tid)
    requires WorldWf(w) && Allowed(w, c) && t < |w.handles| && c != CallUnref(t)
    ensures GivesUp(w, Do(w, c), t)
  {
    if c.CallPut? { AccessGivesUp(w, c.t, c.k, Put(c.v), t); }
    if c.CallGet? { AccessGivesUp(w, c.t, c.k, Get(ReadValue(w.core, c.k)), t); }
    if c.StepCommit? { StepGivesUp(w, c.t, t); }
    hide Wf, Unref, NextId, StoreAccess, CommitStep;
  }

  /** A call frees a transaction that stays pending exactly if it drops the last reference that callers hold to
      a pending transaction that has not operated. */
  lemma FreedUndecidedExactly(w: World, c: Call, t: Tid)
    requires Possible(w) && WorldWf(w) && Allowed(w, c) && t < |w.counts| && w.counts[t] > 0
    ensures t < |Do(w, c).counts| == |Do(w, c).core.status|
    ensures Do(w, c).counts[t] == 0 && Do(w, c).core.status[t] == Pending <==>
              c == CallUnref(t) && w.handles[t] == 1 && w.core.status[t] == Pending && !HasOps(w.core.log, t)
  {
    PossibleInv(w);
    PossibleReachable(w);
    ReachableOperated(w.core);
    DoKeeps(w, c);
    var w' := Do(w, c);
    var es := DoIsEvent(w, c);
    RunsGrow(w.core, es, w'.core);
    Recoverability.RunsLater(w.core, es, w'.core);
    if c != CallUnref(t) { DoGivesUp(w, c, t); }
    if w'.counts[t] == 0 && w'.core.status[t] == Pending {
      if HasOps(w'.core.log, t) { OperatedIsLive(w', t); }
      if HasOps(w.core.log, t) { OpsKept(w.core.log, w'.core.log, t); }
      IdleHolders(w, t);
      if w'.handles[t] > 0 { HeldIsLive(w', t); }
    }
    if c == CallUnref(t) && w.handles[t] == 1 && w.core.status[t] == Pending && !HasOps(w.core.log, t) {
      IdleHolders(w, t);
      UnrefLast(w.counts, w.core.deps, t);
    }
  }

  lemma OpsKept(log: seq<Op>, log': seq<Op>, t: Tid)
    requires log <= log' && HasOps(log, t)
    ensures HasOps(log', t)
  {
    var i :| 0 <= i < |log| && log[i].tid == t;
    assert log'[i].tid == t;
  }

  lemma UnrefLast(counts: seq<nat>, deps: seq<seq<Tid>>, t: Tid)
    requires DepsBelow(deps) && |counts| == |deps| && t < |counts| && counts[t] == 1
    ensures Unref(counts, deps, t)[t] == 0
  {
    UnrefAllShrinks(counts[t := 0], deps, deps[t], t);
  }
}
