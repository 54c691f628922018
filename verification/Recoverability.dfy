/** Shape of the version lists, recoverability, and why collection never hits a committed transaction. */
module Recoverability {
  import opened Types
  import opened VersionLists
  import opened Protocol
  import opened Invariant

  // ----- Dependency closure

  /** `path` leads from `t` to `u` along recorded dependencies. */
  ghost predicate Path(deps: seq<seq<Tid>>, t: Tid, path: seq<Tid>, u: Tid)
    decreases |path|
  {
    if path == [] then t == u
    else t < |deps| && path[0] in deps[t] && Path(deps, path[0], path[1..], u)
  }

  /** `t` depends on `u`, directly or transitively. */
  ghost predicate DependsOn(deps: seq<seq<Tid>>, t: Tid, u: Tid) {
    exists path | path != [] :: Path(deps, t, path, u)
  }

  lemma {:induction false} PathCommitted(s: State, t: Tid, path: seq<Tid>, u: Tid)
    requires Wf(s) && CommitClosed(s) && t < |s.status| && s.status[t] == Committed && Path(s.deps, t, path, u)
    ensures u < |s.status| && s.status[u] == Committed
    decreases |path|
  {
    if path != [] {
      PathCommitted(s, path[0], path[1..], u);
    }
  }

  lemma {:induction false} PathDescends(s: State, t: Tid, path: seq<Tid>, u: Tid)
    requires Wf(s) && t < |s.status| && Path(s.deps, t, path, u) && path != []
    ensures u < t
    decreases |path|
  {
    if |path| > 1 {
      PathDescends(s, path[0], path[1..], u);
    } else {
      assert path[1..] == [];
    }
  }

  /** Waiting is acyclic: a transaction depends only on older ones. */
  lemma DependenciesDescend(s: State, t: Tid, u: Tid)
    requires Reachable(s) && t < |s.status| && DependsOn(s.deps, t, u)
    ensures u < t
  {
    ReachableInv(s);
    var path :| path != [] && Path(s.deps, t, path, u);
    PathDescends(s, t, path, u);
  }

  /** Everything a committed transaction depends on, directly or not, has committed. */
  lemma CommittedClosure(s: State, t: Tid, u: Tid)
    requires Reachable(s) && t < |s.status| && s.status[t] == Committed && DependsOn(s.deps, t, u)
    ensures u < |s.status| && s.status[u] == Committed
  {
    ReachableInv(s);
    var path :| path != [] && Path(s.deps, t, path, u);
    PathCommitted(s, t, path, u);
  }

  /** A committed transaction read only from committed transactions and from itself. */
  lemma CommittedReads(s: State, i: nat)
    requires Reachable(s) && i < |s.log| && s.log[i].tid < |s.status| && s.status[s.log[i].tid] == Committed
    requires s.log[i].from.Some?
    ensures s.log[i].from.value < |s.status| && s.status[s.log[i].from.value] == Committed
  {
    ReachableInv(s);
  }

  // ----- Continuations

  /** What every step does to statuses and dependencies: decisions are final, dependencies only grow. */
  ghost predicate Later(s: State, s': State) {
    && |s.status| <= |s'.status| && |s.deps| <= |s'.deps|
    && (forall t | 0 <= t < |s.status| && s.status[t] != Pending :: s'.status[t] == s.status[t])
    && (forall t, d | 0 <= t < |s.deps| && d in s.deps[t] :: d in s'.deps[t])
  }

  lemma AccessLater(s: State, t: Tid, k: Key, act: Action)
    requires Inv(s) && t < |s.status| && s.status[t] != Committed
    ensures Later(s, Access(s, t, k, act))
  {
    hide Inv, Wf, Admits, Install, AddDependencies, CreatorsBelow, NoneAborted;
    SizesOf(s);
    CollectKeeps(s, k);
    var c := Collect(s, k);
    SizesOf(c);
    if Admits(c.lists[k], t) {
      PerformLater(c, t, k, act);
    }
  }

  lemma SizesOf(s: State)
    requires Inv(s)
    ensures Wf(s) && |s.deps| == |s.status|
  {
  }

  lemma PerformLater(c: State, t: Tid, k: Key, act: Action)
    requires Wf(c) && t < |c.status|
    ensures Later(c, Perform(c, t, k, act))
  {
    var vs := Install(At(c.lists, k), Version(t, act.value));
    InstallParts(At(c.lists, k), Version(t, act.value));
    forall d | d in c.deps[t] ensures d in Perform(c, t, k, act).deps[t] {
      AddDependenciesAdds(c.deps[t], vs, t, c.status, d);
    }
  }

  lemma ApplyLater(s: State, e: Event)
    requires Inv(s) && Enabled(s, e)
    ensures Later(s, Apply(s, e))
  {
    match e
    case EvCreate =>
    case EvPut(t, k, v) => AccessLater(s, t, k, Put(v));
    case EvGet(t, k) => AccessLater(s, t, k, Get(ReadValue(s, k)));
    case EvCommit(t) =>
    case EvAbort(t) =>
  }

  lemma {:induction false} RunsLater(s: State, es: seq<Event>, s': State)
    requires Inv(s) && Runs(s, es, s')
    ensures Later(s, s') && Inv(s')
    decreases |es|
  {
    if es != [] {
      ApplyLater(s, es[0]);
      ApplyKeeps(s, es[0]);
      hide Inv;
      RunsLater(Apply(s, es[0]), es[1..], s');
    }
  }

  lemma {:induction false} PathLater(s: State, s': State, t: Tid, path: seq<Tid>, u: Tid)
    requires Later(s, s') && Path(s.deps, t, path, u)
    ensures Path(s'.deps, t, path, u)
    decreases |path|
  {
    if path != [] {
      PathLater(s, s', path[0], path[1..], u);
    }
  }

  /** Once a transaction has aborted, nothing that depends on it ever commits, however the run goes on. */
  lemma AbortDooms(s: State, t: Tid, u: Tid, es: seq<Event>, s': State)
    requires Reachable(s) && t < |s.status| && u < |s.status|
    requires s.status[u] == Aborted && DependsOn(s.deps, t, u)
    requires Runs(s, es, s')
    ensures t < |s'.status| && u < |s'.status| && s'.status[t] != Committed && s'.status[u] == Aborted
  {
    ReachableInv(s);
    RunsLater(s, es, s');
    var path :| path != [] && Path(s.deps, t, path, u);
    PathLater(s, s', t, path, u);
    if s'.status[t] == Committed {
      PathCommitted(s', t, path, u);
    }
  }

  // ----- Lists

  /** The version list of a key in any reachable state: creators strictly increase, and committed versions
      come before pending and aborted ones. */
  lemma ListsInOrder(s: State, k: Key)
    requires Reachable(s)
    ensures CreatorsBelow(At(s.lists, k), |s.status|)
    ensures Sorted(At(s.lists, k)) && CommittedFirst(At(s.lists, k), s.status)
  {
    ReachableInv(s);
    assert KeyInv(s, k);
    ListShape(s, k);
  }

  /** After a collection pass: at most one committed version, first, and there if there was any; then
      pending versions only; nothing left if every version was aborted. */
  lemma CollectedShape(s: State, k: Key)
    requires Reachable(s)
    ensures Wf(s) && Wf(Collect(s, k)) && k in Collect(s, k).lists
    ensures var vs := At(s.lists, k);
            var r := Collect(s, k).lists[k];
            var st := Collect(s, k).status;
            && (forall i | 0 < i < |r| :: st[r[i].creator] == Pending)
            && (r != [] ==> st[r[0].creator] != Aborted)
            && (HasCommitted(vs, s.status) <==> r != [] && st[r[0].creator] == Committed)
            && ((forall i | 0 <= i < |vs| :: s.status[vs[i].creator] == Aborted) ==> r == [])
  {
    ListsInOrder(s, k);
    ReachableInv(s);
    CollectWf(s, k);
    hide AllKeys, CommitClosed, ReadsTracked, Wf;
    var vs := At(s.lists, k);
    CollectSplits(vs, s.status);
    KeptUnharmed(Outdated(vs, s.status), Collected(vs, s.status), Doomed(vs, s.status), s.status);
  }

  /** No version from the first aborted one on has a committed creator, so the abort of those creators
      never meets the fatal case. */
  lemma CollectionNeverFatal(s: State, k: Key)
    requires Reachable(s)
    ensures CreatorsBelow(At(s.lists, k), |s.status|)
    ensures forall i | 0 <= i < |Doomed(At(s.lists, k), s.status)| ::
              s.status[Doomed(At(s.lists, k), s.status)[i].creator] != Committed
  {
    ListsInOrder(s, k);
    CollectSplits(At(s.lists, k), s.status);
  }

  /** Every creator whose uncommitted version a pass removes is aborted by it, and nobody else changes. */
  lemma CollectAbortsExactly(s: State, k: Key, t: Tid)
    requires Reachable(s) && t < |s.status|
    ensures Wf(s) && CreatorsBelow(At(s.lists, k), |s.status|)
    ensures Collect(s, k).status[t] == if Creates(Doomed(At(s.lists, k), s.status), t) then Aborted else s.status[t]
  {
    ReachableInv(s);
    hide KeyInv;
    AbortCreatorsAt(Doomed(At(s.lists, k), s.status), s.status, t);
  }

  /** A second pass finds nothing to do. */
  lemma CollectIdempotent(s: State, k: Key)
    requires Reachable(s)
    ensures Wf(s) && Wf(Collect(s, k)) && Collect(Collect(s, k), k) == Collect(s, k)
  {
    CollectedShape(s, k);
    CollectClean(Collect(s, k), k);
  }

  lemma CollectClean(c: State, k: Key)
    requires Wf(c) && k in c.lists && k in c.retired
    requires forall i | 0 < i < |c.lists[k]| :: c.status[c.lists[k][i].creator] == Pending
    requires c.lists[k] != [] ==> c.status[c.lists[k][0].creator] != Aborted
    ensures Collect(c, k) == c
  {
    CollectNothing(c.lists[k], c.status);
    assert c.retired[k] + [] == c.retired[k];
  }

  lemma CollectNothing(r: seq<Version>, st: seq<Status>)
    requires CreatorsBelow(r, |st|)
    requires forall i | 0 < i < |r| :: st[r[i].creator] == Pending
    requires r != [] ==> st[r[0].creator] != Aborted
    ensures Collected(r, st) == r && Outdated(r, st) == [] && Doomed(r, st) == []
  {
    assert FirstAborted(r, st) == |r|;
    assert r[..|r|] == r;
    if r != [] {
      assert !HasCommitted(r[1..], st);
      NothingSuperseded(r[1..], st);
    }
  }

  // ----- Operations by an aborted transaction

  /** transaction.h says that nothing more can be done within an aborted transaction.  Nothing prevents it: here
      is a state in which a transaction has aborted and nothing has been done, and a PUT of that transaction is
      possible and takes effect. */
  lemma AbortedOperates(k: Key, v: Value)
    ensures exists s ::
              && Reachable(s) && Wf(s) && s.status == [Aborted] && s.log == []
              && Enabled(s, EvPut(0, k, v)) && Apply(s, EvPut(0, k, v)).log == [Op(0, k, Put(v), None)]
  {
    hide Reachable, Access;
    var s := State([Aborted], [[]], map[], map[], []);
    AbortedAtOnce(s);
    PutLate(s, k, v);
  }

  lemma AbortedAtOnce(s: State)
    requires s == State([Aborted], [[]], map[], map[], [])
    ensures Reachable(s)
  {
    hide Runs;
    RunsNone(s);
    RunsFirst(Create(INIT), EvAbort(0), [], s);
    assert [EvAbort(0)] + [] == [EvAbort(0)];
    RunsFirst(INIT, EvCreate, [EvAbort(0)], s);
  }

  lemma PutLate(s: State, k: Key, v: Value)
    requires s == State([Aborted], [[]], map[], map[], [])
    ensures Wf(s) && Access(s, 0, k, Put(v)).log == [Op(0, k, Put(v), None)]
  {
    CollectNothing([], s.status);
    assert Collect(s, k).lists[k] == [];
  }

  lemma RunsNone(s: State)
    ensures Runs(s, [], s)
  {
  }

  lemma RunsFirst(s: State, e: Event, es: seq<Event>, s': State)
    requires Wf(s) && Enabled(s, e) && Runs(Apply(s, e), es, s')
    ensures Runs(s, [e] + es, s')
  {
    assert ([e] + es)[1..] == es;
  }

  /** An operation of an aborted transaction takes effect exactly if the list that collection leaves has no
      greater creator: then it is logged, otherwise nothing is. */
  lemma AbortedOperatesExactly(s: State, t: Tid, k: Key, act: Action)
    requires Reachable(s) && t < |s.status| && s.status[t] == Aborted
    ensures Wf(s) && k in Collect(s, k).lists
    ensures GreatEnough(Collect(s, k).lists[k], t) ==>
              Access(s, t, k, act).log == s.log + [Op(t, k, act, LastCreator(Collect(s, k).lists[k]))]
    ensures !GreatEnough(Collect(s, k).lists[k], t) ==> Access(s, t, k, act) == Collect(s, k)
    ensures |Access(s, t, k, act).log| > |s.log| <==>
              forall i | 0 <= i < |Collect(s, k).lists[k]| :: Collect(s, k).lists[k][i].creator <= t
  {
    ReachableInv(s);
    AdmitsExactly(At(Collect(s, k).lists, k), t);
    CollectKeeps(s, k);
    hide KeyInv, Admits, Install, AddDependencies, CreatorsBelow, LastCreator;
    SizesOf(s);
  }

  /** What remains of the promise: whatever an aborted transaction does to a key, the next collection of the key
      leaves what it would have left without it, and nobody's status differs. */
  lemma AbortedLeavesNothing(s: State, t: Tid, k: Key, act: Action)
    requires Reachable(s) && t < |s.status| && s.status[t] == Aborted
    ensures Wf(s) && Wf(Access(s, t, k, act))
    ensures Collect(Access(s, t, k, act), k).lists == Collect(s, k).lists
    ensures Collect(Access(s, t, k, act), k).status == Collect(s, k).status
  {
    hide KeyInv, Admits, Install, AddDependencies, CreatorsBelow, Collected, Outdated, Doomed, AbortCreators,
         NoneAborted, Ready;
    CollectIdempotent(s, k);
    CollectWf(s, k);
    var c := Collect(s, k);
    AbortedCollected(s, t, k);
    if Admits(c.lists[k], t) {
      PerformLeavesNothing(c, t, k, act);
    }
  }

  lemma AbortedCollected(s: State, t: Tid, k: Key)
    requires Reachable(s) && t < |s.status| && s.status[t] == Aborted
    ensures Wf(s) && |Collect(s, k).status| == |s.status| && Collect(s, k).status[t] == Aborted
    ensures Wf(Collect(s, k)) && Collected(Collect(s, k).lists[k], Collect(s, k).status) == Collect(s, k).lists[k]
    ensures Admits(Collect(s, k).lists[k], t) ==> Ready(Collect(s, k), t, k)
    ensures NoneAborted(Collect(s, k).lists[k], Collect(s, k).status)
  {
    ReachableInv(s);
    CollectKeeps(s, k);
    CollectIdempotent(s, k);
    assert KeyInv(Collect(s, k), k);
    ListShape(Collect(s, k), k);
  }

  lemma PerformLeavesNothing(c: State, t: Tid, k: Key, act: Action)
    requires Ready(c, t, k) && c.status[t] == Aborted && Collected(c.lists[k], c.status) == c.lists[k]
    ensures Wf(Perform(c, t, k, act))
    ensures Collect(Perform(c, t, k, act), k).lists == c.lists && Collect(Perform(c, t, k, act), k).status == c.status
  {
    var vs := c.lists[k];
    var after := Install(vs, Version(t, act.value));
    PerformWf(c, t, k, act);
    InstallAborted(vs, c.status, Version(t, act.value));
    assert c.lists[k := after][k := vs] == c.lists;
  }

  lemma FirstAbortedAt(vs: seq<Version>, st: seq<Status>, n: nat)
    requires CreatorsBelow(vs, |st|) && n <= |vs| && (n < |vs| ==> st[vs[n].creator] == Aborted)
    requires forall i | 0 <= i < n :: st[vs[i].creator] != Aborted
    ensures FirstAborted(vs, st) == n
  {
  }

  /** A version that is aborted from the start goes to the end of a list without aborted versions, and alone is
      taken back. */
  lemma InstallAborted(vs: seq<Version>, st: seq<Status>, v: Version)
    requires CreatorsBelow(vs, |st|) && NoneAborted(vs, st) && v.creator < |st| && st[v.creator] == Aborted
    ensures Install(vs, v) == vs + [v] && CreatorsBelow(vs + [v], |st|)
    ensures Collected(vs + [v], st) == Collected(vs, st) && Doomed(vs + [v], st) == [v]
    ensures AbortCreators([v], st) == st
  {
    var r := vs + [v];
    assert r[|vs|] == v && forall i | 0 <= i < |vs| :: r[i] == vs[i];
    FirstAbortedAt(vs, st, |vs|);
    FirstAbortedAt(r, st, |vs|);
    assert (vs + [v])[..|vs|] == vs == vs[..|vs|] && (vs + [v])[|vs|..] == [v];
    assert [v][1..] == [] && st[v.creator := Aborted] == st;
  }

  /** All that an aborted transaction did to a key before is gone after the next collection of the key. */
  lemma AbortedVersionsGo(s: State, t: Tid, k: Key)
    requires Reachable(s) && t < |s.status| && s.status[t] == Aborted
    ensures Wf(s) && k in Collect(s, k).lists && !Creates(Collect(s, k).lists[k], t)
  {
    ReachableInv(s);
    CollectKeeps(s, k);
    hide KeyInv;
  }
}
