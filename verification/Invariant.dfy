/** The invariant of the protocol and its preservation by every step. */
module Invariant {
  import opened Types
  import opened VersionLists
  import opened Protocol

  // ----- The operations of one transaction on one key, and what they do to its value

  function OpsOf(log: seq<Op>, t: Tid, k: Key): (r: seq<Action>) {
    if log == [] then []
    else
      var o := log[|log| - 1];
      var r := OpsOf(log[..|log| - 1], t, k);
      if o.tid == t && o.key == k then r + [o.act] else r
  }

  /** The value of a key after `acts`, starting from `v`. */
  function Final(v: Value, acts: seq<Action>): Value {
    if acts == [] then v
    else match acts[|acts| - 1]
      case Put(w) => w
      case Get(_) => Final(v, acts[..|acts| - 1])
  }

  /** Every GET among `acts` returns the value that the key then has. */
  predicate Legal(v: Value, acts: seq<Action>) {
    acts == [] ||
    var init := acts[..|acts| - 1];
    Legal(v, init) && match acts[|acts| - 1]
      case Put(_) => true
      case Get(w) => w == Final(v, init)
  }

  lemma {:induction false} LegalAppend(v: Value, a: seq<Action>, b: seq<Action>)
    ensures Final(v, a + b) == Final(Final(v, a), b)
    ensures Legal(v, a + b) <==> Legal(v, a) && Legal(Final(v, a), b)
  {
    if b == [] {
      assert a + b == a;
    } else {
      assert (a + b)[..|a + b| - 1] == a + b[..|b| - 1];
      LegalAppend(v, a, b[..|b| - 1]);
    }
  }

  lemma LegalSnoc(v: Value, acts: seq<Action>, a: Action)
    ensures Final(v, acts + [a]) == if a.Put? then a.value else Final(v, acts)
    ensures Legal(v, acts + [a]) <==> Legal(v, acts) && (a.Get? ==> a.value == Final(v, acts))
  {
    assert (acts + [a])[..|acts + [a]| - 1] == acts;
  }

  lemma LegalNothing(v: Value)
    ensures Legal(v, []) && Final(v, []) == v
  {
  }

  lemma OpsOfAppend(log: seq<Op>, o: Op, t: Tid, k: Key)
    ensures OpsOf(log + [o], t, k) == if o.tid == t && o.key == k then OpsOf(log, t, k) + [o.act] else OpsOf(log, t, k)
  {
    assert (log + [o])[..|log + [o]| - 1] == log;
  }

  lemma {:induction false} NoOpsYet(log: seq<Op>, t: Tid, k: Key)
    requires forall i | 0 <= i < |log| :: log[i].tid != t
    ensures OpsOf(log, t, k) == []
  {
    if log != [] {
      NoOpsYet(log[..|log| - 1], t, k);
    }
  }

  // ----- The invariant

  /** Commits only over committed dependencies. */
  ghost predicate CommitClosed(s: State)
    requires Wf(s)
  {
    forall t, d | 0 <= t < |s.status| && s.status[t] == Committed && d in s.deps[t] :: s.status[d] == Committed
  }

  /** An operation reads from its own transaction, from a committed one, or from a dependency. */
  ghost predicate ReadsTracked(s: State)
    requires Wf(s)
  {
    forall i | 0 <= i < |s.log| && s.log[i].from.Some? && s.log[i].from.value != s.log[i].tid ::
      s.status[s.log[i].from.value] == Committed || s.log[i].from.value in s.deps[s.log[i].tid]
  }

  /** Later creators of the list depend on every earlier one that has not committed. */
  ghost predicate Ordered(s: State, k: Key)
    requires Wf(s)
  {
    var vs := At(s.lists, k);
    forall i, j | 0 <= i < j < |vs| :: s.status[vs[i].creator] == Committed || vs[i].creator in s.deps[vs[j].creator]
  }

  ghost predicate RetiredOk(s: State, k: Key)
    requires Wf(s)
  {
    && AllCommitted(At(s.retired, k), s.status)
    && (At(s.retired, k) != [] ==> At(s.lists, k) != [] && s.status[At(s.lists, k)[0].creator] == Committed)
  }

  function Incoming(c: seq<Version>, i: nat): Value
    requires i < |c|
  {
    if i == 0 then None else c[i - 1].value
  }

  /** The operations of a creator on the key take the value it found to the value in its version. */
  ghost predicate Explained(c: seq<Version>, log: seq<Op>, k: Key, i: nat)
    requires i < |c|
  {
    var acts := OpsOf(log, c[i].creator, k);
    acts != [] && Legal(Incoming(c, i), acts) && Final(Incoming(c, i), acts) == c[i].value
  }

  ghost predicate ChainExplained(s: State, k: Key)
    requires Wf(s)
  {
    forall i | 0 <= i < |Chain(s, k)| && s.status[Chain(s, k)[i].creator] != Aborted ::
      Explained(Chain(s, k), s.log, k, i)
  }

  /** Whoever operated on the key and has not aborted still owns a version of it. */
  ghost predicate ChainComplete(s: State, k: Key)
    requires Wf(s)
  {
    forall t | 0 <= t < |s.status| && s.status[t] != Aborted && OpsOf(s.log, t, k) != [] :: Creates(Chain(s, k), t)
  }

  ghost predicate KeyInv(s: State, k: Key)
    requires Wf(s)
  {
    && Sorted(Chain(s, k))
    && Ordered(s, k)
    && RetiredOk(s, k)
    && ChainExplained(s, k)
    && ChainComplete(s, k)
  }

  ghost predicate AllKeys(s: State)
    requires Wf(s)
  {
    forall k :: KeyInv(s, k)
  }

  ghost predicate Inv(s: State) {
    Wf(s) && CommitClosed(s) && ReadsTracked(s) && AllKeys(s)
  }

  // ----- Consequences used in the preservation proofs

  lemma ListSorted(s: State, k: Key)
    requires Sorted(Chain(s, k))
    ensures Sorted(At(s.lists, k))
  {
    SortedSuffix(At(s.retired, k), At(s.lists, k));
  }

  lemma ListCommittedFirst(s: State, k: Key)
    requires Wf(s) && CommitClosed(s) && KeyInv(s, k)
    ensures CommittedFirst(At(s.lists, k), s.status)
  {
  }

  /** Statuses may be decided, dependencies may be added and transactions created; the versions and the
      operations of `k` stay. */
  lemma KeyInvKept(s: State, s': State, k: Key)
    requires Wf(s) && Wf(s') && KeyInv(s, k)
    requires At(s'.lists, k) == At(s.lists, k) && At(s'.retired, k) == At(s.retired, k)
    requires |s.status| <= |s'.status|
    requires forall t | 0 <= t < |s.status| :: s.status[t] == Committed ==> s'.status[t] == Committed
    requires forall t | 0 <= t < |s.status| :: s.status[t] == Aborted ==> s'.status[t] == Aborted
    requires forall t, d | 0 <= t < |s.status| && d in s.deps[t] :: d in s'.deps[t]
    requires forall t | 0 <= t < |s'.status| :: OpsOf(s'.log, t, k) == OpsOf(s.log, t, k)
    requires forall t | |s.status| <= t < |s'.status| :: OpsOf(s.log, t, k) == []
    ensures KeyInv(s', k)
  {
    assert Chain(s', k) == Chain(s, k);
    forall i | 0 <= i < |Chain(s', k)| && s'.status[Chain(s', k)[i].creator] != Aborted
      ensures Explained(Chain(s', k), s'.log, k, i)
    {
      assert Explained(Chain(s, k), s.log, k, i);
    }
    forall t | 0 <= t < |s'.status| && s'.status[t] != Aborted && OpsOf(s'.log, t, k) != []
      ensures Creates(Chain(s', k), t)
    {
      assert Creates(Chain(s, k), t);
    }
  }

  // ----- Create, commit, abort

  lemma CreateWf(s: State)
    requires Wf(s)
    ensures Wf(Create(s))
  {
  }

  lemma CreateKeepsKeys(s: State)
    requires Wf(s) && AllKeys(s)
    ensures Wf(Create(s)) && AllKeys(Create(s))
  {
    hide OpsOf, Explained, KeyInv;
    CreateWf(s);
    forall k ensures KeyInv(Create(s), k) {
      assert KeyInv(s, k);
      NoOpsYet(s.log, |s.status|, k);
      KeyInvKept(s, Create(s), k);
    }
  }

  lemma CreateKeeps(s: State)
    requires Inv(s)
    ensures Inv(Create(s))
  {
    hide KeyInv;
    CreateKeepsKeys(s);
  }

  /** Deciding pending transactions keeps what holds of the keys. */
  lemma DecideKeepsKeys(s: State, st: seq<Status>)
    requires Wf(s) && AllKeys(s)
    requires |st| == |s.status| && forall t | 0 <= t < |st| :: st[t] == s.status[t] || s.status[t] == Pending
    ensures Wf(s.(status := st)) && AllKeys(s.(status := st))
  {
    forall k ensures KeyInv(s.(status := st), k) {
      KeyInvKept(s, s.(status := st), k);
    }
  }

  lemma AbortKeeps(s: State, t: Tid)
    requires Inv(s) && t < |s.status|
    ensures Inv(Abort(s, t))
  {
    hide KeyInv;
    DecideKeepsKeys(s, Abort(s, t).status);
  }

  lemma CommitKeeps(s: State, t: Tid)
    requires Inv(s) && Enabled(s, EvCommit(t))
    ensures Inv(Commit(s, t))
  {
    hide KeyInv;
    DecideKeepsKeys(s, Commit(s, t).status);
  }

  // ----- Collection

  /** What KeyInv says about the list alone. */
  lemma ListShape(s: State, k: Key)
    requires Wf(s) && CommitClosed(s) && KeyInv(s, k)
    ensures Sorted(At(s.lists, k)) && CommittedFirst(At(s.lists, k), s.status)
  {
    ListSorted(s, k);
    ListCommittedFirst(s, k);
  }

  lemma CollectChain(s: State, k: Key)
    requires Wf(s) && CommittedFirst(At(s.lists, k), s.status)
    ensures Wf(Collect(s, k)) && Chain(s, k) == Chain(Collect(s, k), k) + Doomed(At(s.lists, k), s.status)
  {
    var vs, c := At(s.lists, k), Collect(s, k);
    CollectSplits(vs, s.status);
    CollectWf(s, k);
    hide *;
    Regroup(At(s.retired, k), Outdated(vs, s.status), Collected(vs, s.status), Doomed(vs, s.status));
    assert At(c.retired, k) == At(s.retired, k) + Outdated(vs, s.status);
  }

  lemma Regroup(r: seq<Version>, a: seq<Version>, b: seq<Version>, d: seq<Version>)
    ensures r + (a + b + d) == (r + a) + b + d
  {
  }

  lemma CollectStatus(s: State, k: Key)
    requires Wf(s) && Sorted(At(s.lists, k)) && CommittedFirst(At(s.lists, k), s.status)
    ensures Wf(Collect(s, k))
    ensures var c := Collect(s, k);
            && (forall t | 0 <= t < |s.status| :: c.status[t] == s.status[t] ||
                 (s.status[t] == Pending && c.status[t] == Aborted))
            && NoneAborted(c.lists[k], c.status)
  {
    CollectWf(s, k);
    var vs, c := At(s.lists, k), Collect(s, k);
    CollectSplits(vs, s.status);
    KeptUnharmed(Outdated(vs, s.status), Collected(vs, s.status), Doomed(vs, s.status), s.status);
    forall t | 0 <= t < |s.status| ensures c.status[t] == s.status[t] ||
        (s.status[t] == Pending && c.status[t] == Aborted) {
      AbortCreatorsAt(Doomed(vs, s.status), s.status, t);
    }
  }

  lemma CollectRetired(s: State, k: Key)
    requires Wf(s) && CommitClosed(s) && KeyInv(s, k)
    ensures Wf(Collect(s, k)) && RetiredOk(Collect(s, k), k)
  {
    ListShape(s, k);
    CollectStatus(s, k);
    var vs := At(s.lists, k);
    CollectSplits(vs, s.status);
    KeptUnharmed(Outdated(vs, s.status), Collected(vs, s.status), Doomed(vs, s.status), s.status);
  }

  lemma PartOrdered(vs: seq<Version>, m: nat, part: seq<Version>, deps: seq<seq<Tid>>, st: seq<Status>,
                    st': seq<Status>)
    requires CreatorsBelow(vs, |deps|) && |deps| == |st| == |st'| && CreatorsBelow(part, |deps|)
    requires m + |part| <= |vs| && part == vs[m..m + |part|]
    requires forall t | 0 <= t < |st| && st[t] == Committed :: st'[t] == Committed
    requires forall i, j | 0 <= i < j < |vs| :: st[vs[i].creator] == Committed || vs[i].creator in deps[vs[j].creator]
    ensures forall i, j | 0 <= i < j < |part| ::
              st'[part[i].creator] == Committed || part[i].creator in deps[part[j].creator]
  {
    forall i, j | 0 <= i < j < |part|
      ensures st'[part[i].creator] == Committed || part[i].creator in deps[part[j].creator]
    {
      assert part[i] == vs[m + i] && part[j] == vs[m + j];
    }
  }

  lemma CollectOrdered(s: State, k: Key)
    requires Wf(s) && CommitClosed(s) && KeyInv(s, k)
    ensures Wf(Collect(s, k)) && Ordered(Collect(s, k), k)
  {
    hide ChainExplained, ChainComplete, RetiredOk, Collect, Wf, Sorted, CommittedFirst, NoneAborted, CommitClosed;
    ListShape(s, k);
    CollectStatus(s, k);
    CollectSame(s, k);
    CollectPart(s, k);
    var vs, c := At(s.lists, k), Collect(s, k);
    PartOrdered(vs, |Outdated(vs, s.status)|, c.lists[k], s.deps, s.status, c.status);
  }

  /** What is left of the list is a part of it. */
  lemma CollectPart(s: State, k: Key)
    requires Wf(s) && CommittedFirst(At(s.lists, k), s.status)
    ensures var vs, c := At(s.lists, k), Collect(s, k); var m := |Outdated(vs, s.status)|;
            && k in c.lists && CreatorsBelow(vs, |s.status|) && CreatorsBelow(c.lists[k], |s.status|)
            && m + |c.lists[k]| <= |vs| && c.lists[k] == vs[m..m + |c.lists[k]|]
  {
    hide Collected, Outdated, Doomed, AbortCreators, CommittedFirst;
    CollectSplits(At(s.lists, k), s.status);
  }

  lemma CollectChainInv(s: State, k: Key)
    requires Wf(s) && CommitClosed(s) && KeyInv(s, k)
    ensures Wf(Collect(s, k)) && Sorted(Chain(Collect(s, k), k))
    ensures ChainExplained(Collect(s, k), k) && ChainComplete(Collect(s, k), k)
  {
    ListShape(s, k);
    CollectStatus(s, k);
    CollectChain(s, k);
    AbortCreatorsAll(Doomed(At(s.lists, k), s.status), s.status);
    hide ChainExplained, ChainComplete, Sorted, Chain, Ordered, RetiredOk, Wf, NoneAborted, CommitClosed,
         CommittedFirst, AllCommitted;
    ChainCut(s, Collect(s, k), k, Doomed(At(s.lists, k), s.status));
  }

  /** Cutting versions of aborted transactions off the end of a chain. */
  lemma ChainCut(s: State, c: State, k: Key, d: seq<Version>)
    requires Wf(s) && Wf(c) && Sorted(Chain(s, k)) && ChainExplained(s, k) && ChainComplete(s, k)
    requires c.log == s.log && |c.status| == |s.status|
    requires forall t | 0 <= t < |s.status| && c.status[t] != Aborted :: s.status[t] != Aborted
    requires Chain(s, k) == Chain(c, k) + d
    requires CreatorsBelow(d, |c.status|) && forall i | 0 <= i < |d| :: c.status[d[i].creator] == Aborted
    ensures Sorted(Chain(c, k)) && ChainExplained(c, k) && ChainComplete(c, k)
  {
    var before, after := Chain(s, k), Chain(c, k);
    assert forall i | 0 <= i < |after| :: after[i] == before[i];
    forall i | 0 <= i < |after| && c.status[after[i].creator] != Aborted ensures Explained(Chain(c, k), c.log, k, i) {
      assert Explained(Chain(s, k), s.log, k, i);
    }
    forall t | 0 <= t < |c.status| && c.status[t] != Aborted && OpsOf(c.log, t, k) != []
        ensures Creates(Chain(c, k), t) {
      assert Creates(Chain(s, k), t);
      var i :| 0 <= i < |before| && before[i].creator == t;
      assert after[i].creator == t;
    }
  }

  lemma CollectKeepsKeys(s: State, k: Key)
    requires Wf(s) && CommitClosed(s) && AllKeys(s)
    ensures Wf(Collect(s, k)) && AllKeys(Collect(s, k))
  {
    var c := Collect(s, k);
    assert KeyInv(s, k);
    ListShape(s, k);
    CollectStatus(s, k);
    forall k' ensures KeyInv(c, k') {
      if k' == k {
        CollectRetired(s, k);
        CollectOrdered(s, k);
        CollectChainInv(s, k);
      } else {
        KeyInvKept(s, c, k');
      }
    }
  }

  lemma CollectKeeps(s: State, k: Key)
    requires Inv(s)
    ensures Inv(Collect(s, k))
    ensures NoneAborted(Collect(s, k).lists[k], Collect(s, k).status)
    ensures forall t | 0 <= t < |s.status| ::
              Collect(s, k).status[t] == s.status[t] || (s.status[t] == Pending && Collect(s, k).status[t] == Aborted)
  {
    hide KeyInv, Wf, NoneAborted, CommitClosed, ReadsTracked;
    CollectKeepsKeys(s, k);
    assert KeyInv(s, k);
    ListShape(s, k);
    CollectStatus(s, k);
    CollectSame(s, k);
    CollectKeepsReads(s, k);
  }

  lemma CollectKeepsReads(s: State, k: Key)
    requires Wf(s) && Wf(Collect(s, k)) && CommitClosed(s) && ReadsTracked(s)
    requires forall t | 0 <= t < |s.status| ::
              Collect(s, k).status[t] == s.status[t] || (s.status[t] == Pending && Collect(s, k).status[t] == Aborted)
    ensures CommitClosed(Collect(s, k)) && ReadsTracked(Collect(s, k))
  {
    CollectSame(s, k);
    hide Collect;
  }

  lemma CollectSame(s: State, k: Key)
    requires Wf(s)
    ensures Collect(s, k).deps == s.deps && Collect(s, k).log == s.log && k in Collect(s, k).lists
    ensures |Collect(s, k).status| == |s.status| == |s.deps|
    ensures LogInRange(s.log, |s.status|) && DepsBelow(s.deps)
  {
  }

  // ----- An admitted operation

  /** An admitted operation takes effect on a freshly collected list: every version is live, and the
      operating transaction is at least the last creator. */
  ghost predicate Ready(s: State, t: Tid, k: Key) {
    && Wf(s)
    && t < |s.status| && s.status[t] != Committed
    && k in s.lists && Sorted(s.lists[k])
    && NoneAborted(s.lists[k], s.status)
    && Admits(s.lists[k], t)
  }

  lemma PerformWf(s: State, t: Tid, k: Key, act: Action)
    requires Ready(s, t, k)
    ensures Wf(Perform(s, t, k, act))
  {
    var vs, v := s.lists[k], Version(t, act.value);
    if vs != [] { LastIsMax(vs); }
    AddDependenciesDistinct(s.deps[t], Install(vs, v), t, s.status);
    forall d | d in AddDependencies(s.deps[t], Install(vs, v), t, s.status) ensures d < t {
      AddDependenciesAdds(s.deps[t], Install(vs, v), t, s.status, d);
      InstallCreates(vs, v, d);
      EarlierCreator(vs, t, d);
    }
  }

  lemma EarlierCreator(vs: seq<Version>, t: Tid, d: Tid)
    requires Admits(vs, t)
    ensures Creates(vs, d) ==> d <= t
  {
    if vs != [] { MaxCreatorIsMax(vs); }
  }

  /** The dependencies of the operating transaction grow by the live pending creators; no others change. */
  lemma PerformDeps(s: State, t: Tid, k: Key, act: Action)
    requires Ready(s, t, k)
    ensures var s' := Perform(s, t, k, act);
            && |s'.deps| == |s.deps|
            && (forall u, d | 0 <= u < |s.deps| && d in s.deps[u] :: d in s'.deps[u])
            && (forall i | 0 <= i < |s.lists[k]| && s.lists[k][i].creator != t ::
                  s.status[s.lists[k][i].creator] == Committed || s.lists[k][i].creator in s'.deps[t])
  {
    var vs, v := s.lists[k], Version(t, act.value);
    forall d | d in s.deps[t] ensures d in AddDependencies(s.deps[t], Install(vs, v), t, s.status) {
      AddDependenciesAdds(s.deps[t], Install(vs, v), t, s.status, d);
    }
    forall i | 0 <= i < |vs| && vs[i].creator != t && s.status[vs[i].creator] != Committed
      ensures vs[i].creator in AddDependencies(s.deps[t], Install(vs, v), t, s.status)
    {
      var d := vs[i].creator;
      InstallCreates(vs, v, d);
      AddDependenciesAdds(s.deps[t], Install(vs, v), t, s.status, d);
    }
  }

  lemma PerformOrdered(s: State, t: Tid, k: Key, act: Action)
    requires Ready(s, t, k) && Ordered(s, k)
    ensures Wf(Perform(s, t, k, act)) && Ordered(Perform(s, t, k, act), k)
  {
    PerformWf(s, t, k, act);
    PerformDeps(s, t, k, act);
    var s' := Perform(s, t, k, act);
    var vs, after := s.lists[k], s'.lists[k];
    InstallParts(vs, Version(t, act.value));
    if vs != [] { LastIsMax(vs); }
    forall i, j | 0 <= i < j < |after|
      ensures s'.status[after[i].creator] == Committed || after[i].creator in s'.deps[after[j].creator]
    {
      assert after[i] == vs[i];
      if j == |after| - 1 {
        assert vs[i].creator != t by {
          if i < |vs| - 1 { assert vs[i].creator < vs[|vs| - 1].creator; }
        }
      } else {
        assert after[j] == vs[j];
      }
    }
  }

  /** An operation extends the chain the way it extends the list. */
  lemma PerformChain(s: State, t: Tid, k: Key, act: Action)
    requires Ready(s, t, k) && RetiredOk(s, k)
    ensures Wf(Perform(s, t, k, act))
    ensures Chain(Perform(s, t, k, act), k) == Install(Chain(s, k), Version(t, act.value))
    ensures LastValue(s.lists[k]) == LastValue(Chain(s, k)) && LastCreator(s.lists[k]) == LastCreator(Chain(s, k))
    ensures Chain(s, k) == [] || Chain(s, k)[|Chain(s, k)| - 1].creator <= t
    ensures RetiredOk(Perform(s, t, k, act), k)
  {
    hide Wf, Install, CreatorsBelow, NoneAborted, Sorted, Admits, LastValue, LastCreator;
    PerformWf(s, t, k, act);
    PerformRetired(s, t, k, act);
    ReadyLast(s, t, k);
    InstallAfter(At(s.retired, k), s.lists[k], Version(t, act.value));
  }

  lemma InstallAfter(r: seq<Version>, vs: seq<Version>, v: Version)
    requires r != [] ==> vs != []
    ensures r + Install(vs, v) == Install(r + vs, v)
    ensures LastValue(vs) == LastValue(r + vs) && LastCreator(vs) == LastCreator(r + vs)
    ensures r + vs == [] <==> vs == []
    ensures vs != [] ==> (r + vs)[|r + vs| - 1] == vs[|vs| - 1]
  {
    if r == [] { assert r + vs == vs && r + Install(vs, v) == Install(vs, v); }
  }

  lemma ReadyLast(s: State, t: Tid, k: Key)
    requires Ready(s, t, k)
    ensures s.lists[k] != [] ==> s.lists[k][|s.lists[k]| - 1].creator <= t
  {
    if s.lists[k] != [] { LastIsMax(s.lists[k]); }
  }

  lemma PerformRetired(s: State, t: Tid, k: Key, act: Action)
    requires Ready(s, t, k) && RetiredOk(s, k)
    ensures Wf(Perform(s, t, k, act)) && RetiredOk(Perform(s, t, k, act), k)
    ensures At(s.retired, k) != [] ==> s.lists[k] != []
  {
    PerformWf(s, t, k, act);
    InstallParts(s.lists[k], Version(t, act.value));
    hide Wf, NoneAborted, Sorted, Admits;
  }

  /** Adding one operation of the greatest creator to an explained chain. */
  lemma ExtendEarlier(c: seq<Version>, log: seq<Op>, o: Op, i: nat)
    requires Sorted(c) && (c == [] || c[|c| - 1].creator <= o.tid)
    requires i < |Install(c, Version(o.tid, o.act.value))| - 1
    requires Explained(c, log, o.key, i)
    ensures Explained(Install(c, Version(o.tid, o.act.value)), log + [o], o.key, i)
  {
    var after := Install(c, Version(o.tid, o.act.value));
    InstallParts(c, Version(o.tid, o.act.value));
    assert after[i] == c[i] && Incoming(after, i) == Incoming(c, i);
    assert c[i].creator != o.tid by {
      if i < |c| - 1 { assert c[i].creator < c[|c| - 1].creator; }
    }
    OpsOfAppend(log, o, c[i].creator, o.key);
  }

  lemma LastUnlisted(c: seq<Version>, t: Tid)
    requires Sorted(c) && (c == [] || c[|c| - 1].creator < t)
    ensures !Creates(c, t)
  {
  }

  lemma ExtendLast(c: seq<Version>, log: seq<Op>, o: Op)
    requires Sorted(c) && (c == [] || c[|c| - 1].creator <= o.tid)
    requires OpsOf(log, o.tid, o.key) != [] ==> Creates(c, o.tid)
    requires c != [] && c[|c| - 1].creator == o.tid ==> Explained(c, log, o.key, |c| - 1)
    requires o.act.Get? ==> o.act.value == LastValue(c)
    ensures var after := Install(c, Version(o.tid, o.act.value)); Explained(after, log + [o], o.key, |after| - 1)
  {
    hide OpsOf, Legal, Final;
    var after := Install(c, Version(o.tid, o.act.value));
    InstallParts(c, Version(o.tid, o.act.value));
    var i := |after| - 1;
    OpsOfAppend(log, o, o.tid, o.key);
    var acts := OpsOf(log, o.tid, o.key);
    LegalSnoc(Incoming(after, i), acts, o.act);
    if i < |c| {
      assert Incoming(after, i) == Incoming(c, i);
    } else {
      LastUnlisted(c, o.tid);
      LegalNothing(Incoming(after, i));
    }
  }

  lemma ExtendExplained(c: seq<Version>, st: seq<Status>, log: seq<Op>, o: Op)
    requires Sorted(c) && CreatorsBelow(c, |st|) && o.tid < |st| && (c == [] || c[|c| - 1].creator <= o.tid)
    requires forall i | 0 <= i < |c| && st[c[i].creator] != Aborted :: Explained(c, log, o.key, i)
    requires st[o.tid] != Aborted && OpsOf(log, o.tid, o.key) != [] ==> Creates(c, o.tid)
    requires o.act.Get? ==> o.act.value == LastValue(c)
    ensures var after := Install(c, Version(o.tid, o.act.value));
            CreatorsBelow(after, |st|) && forall i | 0 <= i < |after| && st[after[i].creator] != Aborted ::
                Explained(after, log + [o], o.key, i)
  {
    var after := Install(c, Version(o.tid, o.act.value));
    InstallParts(c, Version(o.tid, o.act.value));
    hide Explained, OpsOf, Install;
    forall i | 0 <= i < |after| && st[after[i].creator] != Aborted ensures Explained(after, log + [o], o.key, i) {
      if i < |after| - 1 { ExtendEarlier(c, log, o, i); } else { ExtendLast(c, log, o); }
    }
  }

  lemma PerformExplained(s: State, t: Tid, k: Key, act: Action)
    requires Ready(s, t, k) && RetiredOk(s, k) && Sorted(Chain(s, k)) && ChainExplained(s, k) && ChainComplete(s, k)
    requires act.Get? ==> act.value == LastValue(s.lists[k])
    ensures Wf(Perform(s, t, k, act)) && ChainExplained(Perform(s, t, k, act), k)
  {
    PerformChain(s, t, k, act);
    hide Explained, OpsOf;
    ExtendExplained(Chain(s, k), s.status, s.log, Op(t, k, act, LastCreator(s.lists[k])));
  }

  lemma PerformSizes(s: State, t: Tid, k: Key, act: Action)
    requires Ready(s, t, k)
    ensures |Perform(s, t, k, act).status| == |s.status| && t < |s.status| && k in s.lists
    ensures Perform(s, t, k, act).log == s.log + [Op(t, k, act, LastCreator(s.lists[k]))]
  {
  }

  lemma PerformComplete(s: State, t: Tid, k: Key, act: Action)
    requires Ready(s, t, k) && RetiredOk(s, k) && ChainComplete(s, k)
    ensures Wf(Perform(s, t, k, act)) && ChainComplete(Perform(s, t, k, act), k)
  {
    hide Wf, RetiredOk, Install, Sorted, NoneAborted, Admits, LastValue, LastCreator;
    PerformChain(s, t, k, act);
    PerformSizes(s, t, k, act);
    var s' := Perform(s, t, k, act);
    var before := Chain(s, k);
    forall u | 0 <= u < |s'.status| && s'.status[u] != Aborted && OpsOf(s'.log, u, k) != []
        ensures Creates(Chain(s', k), u) {
      OpsOfAppend(s.log, s'.log[|s.log|], u, k);
      if u != t { assert Creates(before, u); }
      InstallCreates(before, Version(t, act.value), u);
    }
  }

  lemma PerformOwnKey(s: State, t: Tid, k: Key, act: Action)
    requires Ready(s, t, k) && KeyInv(s, k)
    requires act.Get? ==> act.value == LastValue(s.lists[k])
    ensures Wf(Perform(s, t, k, act)) && KeyInv(Perform(s, t, k, act), k)
  {
    PerformOrdered(s, t, k, act);
    PerformChain(s, t, k, act);
    InstallSorted(Chain(s, k), Version(t, act.value));
    PerformExplained(s, t, k, act);
    PerformComplete(s, t, k, act);
  }

  lemma PerformOtherKey(s: State, t: Tid, k: Key, act: Action, k': Key)
    requires Ready(s, t, k) && k' != k && KeyInv(s, k')
    ensures Wf(Perform(s, t, k, act)) && KeyInv(Perform(s, t, k, act), k')
  {
    PerformWf(s, t, k, act);
    PerformDeps(s, t, k, act);
    var s' := Perform(s, t, k, act);
    forall u | 0 <= u < |s'.status| ensures OpsOf(s'.log, u, k') == OpsOf(s.log, u, k') {
      OpsOfAppend(s.log, s'.log[|s.log|], u, k');
    }
    KeyInvKept(s, s', k');
  }

  lemma PerformReads(s: State, t: Tid, k: Key, act: Action)
    requires Ready(s, t, k) && ReadsTracked(s) && CommitClosed(s)
    ensures Wf(Perform(s, t, k, act)) && ReadsTracked(Perform(s, t, k, act)) && CommitClosed(Perform(s, t, k, act))
  {
    PerformWf(s, t, k, act);
    PerformDeps(s, t, k, act);
    var s' := Perform(s, t, k, act);
    var vs := s.lists[k];
    if vs != [] { LastIsMax(vs); }
    forall i | 0 <= i < |s'.log| && s'.log[i].from.Some? && s'.log[i].from.value != s'.log[i].tid
      ensures s'.status[s'.log[i].from.value] == Committed || s'.log[i].from.value in s'.deps[s'.log[i].tid]
    {
      if i < |s.log| {
        assert s'.log[i] == s.log[i];
      }
    }
  }

  lemma PerformKeeps(s: State, t: Tid, k: Key, act: Action)
    requires Inv(s) && Ready(s, t, k)
    requires act.Get? ==> act.value == LastValue(s.lists[k])
    ensures Inv(Perform(s, t, k, act))
  {
    PerformReads(s, t, k, act);
    var s' := Perform(s, t, k, act);
    hide KeyInv;
    forall k' ensures KeyInv(s', k') {
      if k' == k { PerformOwnKey(s, t, k, act); } else { PerformOtherKey(s, t, k, act, k'); }
    }
  }

  // ----- Every step, every run

  lemma AccessKeeps(s: State, t: Tid, k: Key, act: Action)
    requires Inv(s) && t < |s.status| && s.status[t] != Committed
    requires act.Get? ==> act.value == ReadValue(s, k)
    ensures Inv(Access(s, t, k, act))
  {
    CollectKeeps(s, k);
    var c := Collect(s, k);
    assert Sorted(c.lists[k]) by {
      assert KeyInv(c, k);
      ListSorted(c, k);
    }
    hide KeyInv;
    if Admits(c.lists[k], t) {
      PerformKeeps(c, t, k, act);
    } else {
      AbortKeeps(c, t);
    }
  }

  lemma ApplyKeeps(s: State, e: Event)
    requires Inv(s) && Enabled(s, e)
    ensures Inv(Apply(s, e))
  {
    match e
    case EvCreate => CreateKeeps(s);
    case EvPut(t, k, v) => AccessKeeps(s, t, k, Put(v));
    case EvGet(t, k) => AccessKeeps(s, t, k, Get(ReadValue(s, k)));
    case EvCommit(t) => CommitKeeps(s, t);
    case EvAbort(t) => AbortKeeps(s, t);
  }

  lemma InitInv()
    ensures Inv(INIT)
  {
    forall k ensures KeyInv(INIT, k) {}
  }

  lemma {:induction false} RunsKeep(s: State, es: seq<Event>, s': State)
    requires Inv(s) && Runs(s, es, s')
    ensures Inv(s')
    decreases |es|
  {
    if es != [] {
      ApplyKeeps(s, es[0]);
      RunsKeep(Apply(s, es[0]), es[1..], s');
    }
  }

  lemma ReachableInv(s: State)
    requires Reachable(s)
    ensures Inv(s)
  {
    InitInv();
    var es :| Runs(INIT, es, s);
    RunsKeep(INIT, es, s);
  }
}
