/** What every call does, spelled out without the functions that the model computes it by. */
module Effects {
  import opened Types
  import opened VersionLists
  import opened Protocol
  import opened Invariant
  import opened References
  import opened Waiting
  import opened Machine
  import opened Books
  import opened Ids
  import opened MachineInvariant
  import opened MachineTheorems
  import opened BlobBooks
  import opened BlobRuns
  import opened StoreFacts

  // ----- Collection

  /** `kept` is `vs` from `a` to before `b`, where the first aborted version is at `b`, if there is any, and the
      last committed one before it at `a`, if there is any. */
  ghost predicate PassLeaves(vs: seq<Version>, st: seq<Status>, kept: seq<Version>, a: nat, b: nat)
    requires CreatorsBelow(vs, |st|)
  {
    && a <= b <= |vs| && kept == vs[a..b]
    && (forall i | 0 <= i < b :: st[vs[i].creator] != Aborted)
    && (b < |vs| ==> st[vs[b].creator] == Aborted)
    && (a > 0 ==> a < b && st[vs[a].creator] == Committed)
    && (forall i | a < i < b :: st[vs[i].creator] != Committed)
  }

  /** A pass leaves the version list so, aborts the creators from the first aborted version on, and touches nothing
      else that anybody can see. */
  lemma PassExactly(s: State, k: Key) returns (a: nat, b: nat)
    requires Reachable(s)
    ensures Wf(s) && k in Collect(s, k).lists && CreatorsBelow(At(s.lists, k), |s.status|)
    ensures PassLeaves(At(s.lists, k), s.status, Collect(s, k).lists[k], a, b)
    ensures |Collect(s, k).status| == |s.status| && forall t | 0 <= t < |s.status| ::
              Collect(s, k).status[t] ==
              if exists i | b <= i < |At(s.lists, k)| :: At(s.lists, k)[i].creator == t then Aborted else s.status[t]
    ensures forall j | j != k :: (j in Collect(s, k).lists <==> j in s.lists) &&
              At(Collect(s, k).lists, j) == At(s.lists, j)
    ensures Collect(s, k).deps == s.deps && Collect(s, k).log == s.log
  {
    hide Inv, Reachable, Collected, Outdated, Doomed, AbortCreators, CommittedFirst, PassLeaves;
    ReachableInv(s);
    KeyShape(s, k);
    a, b := PassParts(At(s.lists, k), s.status);
    PassStatus(At(s.lists, k), s.status, b);
  }

  lemma KeyShape(s: State, k: Key)
    requires Inv(s)
    ensures Wf(s) && CreatorsBelow(At(s.lists, k), |s.status|) && CommittedFirst(At(s.lists, k), s.status)
  {
    assert KeyInv(s, k);
    ListShape(s, k);
  }

  lemma PassParts(vs: seq<Version>, st: seq<Status>) returns (a: nat, b: nat)
    requires CreatorsBelow(vs, |st|) && CommittedFirst(vs, st)
    ensures PassLeaves(vs, st, Collected(vs, st), a, b) && b <= |vs| && Doomed(vs, st) == vs[b..]
  {
    hide Outdated, Collected, CommittedFirst, HasCommitted, PassLeaves, AllCommitted, NoneAborted;
    CollectSplits(vs, st);
    a, b := |Outdated(vs, st)|, FirstAborted(vs, st);
    var kept := Collected(vs, st);
    assert |vs| == a + |kept| + |Doomed(vs, st)|;
    assert vs[..a] == Outdated(vs, st) && vs[a..b] == kept && vs[b..] == Doomed(vs, st);
    PassPieces(vs, st, a, b);
  }

  lemma PassPieces(vs: seq<Version>, st: seq<Status>, a: nat, b: nat)
    requires CreatorsBelow(vs, |st|) && a <= b <= |vs|
    requires AllCommitted(vs[..a], st) && NoneAborted(vs[a..b], st)
    requires forall i | 0 < i < b - a :: st[vs[a..b][i].creator] == Pending
    requires a > 0 ==> a < b && st[vs[a..b][0].creator] == Committed
    requires b < |vs| ==> st[vs[b..][0].creator] == Aborted
    ensures PassLeaves(vs, st, vs[a..b], a, b)
  {
    assert forall i | 0 <= i < a :: vs[i] == vs[..a][i];
    assert forall i | a <= i < b :: vs[i] == vs[a..b][i - a];
  }

  lemma PassStatus(vs: seq<Version>, st: seq<Status>, b: nat)
    requires CreatorsBelow(vs, |st|) && b <= |vs| && Doomed(vs, st) == vs[b..]
    ensures forall t | 0 <= t < |st| ::
              AbortCreators(Doomed(vs, st), st)[t] ==
              if exists i | b <= i < |vs| :: vs[i].creator == t then Aborted else st[t]
  {
    hide AbortCreators, Doomed;
    forall t | 0 <= t < |st|
      ensures AbortCreators(Doomed(vs, st), st)[t] ==
              if exists i | b <= i < |vs| :: vs[i].creator == t then Aborted else st[t]
    {
      AbortCreatorsAt(Doomed(vs, st), st, t);
      DoomedCreators(vs, st, b, t);
    }
  }

  lemma DoomedCreators(vs: seq<Version>, st: seq<Status>, b: nat, t: Tid)
    requires CreatorsBelow(vs, |st|) && b <= |vs| && Doomed(vs, st) == vs[b..]
    ensures Creates(Doomed(vs, st), t) <==> exists i | b <= i < |vs| :: vs[i].creator == t
  {
    hide Doomed;
    if i :| b <= i < |vs| && vs[i].creator == t {
      assert vs[b..][i - b].creator == t;
    }
  }

  // ----- Operations

  lemma AdmittedExactly(s: State, t: Tid, k: Key)
    requires Reachable(s)
    ensures Wf(s) && k in Collect(s, k).lists
    ensures Admitted(s, t, k) <==>
              forall i | 0 <= i < |Collect(s, k).lists[k]| :: Collect(s, k).lists[k][i].creator <= t
  {
    ReachableInv(s);
    hide Inv;
    AdmitsExactly(Collect(s, k).lists[k], t);
    hide Collect;
  }

  /** What a version list becomes by an operation of `t`: the new version takes the place of the last one when that
      is a version of `t`, and is added at the end otherwise. */
  function WithVersion(vs: seq<Version>, t: Tid, value: Value): seq<Version> {
    (if vs != [] && vs[|vs| - 1].creator == t then vs[..|vs| - 1] else vs) + [Version(t, value)]
  }

  /** An operation of `t` on `k`, once the list is `vs` and the state `c`, has been carried out. */
  ghost predicate CarriedOut(c: State, s': State, vs: seq<Version>, t: Tid, k: Key, act: Action) {
    && s'.lists == c.lists[k := WithVersion(vs, t, act.value)]
    && s'.status == c.status
    && s'.log == c.log + [Op(t, k, act, if vs == [] then None else Some(vs[|vs| - 1].creator))]
    && |s'.deps| == |c.deps| && t < |c.deps| == |c.status|
    && (forall u | 0 <= u < |c.deps| && u != t :: s'.deps[u] == c.deps[u])
    && (forall d: Tid :: d in s'.deps[t] <==>
          d in c.deps[t] ||
          (d != t && exists i | 0 <= i < |vs| && vs[i].creator < |c.status| ::
             vs[i].creator == d && c.status[d] == Pending))
  }

  /** PUT and GET: after the pass the operation is carried out if the id is great enough, and otherwise its
      transaction is aborted and nothing else happens. */
  lemma AccessExactly(s: State, t: Tid, k: Key, act: Action)
    requires Reachable(s) && t < |s.status|
    ensures Wf(s) && k in Collect(s, k).lists && |Collect(s, k).status| == |s.status|
    ensures var c := Collect(s, k); var vs, s' := c.lists[k], Access(s, t, k, act);
            if GreatEnough(vs, t) then CarriedOut(c, s', vs, t, k, act)
            else s' == c.(status := if c.status[t] == Pending then c.status[t := Aborted] else c.status)
  {
    ReachableInv(s);
    CollectWf(s, k);
    CollectSame(s, k);
    hide Inv;
    var c := Collect(s, k);
    AdmitsExactly(c.lists[k], t);
    hide Collect;
    PerformExactly(c, t, k, act);
    hide Perform, Admits, CarriedOut;
  }

  lemma PerformExactly(c: State, t: Tid, k: Key, act: Action)
    requires Wf(c) && k in c.lists && t < |c.status|
    ensures CarriedOut(c, Perform(c, t, k, act), c.lists[k], t, k, act)
  {
    var vs := c.lists[k];
    var v := Version(t, act.value);
    forall d: Tid ensures d in AddDependencies(c.deps[t], Install(vs, v), t, c.status) <==>
        d in c.deps[t] ||
        (d != t && exists i | 0 <= i < |vs| && vs[i].creator < |c.status| ::
           vs[i].creator == d && c.status[d] == Pending)
    {
      AddDependenciesAdds(c.deps[t], Install(vs, v), t, c.status, d);
      InstallCreates(vs, v, d);
    }
    hide AddDependencies;
  }

  /** A GET reads the last version that the pass has left. */
  lemma ReadsLast(s: State, k: Key)
    requires Reachable(s)
    ensures Wf(s) && k in Collect(s, k).lists
    ensures var vs := Collect(s, k).lists[k]; ReadValue(s, k) == if vs == [] then None else vs[|vs| - 1].value
  {
    ReachableInv(s);
    hide Inv, Collected;
  }

  /** Whoever owns the last version of a key may operate on it again: it reads its own value, and its version is
      replaced. */
  lemma OwnVersion(s: State, t: Tid, k: Key, act: Action)
    requires Reachable(s) && t < |s.status| && Wf(s) && k in Collect(s, k).lists
    requires var vs := Collect(s, k).lists[k]; vs != [] && vs[|vs| - 1].creator == t
    ensures var vs := Collect(s, k).lists[k];
            && Admitted(s, t, k) && ReadValue(s, k) == vs[|vs| - 1].value
            && Access(s, t, k, act).lists == Collect(s, k).lists[k := vs[..|vs| - 1] + [Version(t, act.value)]]
  {
    hide Inv, Reachable, Collect, Access, Admitted, ReadValue;
    CollectedSorted(s, k);
    AccessExactly(s, t, k, act);
    AdmittedExactly(s, t, k);
    ReadsLast(s, k);
  }

  lemma CollectedSorted(s: State, k: Key)
    requires Reachable(s)
    ensures Wf(s) && k in Collect(s, k).lists && Sorted(Collect(s, k).lists[k])
  {
    ReachableInv(s);
    CollectKeeps(s, k);
    assert KeyInv(Collect(s, k), k);
    ListShape(Collect(s, k), k);
    hide Inv, KeyInv;
  }

  /** A transaction reads what it has just written. */
  lemma ReadsOwnWrite(s: State, t: Tid, k: Key, v: Value)
    requires Reachable(s) && Wf(s) && t < |s.status| && s.status[t] != Committed && Admitted(s, t, k)
    requires |Collect(s, k).status| == |s.status| && Collect(s, k).status[t] == Pending
    ensures var s' := Apply(s, EvPut(t, k, v));
            && Reachable(s') && Wf(s') && t < |s'.status| && s'.status[t] == Pending
            && Admitted(s', t, k) && ReadValue(s', k) == v
            && Access(s', t, k, Get(v)).status == s'.status
  {
    var s' := Apply(s, EvPut(t, k, v));
    ReachableStep(s, EvPut(t, k, v));
    AccessExactly(s, t, k, Put(v));
    AdmittedExactly(s, t, k);
    Recoverability.CollectedShape(s, k);
    hide Collect, Access, Admitted, ReadValue, Reachable, Wf;
    AddedShape(Collect(s, k).lists[k], Collect(s, k).status, t, v);
    StillThere(s', k);
    OwnVersion(s', t, k, Get(v));
    AccessExactly(s', t, k, Get(v));
    AdmittedExactly(s', t, k);
  }

  lemma AddedShape(vs: seq<Version>, st: seq<Status>, t: Tid, v: Value)
    requires CreatorsBelow(vs, |st|) && t < |st| && st[t] == Pending
    requires forall i | 0 < i < |vs| :: st[vs[i].creator] == Pending
    requires vs != [] ==> st[vs[0].creator] != Aborted
    ensures var r := WithVersion(vs, t, v);
            && r != [] && r[|r| - 1] == Version(t, v)
            && (forall i | 0 <= i < |r| :: r[i].creator < |st| && st[r[i].creator] != Aborted)
            && (forall i | 0 < i < |r| :: st[r[i].creator] != Committed)
  {
  }

  lemma ReachableStep(s: State, e: Event)
    requires Reachable(s) && Wf(s) && Enabled(s, e)
    ensures Reachable(Apply(s, e)) && Wf(Apply(s, e))
  {
    ReachableInv(s);
    ApplyKeeps(s, e);
    hide Inv;
    var es :| Runs(INIT, es, s);
    RunsOne(s, e);
    RunsJoin(INIT, es, s, [e], Apply(s, e));
  }

  /** A pass changes nothing when there is at most one committed version, first, and none is aborted. */
  lemma StillThere(s: State, k: Key)
    requires Reachable(s) && Wf(s) && k in s.lists
    requires forall i | 0 <= i < |s.lists[k]| :: s.status[s.lists[k][i].creator] != Aborted
    requires forall i | 0 < i < |s.lists[k]| :: s.status[s.lists[k][i].creator] != Committed
    ensures k in Collect(s, k).lists && Collect(s, k).lists[k] == s.lists[k] && Collect(s, k).status == s.status
  {
    var a, b := PassExactly(s, k);
    assert b == |s.lists[k]| && a == 0;
  }

  // ----- Calls: references, threads and decisions

  /** trans_create: a pending transaction without dependencies, idle, and one reference, the caller's. */
  lemma CreateExactly(w: World)
    requires WorldWf(w)
    ensures var w' := Do(w, CallCreate);
            && w'.core == w.core.(status := w.core.status + [Pending], deps := w.core.deps + [[]])
            && w'.counts == w.counts + [1] && w'.handles == w.handles + [1] && w'.entries == w.entries
            && w'.waits == Waits(w.waits.phase + [Idle], w.waits.waitcnt + [0], w.waits.sem + [0])
            && |w'.ids| == |w.ids| + 1 && w'.ids[..|w.ids|] == w.ids
  {
    hide Wf, NextId;
  }

  /** Its id is 0 when no transaction is live, and otherwise the one after the greatest id of a live one. */
  lemma NextIdExactly(w: World)
    requires WorldInv(w)
    ensures |w.ids| == |w.counts|
    ensures (forall t | 0 <= t < |w.counts| :: w.counts[t] == 0) ==> NextId(w.ids, w.counts) == 0
    ensures (exists t | 0 <= t < |w.counts| :: w.counts[t] > 0) ==>
              exists t | 0 <= t < |w.counts| :: w.counts[t] > 0 && NextId(w.ids, w.counts) == w.ids[t] + 1
    ensures forall t | 0 <= t < |w.counts| && w.counts[t] > 0 :: w.ids[t] < NextId(w.ids, w.counts)
  {
    NewestLiveInRange(w.counts);
    NewestHasGreatest(w);
    hide Inv, WaitInv, BooksOk, IdOrder, Handled, Wf;
  }

  ghost predicate OneMore(xs: seq<nat>, xs': seq<nat>, i: nat) {
    i < |xs| && xs' == xs[i := xs[i] + 1]
  }

  ghost predicate OneLess(xs: seq<nat>, xs': seq<nat>, i: nat) {
    i < |xs| && xs[i] > 0 && xs' == xs[i := xs[i] - 1]
  }

  /** trans_ref: one more reference, the caller's. */
  ghost predicate Referred(w: World, w': World, t: Tid) {
    w' == w.(counts := w'.counts, handles := w'.handles) && OneMore(w.counts, w'.counts, t) &&
    OneMore(w.handles, w'.handles, t)
  }

  lemma RefExactly(w: World, t: Tid)
    requires WorldWf(w) && Allowed(w, CallRef(t))
    ensures Referred(w, Do(w, CallRef(t)), t)
  {
  }

  /** The count of `t` has gone down by one, and no count up. */
  ghost predicate CountDropped(counts: seq<nat>, counts': seq<nat>, t: Tid) {
    && t < |counts| == |counts'| && counts[t] > 0 && counts'[t] == counts[t] - 1
    && forall u | 0 <= u < |counts| :: counts'[u] <= counts[u]
  }

  /** trans_unref: the caller has one reference less, and nothing but counts changes beside it. */
  ghost predicate Unreferred(w: World, w': World, t: Tid) {
    w' == w.(counts := w'.counts, handles := w'.handles) && CountDropped(w.counts, w'.counts, t) &&
    OneLess(w.handles, w'.handles, t)
  }

  lemma UnrefExactly(w: World, t: Tid)
    requires WorldInv(w) && Allowed(w, CallUnref(t))
    ensures Unreferred(w, Do(w, CallUnref(t)), t)
  {
    hide Inv, WaitInv, BooksOk, IdOrder, Handled, Unref;
    HandleIsLive(w, t);
    UnrefOne(w.counts, w.core.deps, t);
  }

  /** Dropping a reference to `t` takes one from its count, whatever else it sets off. */
  lemma UnrefOne(counts: seq<nat>, deps: seq<seq<Tid>>, t: Tid)
    requires DepsBelow(deps) && |counts| == |deps| && t < |counts| && counts[t] > 0
    ensures CountDropped(counts, Unref(counts, deps, t), t)
  {
    UnrefShrinks(counts, deps, t);
    if counts[t] == 1 { UnrefAllAbove(counts[t := 0], deps, deps[t], t); }
  }

  lemma {:induction false} UnrefAbove(counts: seq<nat>, deps: seq<seq<Tid>>, t: Tid)
    requires DepsBelow(deps) && |counts| == |deps| && t < |counts|
    ensures forall u | t < u < |counts| :: Unref(counts, deps, t)[u] == counts[u]
    decreases 2 * t + 1, 0
  {
    if counts[t] == 1 { UnrefAllAbove(counts[t := 0], deps, deps[t], t); }
  }

  lemma {:induction false} UnrefAllAbove(counts: seq<nat>, deps: seq<seq<Tid>>, ds: seq<Tid>, bound: Tid)
    requires DepsBelow(deps) && |counts| == |deps| && bound <= |counts|
    requires forall d | d in ds :: d < bound
    ensures forall u | bound <= u < |counts| :: UnrefAll(counts, deps, ds, bound)[u] == counts[u]
    decreases 2 * bound, |ds|
  {
    if ds != [] {
      assert ds[0] in ds && forall d | d in ds[1..] :: d in ds;
      UnrefAbove(counts, deps, ds[0]);
      UnrefAllAbove(Unref(counts, deps, ds[0]), deps, ds[1..], bound);
    }
  }

  /** trans_commit is entered: the thread is about to look at the first dependency, and nothing else changes. */
  lemma EnterExactly(w: World, t: Tid)
    requires WorldWf(w) && Allowed(w, CallCommit(t))
    ensures Do(w, CallCommit(t)) == w.(waits := w.waits.(phase := w.waits.phase[t := Scan(0)]))
  {
  }

  /** A thread returns from trans_commit or trans_abort: one reference of `t` is consumed, and `t` has the status
      `final`, unless it was decided before. */
  ghost predicate Returned(w: World, w': World, t: Tid, final: Status) {
    && t < |w.core.status| == |w.waits.phase|
    && OneLess(w.handles, w'.handles, t) && CountDropped(w.counts, w'.counts, t)
    && w'.waits.phase == w.waits.phase[t := Done]
    && w'.core == w.core.(status := if w.core.status[t] == Pending then w.core.status[t := final] else w.core.status)
    && w'.ids == w.ids && w'.entries == w.entries
  }

  lemma ReturnExactly(w: World, t: Tid, own: Status)
    requires WorldInv(w) && t < |w.handles| && w.handles[t] > 0
    ensures Returned(w, Return(w, t, own), t, own)
  {
    hide Inv, WaitInv, BooksOk, IdOrder, Handled, Unref, Wf;
    HandleIsLive(w, t);
    DepsOf(w);
    UnrefOne(w.counts, w.core.deps, t);
  }

  lemma DepsOf(w: World)
    requires WorldWf(w)
    ensures DepsBelow(w.core.deps) && |w.core.deps| == |w.core.status|
  {
  }

  /** trans_abort. */
  lemma AbortExactly(w: World, t: Tid)
    requires WorldInv(w) && Allowed(w, CallAbort(t))
    ensures Returned(w, Do(w, CallAbort(t)), t, Aborted)
    ensures Do(w, CallAbort(t)).core.status[t] == Aborted
  {
    IdleMayOperate(w, t);
    ReturnExactly(w, t, Aborted);
    hide WorldInv, Return, Wf;
  }

  /** A thread goes on inside trans_commit: nothing changes but where it is and what is registered and posted. */
  ghost predicate Proceeded(w: World, w': World, t: Tid) {
    && w' == w.(waits := w'.waits)
    && t < |w.waits.phase| && t < |w'.waits.phase|
    && w'.waits.phase == w.waits.phase[t := w'.waits.phase[t]] && !w'.waits.phase[t].Done?
  }

  /** A step of trans_commit.  The thread returns with the transaction aborted when the dependency that it looks at
      has aborted, and with the transaction committed when all of them have committed; otherwise it goes on. */
  ghost predicate Stepped(w: World, w': World, t: Tid) {
    && t < |w.waits.phase| == |w.core.deps| && t < |w'.waits.phase|
    && var p, ds, st := w.waits.phase[t], w.core.deps[t], w.core.status;
    && !p.Idle? && !p.Done? && p.at <= |ds| && (forall d | d in ds :: d < |st|)
    && if !p.Blocked? && p.at == |ds| then
         Returned(w, w', t, Committed) && forall d | d in ds :: st[d] == Committed
       else
         && p.at < |ds| && ds[p.at] in ds
         && if !p.Blocked? && st[ds[p.at]] == Aborted then Returned(w, w', t, Aborted) else Proceeded(w, w', t)
  }

  lemma CommitStepExactly(w: World, t: Tid)
    requires WorldInv(w) && CanStep(w, t)
    ensures Stepped(w, CommitStep(w, t), t)
  {
    Underway(w, t);
    StepDepends(w, t);
    var p, ds, st := w.waits.phase[t], w.core.deps[t], w.core.status;
    if !p.Blocked? && p.at == |ds| {
      ReturnExactly(w, t, Committed);
    } else if !p.Blocked? && st[ds[p.at]] == Aborted {
      ReturnExactly(w, t, Aborted);
    }
    hide WorldInv, Return, Wf, Register, Resume, Goto;
  }

  lemma StepDepends(w: World, t: Tid)
    requires WorldInv(w) && CanStep(w, t)
    ensures t < |w.core.deps| && (forall d | d in w.core.deps[t] :: d < t)
    ensures var p := w.waits.phase[t]; !p.Blocked? && !p.Idle? && !p.Done? && p.at == |w.core.deps[t]| ==>
              forall d | d in w.core.deps[t] :: d < |w.core.status| && w.core.status[d] == Committed
  {
    Underway(w, t);
  }

  /** What a commit takes from its caller: one reference when the thread returns, and nothing before. */
  ghost predicate Consumed(w: World, w': World, t: Tid, done: bool) {
    if done then OneLess(w.handles, w'.handles, t) else w'.handles == w.handles
  }

  lemma CommitEffects(w: World, t: Tid)
    requires WorldInv(w) && CanStep(w, t)
    ensures var w' := CommitStep(w, t);
            && Stepped(w, w', t) && t < |w'.waits.phase| && Consumed(w, w', t, w'.waits.phase[t].Done?)
  {
    CommitStepExactly(w, t);
    hide WorldInv, CommitStep;
  }

  lemma ConsumedCount(w: World, w': World, t: Tid)
    requires Stepped(w, w', t)
    ensures t < |w.counts| && t < |w'.counts| ==>
              w'.counts[t] == w.counts[t] - if w'.waits.phase[t].Done? then 1 else 0
  {
  }

  /** So exactly the step with which the thread returns consumes a reference. */
  lemma CommitConsumes(w: World, t: Tid)
    requires WorldInv(w) && CanStep(w, t)
    ensures var w' := CommitStep(w, t);
            && t < |w'.waits.phase| && t < |w.handles| && w.handles[t] > 0
            && w'.handles == (if w'.waits.phase[t].Done? then w.handles[t := w.handles[t] - 1] else w.handles)
  {
    CommitStepExactly(w, t);
    hide WorldInv, CommitStep;
  }

  /** What the status `r` of `t` after some of its commit, which began with the status `before`, says: committed, that
      all dependencies have committed; aborted by the commit, that one of them has aborted. */
  ghost predicate Decided(w: World, t: Tid, before: Status, r: Status) {
    && t < |w.core.deps| == |w.core.status| && r == w.core.status[t]
    && (r == Committed ==> forall d | d in w.core.deps[t] :: d < |w.core.status| && w.core.status[d] == Committed)
    && (r == Aborted && before == Pending ==>
          exists d | d in w.core.deps[t] :: d < |w.core.status| && w.core.status[d] == Aborted)
  }

  lemma UndecidedYet(s: Stocked, t: Tid, r: Status)
    requires StockInv(s) && t < |s.w.core.status| && r == s.w.core.status[t]
    ensures Decided(s.w, t, r, r)
  {
    CommittedDeps(s.w, t);
  }

  lemma CommittedDeps(w: World, t: Tid)
    requires WorldInv(w) && t < |w.core.status|
    ensures |w.core.deps| == |w.core.status|
    ensures forall d | d in w.core.deps[t] :: d < t
    ensures w.core.status[t] == Committed ==> forall d | d in w.core.deps[t] :: w.core.status[d] == Committed
  {
    hide WaitInv, BooksOk, IdOrder, Handled, AllKeys;
  }

  lemma DecidedStep(s: Stocked, s': Stocked, t: Tid, before: Status, r: Status)
    requires StockInv(s) && StockInv(s') && Stepped(s.w, s'.w, t)
    requires t < |s.w.core.status| && Decided(s.w, t, before, s.w.core.status[t])
    requires t < |s'.w.core.status| && r == s'.w.core.status[t]
    ensures Decided(s'.w, t, before, r)
  {
    CommittedDeps(s.w, t);
    CommittedDeps(s'.w, t);
    hide StockInv, WorldInv;
  }

  // ----- PUT and GET of the machine

  /** By id, as the program compares: the operation is carried out if no version has a creator with a greater id,
      and keeps the caller's reference to the transaction; otherwise that is consumed. */
  ghost predicate Accessed(w: World, w': World, t: Tid, k: Key, act: Action) {
    && Wf(w.core)
    && var c := Collect(w.core, k);
    && k in c.lists && t < |w.ids| == |c.status|
    && (forall i | 0 <= i < |c.lists[k]| :: c.lists[k][i].creator < |w.ids|)
    && var vs := c.lists[k];
    && (if forall i | 0 <= i < |vs| :: w.ids[vs[i].creator] <= w.ids[t]
        then CarriedOut(c, w'.core, vs, t, k, act) && w'.handles == w.handles
        else w'.core == c.(status := c.status[t := Aborted]) && OneLess(w.handles, w'.handles, t))
    && w'.waits.phase == w.waits.phase && w'.ids == w.ids
    && w'.entries == if k in w.core.lists then w.entries else w.entries + [k]
  }

  predicate LastIs(lists: map<Key, seq<Version>>, k: Key, v: Version) {
    k in lists && lists[k] != [] && lists[k][|lists[k]| - 1] == v
  }

  lemma AccessById(w: World, t: Tid, k: Key, act: Action)
    requires WorldInv(w) && Possible(w) && t < |w.handles| && w.handles[t] > 0 && w.waits.phase[t].Idle?
    requires act.Get? ==> act.value == ReadValue(w.core, k)
    ensures Accessed(w, StoreAccess(w, t, k, act), t, k, act)
    ensures Wf(w.core) && k in Collect(w.core, k).lists
    ensures GreatEnough(Collect(w.core, k).lists[k], t) <==> Admitted(w.core, t, k)
    ensures Admitted(w.core, t, k) ==> LastIs(StoreAccess(w, t, k, act).core.lists, k, Version(t, act.value))
  {
    hide WorldInv, Possible, GarbageCollect, StoreAccess, AdmitsId, Admitted, Collect, Access, CarriedOut, Wf,
         Reachable;
    PossibleReachable(w);
    PassMachine(w, k);
    AccessKeepsWorld(w, t, k, act);
    AccessExactly(w.core, t, k, act);
    AdmittedExactly(w.core, t, k);
    AccessTakes(w, t, k, act);
    IdsInOrder(GarbageCollect(w, k), t, k);
    NeverCommitted(GarbageCollect(w, k), t);
    CarriedOutLast(Collect(w.core, k), StoreAccess(w, t, k, act).core, Collect(w.core, k).lists[k], t, k, act);
  }

  lemma CarriedOutLast(c: State, s': State, vs: seq<Version>, t: Tid, k: Key, act: Action)
    ensures CarriedOut(c, s', vs, t, k, act) ==> LastIs(s'.lists, k, Version(t, act.value))
  {
  }

  /** What it does beside the protocol's part. */
  lemma AccessTakes(w: World, t: Tid, k: Key, act: Action)
    requires WorldInv(w) && Possible(w) && t < |w.handles| && w.handles[t] > 0 && w.waits.phase[t].Idle?
    requires act.Get? ==> act.value == ReadValue(w.core, k)
    ensures var w' := StoreAccess(w, t, k, act);
            && Wf(w.core)
            && (if Admitted(w.core, t, k) then w'.handles == w.handles else OneLess(w.handles, w'.handles, t))
            && w'.waits.phase == w.waits.phase && w'.ids == w.ids
            && w'.entries == if k in w.core.lists then w.entries else w.entries + [k]
  {
    hide WorldInv, Possible, GarbageCollect, StoreAccess, InstallVersion, Rejected, AdmitsId, Admitted, Collect;
    AdmittedById(w, t, k);
    AccessFacts(w, t, k, act);
    PassMachine(w, k);
    OutcomeKeeps(GarbageCollect(w, k), t, k, act);
  }

  lemma PassMachine(w: World, k: Key)
    requires WorldInv(w)
    ensures WorldWf(w) && var c := GarbageCollect(w, k);
            && WorldInv(c) && WorldWf(c) && k in c.core.lists
            && c.core == Collect(w.core, k) && c.handles == w.handles && c.ids == w.ids
            && c.waits.phase == w.waits.phase && c.entries == (if k in w.core.lists then w.entries else w.entries + [k])
  {
    CollectKeepsWorld(w, k);
    GarbageCollectWf(w, k);
  }

  lemma IdsInOrder(c: World, t: Tid, k: Key)
    requires WorldInv(c) && t < |c.handles| && c.handles[t] > 0 && k in c.core.lists
    ensures |c.ids| == |c.core.status| && t < |c.ids|
    ensures forall i | 0 <= i < |c.core.lists[k]| :: c.core.lists[k][i].creator < |c.ids|
    ensures GreatEnough(c.core.lists[k], t) <==>
            forall i | 0 <= i < |c.core.lists[k]| :: c.ids[c.core.lists[k][i].creator] <= c.ids[t]
  {
    HandleIsLive(c, t);
    ListLive(c, k);
    OrderOfLive(c);
    hide Inv, WaitInv, BooksOk, IdOrder, Handled, Wf;
  }

  lemma OutcomeKeeps(c: World, t: Tid, k: Key, act: Action)
    requires WorldWf(c) && t < |c.handles| && c.handles[t] > 0
    ensures InstallVersion(c, t, k, act).handles == c.handles && InstallVersion(c, t, k, act).waits == c.waits
    ensures InstallVersion(c, t, k, act).ids == c.ids && InstallVersion(c, t, k, act).entries == c.entries
    ensures Rejected(c, t).handles == c.handles[t := c.handles[t] - 1] && Rejected(c, t).waits.phase == c.waits.phase
    ensures Rejected(c, t).ids == c.ids && Rejected(c, t).entries == c.entries
  {
    hide InstallId, RefDependencies, AddDependencies, Unref;
  }

  // ----- Blobs

  lemma MakeExactly(s: Stocked, bytes: Bytes)
    requires StockInv(s)
    ensures Step(s, Make(bytes)) ==
            s.(b := s.b.(content := s.b.content + [bytes], refs := s.b.refs + [1], held := s.b.held + [1]))
  {
    hide WorldInv, BlobInv, Possible;
  }

  /** blob_ref: one more reference, the caller's. */
  ghost predicate Shared(s: Stocked, s': Stocked, x: BlobId) {
    s' == s.(b := s.b.(refs := s'.b.refs, held := s'.b.held)) && OneMore(s.b.refs, s'.b.refs, x) &&
    OneMore(s.b.held, s'.b.held, x)
  }

  lemma ShareExactly(s: Stocked, x: BlobId)
    requires StockInv(s) && MayMove(s, Share(x))
    ensures Shared(s, Step(s, Share(x)), x)
  {
    hide WorldInv, BlobInv, Possible;
  }

  /** blob_unref: one less. */
  ghost predicate Unshared(s: Stocked, s': Stocked, x: BlobId) {
    s' == s.(b := s.b.(refs := s'.b.refs, held := s'.b.held)) && OneLess(s.b.refs, s'.b.refs, x) &&
    OneLess(s.b.held, s'.b.held, x)
  }

  lemma DropExactly(s: Stocked, x: BlobId)
    requires StockInv(s) && MayMove(s, Drop(x))
    ensures Unshared(s, Step(s, Drop(x)), x)
  {
    assert BlobOk(s.w, s.b, x);
    hide WorldInv, BlobInv, Possible;
  }

  /** What callers hold: the references to the key and to `taken` have gone over to the store, and one to `given`
      has been handed out. */
  ghost predicate Exchanged(held: seq<nat>, held': seq<nat>, key: BlobId, taken: Value, given: Value) {
    && |held'| == |held|
    && forall y | 0 <= y < |held| ::
         held'[y] + (if y == key then 1 else 0) + (if taken == Some(y) then 1 else 0) ==
         held[y] + (if given == Some(y) then 1 else 0)
  }

  /** A PUT takes over the caller's references to the key and to the value. */
  ghost predicate PutDone(s: Stocked, s': Stocked, t: Tid, key: BlobId, v: Value) {
    && key < |s.b.content| && Accessed(s.w, s'.w, t, s.b.content[key], Put(v))
    && Exchanged(s.b.held, s'.b.held, key, v, None) && s'.b.content == s.b.content
    && s'.b.keys == if s.b.content[key] in s.w.core.lists then s.b.keys else s.b.keys + [key]
  }

  lemma PutExactly(s: Stocked, t: Tid, key: BlobId, v: Value)
    requires StockInv(s) && MayMove(s, PutBlob(t, key, v))
    ensures PutDone(s, Step(s, PutBlob(t, key, v)), t, key, v) && Wf(s.w.core)
    ensures var k := s.b.content[key];
            Admitted(s.w.core, t, k) ==> LastIs(Step(s, PutBlob(t, key, v)).w.core.lists, k, Version(t, v))
  {
    hide Inv, WaitInv, BooksOk, IdOrder, Handled, Possible, BlobInv, StoreAccess, BlobsAfterPut, Accessed, Exchanged,
         Admitted, LastIs;
    AccessById(s.w, t, s.b.content[key], Put(v));
    PutTakesOver(s, t, key, v);
  }

  /** A GET takes over the reference to the key, and hands out one to the value that it reads if it is admitted. */
  ghost predicate GetDone(s: Stocked, s': Stocked, t: Tid, key: BlobId) {
    && key < |s.b.content| && Wf(s.w.core)
    && var k := s.b.content[key];
    && Accessed(s.w, s'.w, t, k, Get(ReadValue(s.w.core, k))) && s'.b.content == s.b.content
    && Exchanged(s.b.held, s'.b.held, key, None, if Admitted(s.w.core, t, k) then ReadValue(s.w.core, k) else None)
    && s'.b.keys == if k in s.w.core.lists then s.b.keys else s.b.keys + [key]
  }

  lemma GetExactly(s: Stocked, t: Tid, key: BlobId)
    requires StockInv(s) && MayMove(s, GetBlob(t, key))
    ensures GetDone(s, Step(s, GetBlob(t, key)), t, key) && Wf(s.w.core)
    ensures var k := s.b.content[key];
            Admitted(s.w.core, t, k) ==>
              LastIs(Step(s, GetBlob(t, key)).w.core.lists, k, Version(t, ReadValue(s.w.core, k)))
  {
    hide Inv, WaitInv, BooksOk, IdOrder, Handled, Possible, BlobInv, StoreAccess, BlobsAfterGet, Accessed, Exchanged,
         Admitted, ReadValue, LastIs;
    GetHandsOut(s, t, key);
    AccessById(s.w, t, s.b.content[key], Get(ReadValue(s.w.core, s.b.content[key])));
  }

  lemma PutTakesOver(s: Stocked, t: Tid, key: BlobId, v: Value)
    requires StockInv(s) && MayMove(s, PutBlob(t, key, v))
    ensures var b, b' := s.b, Step(s, PutBlob(t, key, v)).b;
            && b'.content == b.content && Exchanged(b.held, b'.held, key, v, None)
            && b'.keys == if b.content[key] in s.w.core.lists then b.keys else b.keys + [key]
  {
    hide Inv, WaitInv, BooksOk, IdOrder, Handled, Possible, GarbageCollect, Begun, BlobOk, EntriesOk, AdmitsId,
         InstallId, DropValues, ReplacedBlobs, UnrefBlob, BlobsAfterPut;
    BegunKeeps(s.w, s.b, key);
    BegunParts(s.w, s.b, key);
    PutFromPass(s.w, s.b, t, key, v);
  }

  lemma PutFromPass(w: World, b: Blobs, t: Tid, key: BlobId, v: Value)
    requires WorldInv(w) && BlobInv(w, b) && Held(b, key) && t < |w.ids|
    requires v.Some? ==> v.value < |b.refs| && b.held[v.value] > (if v.value == key then 1 else 0)
    ensures var b', r := Begun(w, b, key), BlobsAfterPut(w, b, t, key, v);
            && r.content == b'.content && r.keys == b'.keys && |b'.held| == |b.held|
            && (v.Some? ==> v.value < |b'.held| && b'.held[v.value] > 0)
            && r.held == if v.None? then b'.held else b'.held[v.value := b'.held[v.value] - 1]
  {
    BegunKeeps(w, b, key);
    BegunParts(w, b, key);
    CollectWithEntry(w, b.content[key]);
    hide WorldInv, Wf, GarbageCollect, EntriesOk, DropValues, Outdated, Doomed, InstallId, AdmitsId, BlobOk,
         ReplacedBlobs;
  }

  lemma GetHandsOut(s: Stocked, t: Tid, key: BlobId)
    requires StockInv(s) && MayMove(s, GetBlob(t, key))
    ensures Wf(s.w.core)
    ensures var b, b' := s.b, Step(s, GetBlob(t, key)).b; var k := b.content[key];
            && b'.content == b.content
            && Exchanged(b.held, b'.held, key, None,
                         if Admitted(s.w.core, t, k) then ReadValue(s.w.core, k) else None)
            && b'.keys == if k in s.w.core.lists then b.keys else b.keys + [key]
  {
    hide Inv, WaitInv, BooksOk, IdOrder, Handled, Possible, GarbageCollect, Begun, BlobOk, EntriesOk, AdmitsId,
         InstallId, DropValues, ReplacedBlobs, UnrefBlob, RefBlob, Admitted, ReadValue, LastValue, BlobsAfterGet;
    AdmittedById(s.w, t, s.b.content[key]);
    BegunKeeps(s.w, s.b, key);
    BegunParts(s.w, s.b, key);
    GetFromPass(s.w, s.b, t, key);
  }

  lemma GetFromPass(w: World, b: Blobs, t: Tid, key: BlobId)
    requires WorldInv(w) && BlobInv(w, b) && Held(b, key) && t < |w.ids|
    ensures var k := b.content[key];
            var c, b', r := GarbageCollect(w, k), Begun(w, b, key), BlobsAfterGet(w, b, t, key);
            && WorldWf(c) && k in c.core.lists && |c.ids| == |w.ids| && |b'.held| == |b.held|
            && r.content == b'.content && r.keys == b'.keys
            && var v := LastValue(c.core.lists[k]);
            && (v.Some? ==> v.value < |b'.held|)
            && r.held == if v.None? || !AdmitsId(c.core.lists[k], c.ids, t) then b'.held
                         else b'.held[v.value := b'.held[v.value] + 1]
  {
    hide WorldInv, Wf, GarbageCollect, Begun, BlobsAfterGet, GetBlobs, BlobInv, BlobsWf, LastValue, AdmitsId,
         DropValues, Outdated, Doomed, Worth;
    var k := b.content[key];
    BegunKeeps(w, b, key);
    BegunParts(w, b, key);
    GetAfterPass(w, b, t, key);
    GetBlobsParts(GarbageCollect(w, k), Begun(w, b, key), t, k);
  }

  lemma GetAfterPass(w: World, b: Blobs, t: Tid, key: BlobId)
    requires WorldInv(w) && BlobInv(w, b) && Held(b, key) && t < |w.ids|
    ensures var k := b.content[key]; var c := GarbageCollect(w, k);
            && WorldWf(c) && BlobsWf(c, Begun(w, b, key)) && k in c.core.lists && |c.ids| == |w.ids|
            && BlobsAfterGet(w, b, t, key) == GetBlobs(c, Begun(w, b, key), t, k)
  {
    hide WorldInv, GarbageCollect, BlobOk, EntriesOk, GetBlobs, DropValues, Outdated, Doomed, Collect;
    BegunKeeps(w, b, key);
    PassMachine(w, b.content[key]);
    CollectWithEntry(w, b.content[key]);
  }

  lemma GetBlobsParts(c: World, b: Blobs, t: Tid, k: Key)
    requires WorldWf(c) && BlobsWf(c, b) && k in c.core.lists && t < |c.core.status|
    ensures var r, v := GetBlobs(c, b, t, k), LastValue(c.core.lists[k]);
            && r.content == b.content && r.keys == b.keys && (v.Some? ==> v.value < |b.held|)
            && r.held == if v.None? || !AdmitsId(c.core.lists[k], c.ids, t) then b.held
                         else b.held[v.value := b.held[v.value] + 1]
  {
    hide AdmitsId, InstallId, ReplacedBlobs, RefBlob;
  }
}
