/** The invariant of the whole machine, kept by every call of every run. */
module MachineInvariant {
  import opened Types
  import opened VersionLists
  import opened Protocol
  import opened Invariant
  import opened References
  import opened Waiting
  import opened Machine
  import opened Books
  import opened Ids

  ghost predicate WorldInv(w: World) {
    && WorldWf(w)
    && Inv(w.core)
    && WaitInv(w.core.status, w.core.deps, w.waits)
    && BooksOk(w)
    && Handled(w)
    && IdOrder(w)
  }

  /** Nobody who was freed comes back. */
  ghost predicate NoneRevived(w: World, w': World) {
    |w.counts| <= |w'.counts| && forall t | 0 <= t < |w.counts| && w.counts[t] == 0 :: w'.counts[t] == 0
  }

  // ----- Creation and plain references

  lemma CreateKeepsWorld(w: World)
    requires WorldInv(w)
    ensures WorldInv(TransCreate(w))
  {
    CreateKeeps(w.core);
    EnterKeeps(w.core.status, w.core.deps, w.waits);
    CreateBooks(w);
    CreateIds(w);
    hide Inv, WaitInv, BooksOk, IdOrder, Wf;
  }

  lemma RefKeepsWorld(w: World, t: Tid)
    requires WorldInv(w) && Allowed(w, CallRef(t))
    ensures WorldInv(Do(w, CallRef(t)))
  {
    var w' := Do(w, CallRef(t));
    RefBooks(w, t);
    hide Inv, WaitInv, Balanced, Holders, EntriesOk, Wf;
    IdsKept(w, w') by { assert forall x | 0 <= x < |w.ids| && Tracked(w', x) :: Tracked(w, x); }
  }

  lemma UnrefKeepsWorld(w: World, t: Tid)
    requires WorldInv(w) && Allowed(w, CallUnref(t))
    ensures WorldInv(Do(w, CallUnref(t)))
  {
    var w' := Do(w, CallUnref(t));
    UnrefBooks(w, t);
    UnrefShrinks(w.counts, w.core.deps, t);
    hide Inv, WaitInv, Balanced, VersionRefs, Wf, Unref, Holders;
    IdsKept(w, w') by { assert forall x | 0 <= x < |w.ids| && Tracked(w', x) :: Tracked(w, x); }
  }

  // ----- Collection

  lemma {:induction false} DropCreatorsShrinks(counts: seq<nat>, deps: seq<seq<Tid>>, vs: seq<Version>)
    requires DepsBelow(deps) && |counts| == |deps| && CreatorsBelow(vs, |counts|)
    ensures forall x | 0 <= x < |counts| :: DropCreators(counts, deps, vs)[x] <= counts[x]
    decreases |vs|
  {
    if vs != [] {
      UnrefShrinks(counts, deps, vs[0].creator);
      DropCreatorsShrinks(Unref(counts, deps, vs[0].creator), deps, vs[1..]);
    }
  }

  lemma CollectShrinks(w: World, k: Key)
    requires WorldWf(w)
    ensures forall x | 0 <= x < |w.counts| :: GarbageCollect(w, k).counts[x] <= w.counts[x]
  {
    var vs, st, deps := At(w.core.lists, k), w.core.status, w.core.deps;
    DropCreatorsShrinks(w.counts, deps, Outdated(vs, st));
    DropCreatorsShrinks(DropCreators(w.counts, deps, Outdated(vs, st)), deps, Doomed(vs, st));
  }

  lemma CollectKeepsWaits(w: World, k: Key)
    requires WorldWf(w) && WaitInv(w.core.status, w.core.deps, w.waits)
    requires CommittedFirst(At(w.core.lists, k), w.core.status)
    ensures var c := GarbageCollect(w, k);
            WaitInv(c.core.status, c.core.deps, c.waits) && c.waits.phase == w.waits.phase
  {
    var vs := At(w.core.lists, k);
    CollectSplits(vs, w.core.status);
    WakeCreatorsKeeps(w.core.status, w.core.deps, w.waits, Doomed(vs, w.core.status));
  }

  lemma CollectKeepsWorld(w: World, k: Key)
    requires WorldInv(w)
    ensures WorldInv(GarbageCollect(w, k)) && NoneRevived(w, GarbageCollect(w, k))
    ensures GarbageCollect(w, k).waits.phase == w.waits.phase
    ensures NoneAborted(GarbageCollect(w, k).core.lists[k], GarbageCollect(w, k).core.status)
  {
    var c := GarbageCollect(w, k);
    CollectKeeps(w.core, k);
    assert KeyInv(w.core, k);
    ListShape(w.core, k);
    hide KeyInv;
    CollectKeepsWaits(w, k);
    CollectBooks(w, k);
    CollectShrinks(w, k);
    GarbageCollectWf(w, k);
    hide Inv, WaitInv, BooksOk, Wf, Collected, Outdated, Doomed, DropCreators, WakeCreators, CommittedFirst;
    IdsKept(w, c) by { assert forall x | 0 <= x < |w.ids| && Tracked(c, x) :: Tracked(w, x); }
  }

  // ----- Aborting and returning

  lemma DecideIds(w: World, w': World, t: Tid)
    requires WorldWf(w) && WorldWf(w') && IdOrder(w) && w'.ids == w.ids && w'.core.log == w.core.log &&
             NoneRevived(w, w')
    requires t < |w.ids| && w.counts[t] > 0
    requires forall x | 0 <= x < |w.ids| && x != t && w'.core.status[x] == Committed :: w.core.status[x] == Committed
    ensures IdOrder(w')
  {
    IdsKept(w, w') by { assert forall x | 0 <= x < |w.ids| && Tracked(w', x) :: Tracked(w, x); }
  }

  lemma HandleIsLive(w: World, t: Tid)
    requires WorldWf(w) && BooksOk(w) && t < |w.handles| && w.handles[t] > 0
    ensures w.counts[t] > 0
  {
    HeldIsLive(w, t);
  }

  /** trans_abort on behalf of a rejected operation, with the caller's reference. */
  lemma RejectKeepsWorld(w: World, t: Tid)
    requires WorldInv(w) && t < |w.handles| && w.handles[t] > 0 && w.waits.phase[t].Idle?
    ensures WorldInv(TransAbort(w, t).(handles := w.handles[t := w.handles[t] - 1]))
    ensures NoneRevived(w, TransAbort(w, t))
  {
    hide Inv, Balanced, VersionRefs, Unref, Holders;
    var w' := TransAbort(w, t).(handles := w.handles[t := w.handles[t] - 1]);
    AbortKeeps(w.core, t);
    UnrefBooks(w, t);
    UnrefShrinks(w.counts, w.core.deps, t);
    HandleIsLive(w, t);
    if w.core.status[t] == Pending { AbortKeepsWaits(w.core.status, w.core.deps, w.waits, t); }
    hide WaitInv, Wf;
    DecideIds(w, w', t);
  }

  lemma ReturnKeepsWorld(w: World, t: Tid, own: Status)
    requires WorldInv(w) && t < |w.handles| && w.handles[t] > 0 && !w.waits.phase[t].Blocked? && own != Pending
    requires own == Committed ==> w.waits.phase[t] == Scan(|w.core.deps[t]|)
    ensures WorldInv(Return(w, t, own)) && NoneRevived(w, Return(w, t, own))
  {
    hide Inv, WaitInv, Balanced, VersionRefs, Wf, Unref, Holders, EntriesOk;
    var w' := Return(w, t, own);
    ReturnCore(w, t, own);
    ReturnWaits(w, t, own);
    UnrefBooks(w, t);
    UnrefShrinks(w.counts, w.core.deps, t);
    HandleIsLive(w, t);
    DecideIds(w, w', t);
  }

  lemma ReadyToCommit(w: World, t: Tid)
    requires WorldWf(w) && WaitInv(w.core.status, w.core.deps, w.waits)
    requires t < |w.core.status| && w.core.status[t] == Pending && w.waits.phase[t] == Scan(|w.core.deps[t]|)
    ensures Enabled(w.core, EvCommit(t))
  {
    assert PhaseOk(w.core.status, w.core.deps[t], w.core.status[t], w.waits.phase[t]);
    hide WaitInv;
    forall d | d in w.core.deps[t] ensures w.core.status[d] == Committed {
      var i :| 0 <= i < |w.core.deps[t]| && w.core.deps[t][i] == d;
    }
  }

  lemma ReturnCore(w: World, t: Tid, own: Status)
    requires WorldWf(w) && Inv(w.core) && WaitInv(w.core.status, w.core.deps, w.waits)
    requires t < |w.handles| && w.handles[t] > 0 && own != Pending
    requires own == Committed ==> w.waits.phase[t] == Scan(|w.core.deps[t]|)
    ensures Inv(Return(w, t, own).core)
  {
    if w.core.status[t] == Pending {
      if own == Committed {
        ReadyToCommit(w, t);
        CommitKeeps(w.core, t);
      } else {
        AbortKeeps(w.core, t);
      }
    }
  }

  lemma ReturnWaits(w: World, t: Tid, own: Status)
    requires WorldWf(w) && WaitInv(w.core.status, w.core.deps, w.waits)
    requires t < |w.handles| && w.handles[t] > 0 && !w.waits.phase[t].Blocked? && own != Pending
    ensures var w' := Return(w, t, own); WaitInv(w'.core.status, w'.core.deps, w'.waits)
  {
    if w.core.status[t] == Pending {
      FinishKeeps(w.core.status, w.core.deps, w.waits, t, own);
    } else {
      GotoKeeps(w.core.status, w.core.deps, w.waits, t, Done);
    }
  }

  // ----- Store operations

  lemma ListLive(w: World, k: Key)
    requires WorldWf(w) && BooksOk(w) && k in w.core.lists
    ensures CreatorsLive(w.core.lists[k], w.counts)
  {
    var vs := w.core.lists[k];
    forall i | 0 <= i < |vs| ensures w.counts[vs[i].creator] > 0 {
      HeldByVersion(w.core.lists, w.entries, k, i);
      HeldIsLive(w, vs[i].creator);
    }
  }

  /** Comparing ids decides and installs what comparing creation order would. */
  lemma IdsDecide(w: World, t: Tid, k: Key, act: Action)
    requires WorldWf(w) && Inv(w.core) && BooksOk(w) && IdOrder(w) && k in w.core.lists && t < |w.handles| &&
             w.handles[t] > 0
    ensures w.counts[t] > 0 && Sorted(w.core.lists[k])
    ensures AdmitsId(w.core.lists[k], w.ids, t) <==> Admits(w.core.lists[k], t)
    ensures Admits(w.core.lists[k], t) ==>
              InstallId(w.core.lists[k], w.ids, Version(t, act.value)) ==
                  Install(w.core.lists[k], Version(t, act.value))
  {
    assert KeyInv(w.core, k);
    ListSorted(w.core, k);
    HeldIsLive(w, t);
    ListLive(w, k);
    OrderOfLive(w);
    hide Inv, BooksOk, IdOrder, KeyInv, Wf;
    IdsAgree(w.core.lists[k], w.ids, w.counts, Version(t, act.value));
  }

  lemma InstallIsPerform(w: World, t: Tid, k: Key, act: Action)
    requires WorldWf(w) && t < |w.handles| && k in w.core.lists
    requires InstallId(w.core.lists[k], w.ids, Version(t, act.value)) == Install(w.core.lists[k], Version(t, act.value))
    ensures InstallVersion(w, t, k, act).core == Perform(w.core, t, k, act)
  {
  }

  lemma {:induction false} RefDependenciesRevivesNone(counts: seq<nat>, ds: seq<Tid>, vs: seq<Version>, t: Tid,
                                                      st: seq<Status>)
    requires CreatorsBelow(vs, |st|) && |counts| == |st|
    requires forall i | 0 <= i < |vs| :: counts[vs[i].creator] > 0
    ensures forall x | 0 <= x < |counts| && counts[x] == 0 :: RefDependencies(counts, ds, vs, t, st)[x] == 0
    decreases |vs|
  {
    if vs != [] {
      var c := vs[0].creator;
      if c != t && st[c] == Pending && c !in ds {
        RefDependenciesRevivesNone(Ref(counts, c), [c] + ds, vs[1..], t, st);
      } else {
        RefDependenciesRevivesNone(counts, ds, vs[1..], t, st);
      }
    }
  }

  lemma DepsSize(w: World)
    requires WorldWf(w)
    ensures |w.core.deps| == |w.counts| == |w.core.status| && DepsBelow(w.core.deps)
  {
  }

  lemma CreatedRevivesNone(counts: seq<nat>, deps: seq<seq<Tid>>, t: Tid)
    requires DepsBelow(deps) && |counts| == |deps| && t < |counts| && counts[t] > 0
    ensures forall x | 0 <= x < |counts| :: counts[x] == 0 <==> Ref(counts, t)[x] == 0
    ensures forall x | 0 <= x < |counts| :: counts[x] == 0 <==> Unref(Ref(counts, t), deps, t)[x] == 0
  {
  }

  lemma InstallRevivesNone(w: World, t: Tid, k: Key, act: Action)
    requires WorldWf(w) && BooksOk(w) && t < |w.handles| && w.counts[t] > 0 && k in w.core.lists
    requires InstallId(w.core.lists[k], w.ids, Version(t, act.value)) == Install(w.core.lists[k], Version(t, act.value))
    ensures NoneRevived(w, InstallVersion(w, t, k, act))
  {
    hide BooksOk, Install, InstallId, InstallVersion, RefDependencies, Unref, Ref, Wf;
    DepsSize(w);
    var vs, v := w.core.lists[k], Version(t, act.value);
    InstallVersionCounts(w, t, k, act);
    InstallLive(w, t, k, v);
    var r := if |Install(vs, v)| == |vs| then Unref(Ref(w.counts, t), w.core.deps, t) else Ref(w.counts, t);
    CreatedRevivesNone(w.counts, w.core.deps, t);
    RefDependenciesRevivesNone(r, w.core.deps[t], Install(vs, v), t, w.core.status);
  }

  lemma InstallIds(w: World, w': World, t: Tid)
    requires WorldWf(w) && WorldWf(w') && IdOrder(w) && w'.ids == w.ids && w'.core.status == w.core.status &&
             NoneRevived(w, w')
    requires t < |w.ids| && w.counts[t] > 0
    requires |w'.core.log| == |w.core.log| + 1 && w'.core.log[|w.core.log|].tid == t && w.core.log <= w'.core.log
    ensures IdOrder(w')
  {
    forall x | 0 <= x < |w.ids| && Tracked(w', x) ensures Tracked(w, x) {
      if w'.counts[x] == 0 && x != t {
        var i :| 0 <= i < |w'.core.log| && w'.core.log[i].tid == x;
        assert w.core.log[i].tid == x;
      }
    }
    IdsKept(w, w');
  }

  /** An admitted operation on a freshly collected list. */
  lemma InstallKeepsWorld(w: World, t: Tid, k: Key, act: Action)
    requires WorldInv(w) && t < |w.handles| && w.handles[t] > 0 && w.waits.phase[t].Idle? && k in w.core.lists
    requires NoneAborted(w.core.lists[k], w.core.status) && Admits(w.core.lists[k], t)
    requires act.Get? ==> act.value == LastValue(w.core.lists[k])
    ensures WorldInv(InstallVersion(w, t, k, act)) && NoneRevived(w, InstallVersion(w, t, k, act))
  {
    var w' := InstallVersion(w, t, k, act);
    IdsDecide(w, t, k, act);
    InstallIsPerform(w, t, k, act);
    assert PhaseOk(w.core.status, w.core.deps[t], w.core.status[t], w.waits.phase[t]);
    PerformKeeps(w.core, t, k, act);
    InstallBooks(w, t, k, act);
    InstallRevivesNone(w, t, k, act);
    InstallKeepsWaits(w, t, k, act);
    hide Inv, WaitInv, Balanced, Holders, EntriesOk, IdOrder, Wf, NoneAborted, Admits;
    InstallIds(w, w', t);
  }

  lemma InstallKeepsWaits(w: World, t: Tid, k: Key, act: Action)
    requires WorldWf(w) && WaitInv(w.core.status, w.core.deps, w.waits)
    requires t < |w.handles| && w.waits.phase[t].Idle? && Wf(Perform(w.core, t, k, act))
    requires InstallVersion(w, t, k, act).core == Perform(w.core, t, k, act)
    ensures WaitInv(w.core.status, InstallVersion(w, t, k, act).core.deps, w.waits)
  {
    var ds := Perform(w.core, t, k, act).deps[t];
    GrowKeeps(w.core.status, w.core.deps, w.waits, t, ds);
  }

  lemma AccessKeepsWorld(w: World, t: Tid, k: Key, act: Action)
    requires WorldInv(w) && t < |w.handles| && w.handles[t] > 0 && w.waits.phase[t].Idle?
    requires act.Get? ==> act.value == ReadValue(w.core, k)
    ensures WorldInv(StoreAccess(w, t, k, act)) && NoneRevived(w, StoreAccess(w, t, k, act))
    ensures StoreAccess(w, t, k, act).core == Access(w.core, t, k, act)
  {
    CollectKeepsWorld(w, k);
    GarbageCollectWf(w, k);
    var c := GarbageCollect(w, k);
    IdsDecide(c, t, k, act);
    if Admits(c.core.lists[k], t) {
      InstallKeepsWorld(c, t, k, act);
      InstallIsPerform(c, t, k, act);
    } else {
      RejectKeepsWorld(c, t);
    }
  }

  // ----- Commit steps

  /** What the invariant says of a thread inside trans_commit. */
  lemma Underway(w: World, t: Tid)
    requires WorldInv(w) && t < |w.core.status|
    ensures WorldWf(w)
    ensures PhaseOk(w.core.status, w.core.deps[t], w.core.status[t], w.waits.phase[t])
    ensures forall i | 0 <= i < |w.core.deps[t]| :: w.core.deps[t][i] < t
  {
    assert forall i | 0 <= i < |w.core.deps[t]| :: w.core.deps[t][i] in w.core.deps[t];
    hide Inv, BooksOk, IdOrder;
  }

  lemma ResumeKeepsWorld(w: World, t: Tid)
    requires WorldInv(w) && CanStep(w, t) && w.waits.phase[t].Blocked?
    ensures WorldInv(CommitStep(w, t))
  {
    Underway(w, t);
    hide Inv, BooksOk, IdOrder;
    ResumeKeeps(w.core.status, w.core.deps, w.waits, t, w.waits.phase[t].at);
    WaitsOnly(w, CommitStep(w, t).waits);
  }

  lemma AdvanceKeepsWorld(w: World, t: Tid)
    requires WorldInv(w) && CanStep(w, t) && !w.waits.phase[t].Blocked?
    requires w.waits.phase[t].at < |w.core.deps[t]|
    requires w.core.deps[t][w.waits.phase[t].at] < t
    requires w.core.status[w.core.deps[t][w.waits.phase[t].at]] == Committed
    ensures CommitStep(w, t) == w.(waits := Goto(w.waits, t, Scan(w.waits.phase[t].at + 1)))
    ensures WorldInv(CommitStep(w, t))
  {
    hide Inv, BooksOk, IdOrder, Wf, WaitInv;
    Underway(w, t);
    GotoKeeps(w.core.status, w.core.deps, w.waits, t, Scan(w.waits.phase[t].at + 1));
    WaitsOnly(w, Goto(w.waits, t, Scan(w.waits.phase[t].at + 1)));
  }

  lemma RegisterKeepsWorld(w: World, t: Tid)
    requires WorldInv(w) && CanStep(w, t) && w.waits.phase[t].Scan? && w.waits.phase[t].at < |w.core.deps[t]|
    requires w.core.deps[t][w.waits.phase[t].at] < t
    requires w.core.status[w.core.deps[t][w.waits.phase[t].at]] == Pending
    ensures WorldInv(CommitStep(w, t)) && CommitStep(w, t).counts == w.counts
  {
    hide Inv, BooksOk, IdOrder, Wf, WaitInv;
    RegisterKeeps(w.core.status, w.core.deps, w.waits, t, w.waits.phase[t].at);
    WaitsOnly(w, CommitStep(w, t).waits);
  }

  lemma CommitStepKeepsWorld(w: World, t: Tid)
    requires WorldInv(w) && CanStep(w, t)
    ensures WorldInv(CommitStep(w, t)) && NoneRevived(w, CommitStep(w, t))
  {
    Underway(w, t);
    hide WorldInv;
    var ds, st, p := w.core.deps[t], w.core.status, w.waits.phase[t];
    if p.Blocked? {
      ResumeKeepsWorld(w, t);
    } else if p.at == |ds| {
      ReturnKeepsWorld(w, t, Committed);
    } else if st[ds[p.at]] == Aborted {
      ReturnKeepsWorld(w, t, Aborted);
    } else if st[ds[p.at]] == Committed {
      AdvanceKeepsWorld(w, t);
    } else {
      RegisterKeepsWorld(w, t);
    }
  }

  lemma WaitsOnly(w: World, waits: Waits)
    requires WorldInv(w) && WaitInv(w.core.status, w.core.deps, waits)
    requires forall t | 0 <= t < |w.handles| && !(waits.phase[t].Idle? || waits.phase[t].Done?) :: w.handles[t] > 0
    ensures WorldInv(w.(waits := waits))
  {
    var w' := w.(waits := waits);
    hide Inv, Balanced, EntriesOk, Wf;
    assert Others(w') == Others(w);
    IdsKept(w, w') by { assert forall x | 0 <= x < |w.ids| && Tracked(w', x) :: Tracked(w, x); }
  }

  lemma CommitCallKeepsWorld(w: World, t: Tid)
    requires WorldInv(w) && Allowed(w, CallCommit(t))
    ensures WorldInv(Do(w, CallCommit(t)))
  {
    assert PhaseOk(w.core.status, w.core.deps[t], w.core.status[t], w.waits.phase[t]);
    GotoKeeps(w.core.status, w.core.deps, w.waits, t, Scan(0));
    WaitsOnly(w, Goto(w.waits, t, Scan(0)));
  }

  // ----- Every call, every run

  lemma DoKeeps(w: World, c: Call)
    requires WorldInv(w) && Allowed(w, c)
    ensures WorldInv(Do(w, c)) && NoneRevived(w, Do(w, c))
  {
    match c
    case CallCreate => CreateKeepsWorld(w);
    case CallRef(t) => RefKeepsWorld(w, t); HeldIsLive(w, t);
    case CallUnref(t) => UnrefKeepsWorld(w, t); UnrefShrinks(w.counts, w.core.deps, t);
    case CallPut(t, k, v) => AccessKeepsWorld(w, t, k, Put(v));
    case CallGet(t, k) => AccessKeepsWorld(w, t, k, Get(ReadValue(w.core, k)));
    case CallCommit(t) => CommitCallKeepsWorld(w, t);
    case StepCommit(t) => CommitStepKeepsWorld(w, t);
    case CallAbort(t) => ReturnKeepsWorld(w, t, Aborted);
  }

  lemma StartInv()
    ensures WorldInv(START)
  {
    InitInv();
  }

  lemma {:induction false} RunsKeepWorld(w: World, cs: seq<Call>, w': World)
    requires WorldInv(w) && RunsTo(w, cs, w')
    ensures WorldInv(w') && NoneRevived(w, w')
    decreases |cs|
  {
    if cs != [] {
      DoKeeps(w, cs[0]);
      hide WorldInv;
      RunsKeepWorld(Do(w, cs[0]), cs[1..], w');
    }
  }

  lemma PossibleInv(w: World)
    requires Possible(w)
    ensures WorldInv(w)
  {
    StartInv();
    var cs :| RunsTo(START, cs, w);
    RunsKeepWorld(START, cs, w);
  }
}
