/** The whole transaction manager and store: the protocol together with numeric ids, reference counts,
    commit threads, and the references that callers hold. */
module Machine {
  import opened Types
  import opened VersionLists
  import opened Protocol
  import opened References
  import opened Waiting

  /** `counts` are the refcnt fields; a transaction is freed once its count is zero.  `handles` says how many
      of its references callers hold, and `entries` lists the keys of the map entries. */
  datatype World = World(
    core: State,
    ids: seq<nat>,
    counts: seq<nat>,
    handles: seq<nat>,
    waits: Waits,
    entries: seq<Key>)

  const START := World(INIT, [], [], [], Waits([], [], []), [])

  ghost predicate WorldWf(w: World) {
    var n := |w.core.status|;
    && Wf(w.core)
    && |w.ids| == |w.counts| == |w.handles| == n
    && |w.waits.phase| == |w.waits.waitcnt| == |w.waits.sem| == n
  }

  // ----- Numeric ids

  /** The newest transaction that has not been freed: the head of the transaction list. */
  function NewestLive(counts: seq<nat>): Option<Tid> {
    if counts == [] then None
    else if counts[|counts| - 1] > 0 then Some(|counts| - 1)
    else NewestLive(counts[..|counts| - 1])
  }

  function NextId(ids: seq<nat>, counts: seq<nat>): nat
    requires |ids| == |counts|
  {
    NewestLiveInRange(counts);
    if NewestLive(counts).None? then 0 else ids[NewestLive(counts).value] + 1
  }

  lemma {:induction false} NewestLiveInRange(counts: seq<nat>)
    ensures NewestLive(counts).Some? ==> NewestLive(counts).value < |counts| && counts[NewestLive(counts).value] > 0
    ensures forall t | 0 <= t < |counts| && counts[t] > 0 :: NewestLive(counts).Some? && t <= NewestLive(counts).value
  {
    if counts != [] && counts[|counts| - 1] == 0 {
      NewestLiveInRange(counts[..|counts| - 1]);
    }
  }

  /** get_max_id. */
  function MaxId(vs: seq<Version>, ids: seq<nat>): nat
    requires vs != [] && CreatorsBelow(vs, |ids|)
  {
    if |vs| == 1 then ids[vs[0].creator]
    else if MaxId(vs[1..], ids) < ids[vs[0].creator] then ids[vs[0].creator]
    else MaxId(vs[1..], ids)
  }

  /** check_transid_greater. */
  predicate AdmitsId(vs: seq<Version>, ids: seq<nat>, t: Tid)
    requires CreatorsBelow(vs, |ids|) && t < |ids|
  {
    vs == [] || MaxId(vs, ids) <= ids[t]
  }

  /** Replaces the last version when the greatest id in the list is that of the creator, appends otherwise. */
  function InstallId(vs: seq<Version>, ids: seq<nat>, v: Version): (r: seq<Version>)
    requires CreatorsBelow(vs, |ids|) && v.creator < |ids|
    ensures CreatorsBelow(r, |ids|)
  {
    if vs != [] && MaxId(vs, ids) == ids[v.creator] then vs[..|vs| - 1] + [v] else vs + [v]
  }

  // ----- Reference counts of versions and dependencies

  function DropCreators(counts: seq<nat>, deps: seq<seq<Tid>>, vs: seq<Version>): (r: seq<nat>)
    requires DepsBelow(deps) && |counts| == |deps| && CreatorsBelow(vs, |counts|)
    ensures |r| == |counts|
    decreases |vs|
  {
    if vs == [] then counts else DropCreators(Unref(counts, deps, vs[0].creator), deps, vs[1..])
  }

  /** The counts after the dependencies that AddDependencies adds have been referenced. */
  function RefDependencies(counts: seq<nat>, ds: seq<Tid>, vs: seq<Version>, t: Tid, st: seq<Status>): (r: seq<nat>)
    requires CreatorsBelow(vs, |st|) && |counts| == |st|
    ensures |r| == |counts|
    decreases |vs|
  {
    if vs == [] then counts
    else
      var c := vs[0].creator;
      if c != t && st[c] == Pending && c !in ds then RefDependencies(Ref(counts, c), [c] + ds, vs[1..], t, st)
      else RefDependencies(counts, ds, vs[1..], t, st)
  }

  // ----- Operations

  function TransCreate(w: World): World
    requires WorldWf(w)
  {
    w.(core := Create(w.core), ids := w.ids + [NextId(w.ids, w.counts)], counts := w.counts + [1],
       handles := w.handles + [1], waits := Enter(w.waits))
  }

  /** trans_abort: consumes one reference; a pending transaction becomes aborted and its waiters are woken. */
  function TransAbort(w: World, t: Tid): World
    requires WorldWf(w) && t < |w.core.status|
  {
    w.(core := Abort(w.core, t),
       waits := if w.core.status[t] == Pending then Wake(w.waits, t) else w.waits,
       counts := Unref(w.counts, w.core.deps, t))
  }

  /** The entry of `k` is found or added and its list collected: superseded versions are disposed of, the
      creators of doomed versions are aborted and those versions disposed of. */
  function GarbageCollect(w: World, k: Key): World
    requires WorldWf(w)
  {
    var vs, st, deps := At(w.core.lists, k), w.core.status, w.core.deps;
    w.(core := Collect(w.core, k),
       counts := DropCreators(DropCreators(w.counts, deps, Outdated(vs, st)), deps, Doomed(vs, st)),
       waits := WakeCreators(w.waits, st, Doomed(vs, st)),
       entries := if k in w.core.lists then w.entries else w.entries + [k])
  }

  /** An admitted operation, decided by numeric ids: the version is created and installed, and the earlier
      pending creators become dependencies. */
  function InstallVersion(w: World, t: Tid, k: Key, act: Action): World
    requires WorldWf(w) && t < |w.core.status|
  {
    var s := w.core;
    var vs := At(s.lists, k);
    var vs' := InstallId(vs, w.ids, Version(t, act.value));
    var created := Ref(w.counts, t);
    var installed := if |vs'| == |vs| then Unref(created, s.deps, vs[|vs| - 1].creator) else created;
    w.(core := s.(lists := s.lists[k := vs'],
                  deps := s.deps[t := AddDependencies(s.deps[t], vs', t, s.status)],
                  log := s.log + [Op(t, k, act, LastCreator(vs))]),
       counts := RefDependencies(installed, s.deps[t], vs', t, s.status))
  }

  lemma GarbageCollectWf(w: World, k: Key)
    requires WorldWf(w)
    ensures WorldWf(GarbageCollect(w, k)) && k in GarbageCollect(w, k).core.lists
  {
    CollectWf(w.core, k);
  }

  /** store_put and store_get.  A rejected operation aborts the transaction and consumes the caller's
      reference to it. */
  function StoreAccess(w: World, t: Tid, k: Key, act: Action): World
    requires WorldWf(w) && t < |w.core.status| && w.handles[t] > 0
  {
    GarbageCollectWf(w, k);
    var c := GarbageCollect(w, k);
    if AdmitsId(c.core.lists[k], c.ids, t) then InstallVersion(c, t, k, act)
    else TransAbort(c, t).(handles := c.handles[t := c.handles[t] - 1])
  }

  function StorePut(w: World, t: Tid, k: Key, v: Value): World
    requires WorldWf(w) && t < |w.core.status| && w.handles[t] > 0
  {
    StoreAccess(w, t, k, Put(v))
  }

  function StoreGet(w: World, t: Tid, k: Key): World
    requires WorldWf(w) && t < |w.core.status| && w.handles[t] > 0
  {
    StoreAccess(w, t, k, Get(ReadValue(w.core, k)))
  }

  /** The thread of `t` returns from commit or from the abort at disconnection; its reference is consumed. */
  function Return(w: World, t: Tid, own: Status): World
    requires WorldWf(w) && t < |w.core.status| && w.handles[t] > 0
  {
    var decided := w.core.status[t] != Pending;
    w.(core := if decided then w.core else w.core.(status := w.core.status[t := own]),
       waits := Goto(if decided then w.waits else Wake(w.waits, t), t, Done),
       counts := Unref(w.counts, w.core.deps, t),
       handles := w.handles[t := w.handles[t] - 1])
  }

  /** Whether the thread of `t` is inside trans_commit and not blocked without a post. */
  predicate CanStep(w: World, t: Tid)
    requires WorldWf(w)
  {
    && t < |w.core.status| && w.handles[t] > 0
    && match w.waits.phase[t]
       case Idle => false
       case Done => false
       case Scan(i) => i <= |w.core.deps[t]|
       case Woken(i) => i < |w.core.deps[t]|
       case Blocked(i) =>
          i < |w.core.deps[t]| && w.core.deps[t][i] < |w.waits.sem| && w.waits.sem[w.core.deps[t][i]] > 0
  }

  /** One step of trans_commit, up to the next point where the thread lets go of the mutex. */
  function CommitStep(w: World, t: Tid): World
    requires WorldWf(w) && CanStep(w, t)
  {
    var ds, st := w.core.deps[t], w.core.status;
    match w.waits.phase[t]
    case Blocked(i) => w.(waits := Resume(w.waits, t, i, ds[i]))
    case Scan(i) =>
      if i == |ds| then Return(w, t, Committed)
      else
        assert ds[i] in ds;
        if st[ds[i]] == Pending then w.(waits := Register(w.waits, t, i, ds[i]))
        else if st[ds[i]] == Aborted then Return(w, t, Aborted)
        else w.(waits := Goto(w.waits, t, Scan(i + 1)))
    case Woken(i) =>
      assert ds[i] in ds;
      if st[ds[i]] == Pending then w.(waits := Goto(w.waits, t, Scan(i)))
      else if st[ds[i]] == Aborted then Return(w, t, Aborted)
      else w.(waits := Goto(w.waits, t, Scan(i + 1)))
  }

  // ----- Runs

  datatype Call =
    | CallCreate
    | CallRef(t: Tid)
    | CallUnref(t: Tid)
    | CallPut(t: Tid, k: Key, v: Value)
    | CallGet(t: Tid, k: Key)
    | CallCommit(t: Tid)
    | StepCommit(t: Tid)
    | CallAbort(t: Tid)

  /** A caller needs a reference for whatever it does with a transaction.  It issues operations one after
      the other, nothing after asking for a commit or for an abort.  While a commit is under way one reference
      is the commit's, which drops it when it returns. */
  predicate Allowed(w: World, c: Call)
    requires WorldWf(w)
  {
    match c
    case CallCreate => true
    case CallRef(t) => t < |w.handles| && w.handles[t] > 0
    case CallUnref(t) =>
      && t < |w.handles| && w.handles[t] > 0
      && (w.handles[t] > 1 || w.waits.phase[t].Idle? || w.waits.phase[t].Done?)
    case CallPut(t, k, v) => t < |w.handles| && w.handles[t] > 0 && w.waits.phase[t].Idle?
    case CallGet(t, k) => t < |w.handles| && w.handles[t] > 0 && w.waits.phase[t].Idle?
    case CallCommit(t) => t < |w.handles| && w.handles[t] > 0 && w.waits.phase[t].Idle?
    case StepCommit(t) => CanStep(w, t)
    case CallAbort(t) => t < |w.handles| && w.handles[t] > 0 && w.waits.phase[t].Idle?
  }

  function Do(w: World, c: Call): World
    requires WorldWf(w) && Allowed(w, c)
  {
    match c
    case CallCreate => TransCreate(w)
    case CallRef(t) => w.(counts := Ref(w.counts, t), handles := w.handles[t := w.handles[t] + 1])
    case CallUnref(t) => w.(counts := Unref(w.counts, w.core.deps, t), handles := w.handles[t := w.handles[t] - 1])
    case CallPut(t, k, v) => StorePut(w, t, k, v)
    case CallGet(t, k) => StoreGet(w, t, k)
    case CallCommit(t) => w.(waits := Goto(w.waits, t, Scan(0)))
    case StepCommit(t) => CommitStep(w, t)
    case CallAbort(t) => Return(w, t, Aborted)
  }

  ghost predicate RunsTo(w: World, cs: seq<Call>, w': World)
    decreases |cs|
  {
    if cs == [] then w == w'
    else WorldWf(w) && Allowed(w, cs[0]) && RunsTo(Do(w, cs[0]), cs[1..], w')
  }

  ghost predicate Possible(w: World) {
    exists cs :: RunsTo(START, cs, w)
  }
}
