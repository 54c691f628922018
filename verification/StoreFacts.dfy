/** The store operations of the machine, step by step: what the methods that work on the memory rely on. */
module StoreFacts {
  import opened Types
  import opened VersionLists
  import opened Protocol
  import opened Invariant
  import opened References
  import opened Waiting
  import opened Machine
  import opened Books
  import opened Counting
  import opened Ids
  import opened MachineInvariant
  import opened MachineTheorems
  import opened BlobBooks
  import opened BlobRuns
  import opened Progress
  import opened Transactions
  import opened Collection
  import opened Installation

  /** An operation on one key leaves the list of every other key alone. */
  lemma OtherKeysUntouched(v: World, t: Tid, k: Key, act: Action, j: Key)
    requires WorldWf(v) && t < |v.core.status| && v.handles[t] > 0 && j != k
    ensures At(StoreAccess(v, t, k, act).core.lists, j) == At(v.core.lists, j)
    ensures j in StoreAccess(v, t, k, act).core.lists <==> j in v.core.lists
  {
    GarbageCollectWf(v, k);
    hide Wf, Unref, DropCreators, WakeCreators, AbortCreators, RefDependencies, AddDependencies, InstallId, AdmitsId;
  }

  /** The value that GET returns, and whether it is admitted, as the protocol states them. */
  lemma AdmittedById(v: World, t: Tid, k: Key)
    requires WorldInv(v) && t < |v.handles| && v.handles[t] > 0
    ensures WorldWf(v) && WorldInv(GarbageCollect(v, k))
    ensures var c := GarbageCollect(v, k);
            && k in c.core.lists && ReadValue(v.core, k) == LastValue(c.core.lists[k])
            && (Admitted(v.core, t, k) <==> AdmitsId(c.core.lists[k], c.ids, t))
  {
    hide Inv, WaitInv, BooksOk, IdOrder, Wf, AdmitsId, Admits, InstallId, Install;
    CollectKeepsWorld(v, k);
    GarbageCollectWf(v, k);
    IdsDecide(GarbageCollect(v, k), t, k, Get(None));
  }

  /** The world after a store operation, by whether the id is great enough. */
  lemma AccessFacts(v: World, t: Tid, k: Key, act: Action)
    requires WorldInv(v) && Possible(v) && t < |v.handles| && v.handles[t] > 0 && v.waits.phase[t].Idle?
    requires act.Get? ==> act.value == ReadValue(v.core, k)
    ensures WorldWf(v) && WorldInv(GarbageCollect(v, k)) && WorldWf(GarbageCollect(v, k))
    ensures k in GarbageCollect(v, k).core.lists
    ensures var c := GarbageCollect(v, k); var v' := StoreAccess(v, t, k, act);
            && c.handles == v.handles && c.core.status[t] != Committed
            && v' == (if AdmitsId(c.core.lists[k], c.ids, t) then InstallVersion(c, t, k, act) else Rejected(c, t))
            && WorldWf(v') && Possible(v') && t < |v'.core.status|
            && v'.core.status[t] == (if AdmitsId(c.core.lists[k], c.ids, t) then c.core.status[t] else Aborted)
  {
    hide Inv, WaitInv, BooksOk, IdOrder, Possible, AdmitsId, InstallVersion, TransAbort, Wf;
    CollectKeepsWorld(v, k);
    NeverCommitted(GarbageCollect(v, k), t);
    OutcomeStatus(GarbageCollect(v, k), t, k, act);
    AccessPossible(v, t, k, act);
  }

  lemma AccessPossible(v: World, t: Tid, k: Key, act: Action)
    requires WorldWf(v) && Possible(v) && t < |v.handles| && v.handles[t] > 0 && v.waits.phase[t].Idle?
    requires act.Get? ==> act.value == ReadValue(v.core, k)
    ensures WorldWf(StoreAccess(v, t, k, act)) && Possible(StoreAccess(v, t, k, act))
  {
    hide Wf, Possible, StoreAccess;
    match act
    case Put(x) => PossibleDo(v, CallPut(t, k, x));
    case Get(x) => PossibleDo(v, CallGet(t, k));
  }

  lemma OutcomeStatus(c: World, t: Tid, k: Key, act: Action)
    requires WorldWf(c) && t < |c.core.status| && c.handles[t] > 0 && c.core.status[t] != Committed
    ensures InstallVersion(c, t, k, act).core.status == c.core.status
    ensures |Rejected(c, t).core.status| == |c.core.status| && Rejected(c, t).core.status[t] == Aborted
  {
    hide InstallId, RefDependencies, AddDependencies, Unref;
  }

  lemma NeverCommitted(v: World, t: Tid)
    requires WorldInv(v) && t < |v.handles| && v.waits.phase[t].Idle?
    ensures v.core.status[t] != Committed
  {
    assert PhaseOk(v.core.status, v.core.deps[t], v.core.status[t], v.waits.phase[t]);
  }

  /** What becomes of the world when an operation is rejected. */
  ghost function Rejected(v: World, t: Tid): World
    requires WorldWf(v) && t < |v.core.status| && v.handles[t] > 0
  {
    TransAbort(v, t).(handles := v.handles[t := v.handles[t] - 1])
  }

  /** What AddVersion and AddEarlierDependencyList do in turn is InstallVersion. */
  lemma InstallLeads(v: World, t: Tid, k: Key, act: Action)
    requires WorldInv(v) && t < |v.handles| && v.handles[t] > 0 && k in v.core.lists &&
             AdmitsId(v.core.lists[k], v.ids, t)
    ensures var vs := v.core.lists[k];
            var vs' := InstallId(vs, v.ids, Version(t, act.value));
            var counts := CountsWith(v.counts, v.core.deps, vs, vs', t);
            var w' := InstallVersion(v, t, k, act);
            && Live(vs', counts)
            && Leads(counts, v.core.deps, vs', t, v.core.status, w'.counts, w'.core.deps)
  {
    var vs, nv := v.core.lists[k], Version(t, act.value);
    hide Inv, WaitInv, BooksOk, IdOrder, RefDependencies, AddDependencies, Unref, Ref, Install, InstallId, AdmitsId,
         Admits, CreatorsBelow;
    HeldIsLive(v, t);
    IdsDecide(v, t, k, act);
    InstallLive(v, t, k, nv);
    InstallParts(vs, nv);
    BackAgain(v.counts, v.core.deps, t);
  }

  lemma {:induction false} VersionRefsMore(lists: map<Key, seq<Version>>, entries: seq<Key>, k: Key, x: Tid)
    requires EntriesOk(lists, entries)
    ensures VersionRefs(lists, entries, x) >= CountBy(At(lists, k), x)
  {
    if k in lists {
      var i :| 0 <= i < |entries| && entries[i] == k;
      SumAtLeast(PerEntry(lists, entries, x), i);
    }
  }

  /** Every version of a list holds a reference to its creator, besides the callers' references. */
  ghost predicate Apiece(others: seq<nat>, vs: seq<Version>, held: seq<nat>) {
    |others| == |held| && forall x | 0 <= x < |others| :: others[x] >= held[x] + CountBy(vs, x)
  }

  lemma WorldSteady(v: World, k: Key)
    requires WorldInv(v)
    ensures WorldWf(v) && Graph(v.counts, v.core.deps, Others(v)) && AllHeard(v.waits.waitcnt, v.core.deps, v.handles)
    ensures Apiece(Others(v), At(v.core.lists, k), v.handles)
    ensures CreatorsBelow(At(v.core.lists, k), |v.core.status|) &&
            CommittedFirst(At(v.core.lists, k), v.core.status)
  {
    forall t | 0 <= t < |v.handles| ensures Heard(t, v.waits.waitcnt, v.core.deps, v.handles) {
      HeardAll(v, t);
    }
    assert KeyInv(v.core, k);
    ListShape(v.core, k);
    forall x | 0 <= x < |v.handles| ensures Others(v)[x] >= v.handles[x] + CountBy(At(v.core.lists, k), x) {
      VersionRefsMore(v.core.lists, v.entries, k, x);
    }
  }

  // ----- Blobs

  /** Every version of a list holds a reference to its blob. */
  ghost predicate Worth(refs: seq<nat>, vs: seq<Version>) {
    ValuesBelow(vs, |refs|) && forall x | 0 <= x < |refs| :: refs[x] >= CountValue(vs, x)
  }

  lemma WorthInStore(w: World, b: Blobs, k: Key)
    requires BlobInv(w, b)
    ensures Worth(b.refs, At(w.core.lists, k))
  {
    hide Wf;
    forall x | 0 <= x < |b.refs| ensures b.refs[x] >= CountValue(At(w.core.lists, k), x) {
      assert BlobOk(w, b, x);
      if k in w.core.lists { ValueListChange(w.core.lists, w.entries, k, w.core.lists[k], x); }
    }
  }

  lemma EnoughForAll(others: seq<nat>, refs: seq<nat>, vs: seq<Version>, held: seq<nat>)
    requires Apiece(others, vs, held) && Worth(refs, vs)
    ensures Enough(others, refs, vs, held)
  {
  }

  /** The blobs once the key has been adopted and the list collected. */
  ghost function Begun(w: World, b: Blobs, key: BlobId): Blobs
    requires BlobInv(w, b) && Held(b, key)
  {
    var k := b.content[key];
    AdoptKeyKeeps(w, b, key);
    CollectBlobs(WithEntry(w, k), AdoptKey(w, b, key), k)
  }

  lemma BegunKeeps(w: World, b: Blobs, key: BlobId)
    requires WorldInv(w) && BlobInv(w, b) && Held(b, key)
    ensures var k := b.content[key]; var c := GarbageCollect(w, k);
            WorldWf(w) && WorldInv(c) && k in c.core.lists && BlobInv(c, Begun(w, b, key)) && c.handles == w.handles
  {
    var k := b.content[key];
    CollectKeepsWorld(w, k);
    ListOrdered(w, k);
    CollectWithEntry(w, k);
    AdoptKeyKeeps(w, b, key);
    hide WorldInv, Wf, EntriesOk, CommittedFirst, BlobOk, BlobsWf, CollectBlobs, AdoptKey;
    CollectBlobsKeeps(WithEntry(w, k), AdoptKey(w, b, key), k);
  }

  /** What the beginning of an operation does to the reference counts and to the keys of entries. */
  lemma BegunParts(w: World, b: Blobs, key: BlobId)
    requires WorldInv(w) && BlobInv(w, b) && Held(b, key)
    ensures WorldWf(w) && |b.held| == |b.refs| == |b.content| && |b.keys| == |w.entries|
    ensures var k := b.content[key]; var vs, st := At(w.core.lists, k), w.core.status; var b' := Begun(w, b, key);
            var adopted := if k in w.core.lists then UnrefBlob(b.refs, Some(key)) else b.refs;
            && Worth(adopted, vs) && ValuesBelow(Outdated(vs, st), |b.refs|) && ValuesBelow(Doomed(vs, st), |b.refs|)
            && b.refs[key] > 0
            && b' == b.(refs := DropValues(DropValues(adopted, Outdated(vs, st)), Doomed(vs, st)),
                        held := b.held[key := b.held[key] - 1],
                        keys := if k in w.core.lists then b.keys else b.keys + [key])
            && GarbageCollect(w, k).entries == if k in w.core.lists then w.entries else w.entries + [k]
  {
    var k := b.content[key];
    AdoptKeyKeeps(w, b, key);
    WorthInStore(WithEntry(w, k), AdoptKey(w, b, key), k);
    PartsBelow(At(w.core.lists, k), w.core.status, |b.refs|);
    assert BlobOk(w, b, key);
    hide WorldInv, Wf, EntriesOk, BlobOk, ValueRefs, KeyRefs, DropValues, Outdated, Doomed;
  }

  /** The list of `k` has been collected: `ok` says whether the id of `u` is great enough for it. */
  ghost predicate Judged(c: World, refs: seq<nat>, u: Tid, k: Key, ok: bool) {
    && WorldInv(c) && WorldWf(c) && k in c.core.lists
    && u < |c.core.status| && c.handles[u] > 0 && c.core.status[u] != Committed
    && ok == AdmitsId(c.core.lists[k], c.ids, u)
    && Worth(refs, c.core.lists[k])
  }

  ghost predicate StatusDue(c: World, t: World, u: Tid, ok: bool) {
    u < |c.core.status| && u < |t.core.status| && t.core.status[u] == if ok then c.core.status[u] else Aborted
  }

  /** What is left for a PUT of `v` to do, from there to `t`. */
  ghost predicate PutDue(c: World, refs: seq<nat>, t: Stocked, u: Tid, k: Key, v: Value, ok: bool) {
    && Judged(c, refs, u, k, ok) && StatusDue(c, t.w, u, ok)
    && (v.Some? ==> v.value < |refs| && refs[v.value] > 0)
    && t.w == (if ok then InstallVersion(c, u, k, Put(v)) else Rejected(c, u))
    && t.b.refs == if ok then ReplacedBlobs(refs, c.core.lists[k], InstallId(c.core.lists[k], c.ids, Version(u, v)))
                   else UnrefBlob(refs, v)
  }

  /** What is left for a GET to do. */
  ghost predicate GetDue(c: World, refs: seq<nat>, t: Stocked, u: Tid, k: Key, ok: bool) {
    && Judged(c, refs, u, k, ok) && StatusDue(c, t.w, u, ok)
    && var vs, v := c.core.lists[k], LastValue(c.core.lists[k]);
    && (v.Some? ==> v.value < |refs|)
    && t.w == (if ok then InstallVersion(c, u, k, Get(v)) else Rejected(c, u))
    && t.b.refs == if ok then RefBlob(ReplacedBlobs(RefBlob(refs, v), vs, InstallId(vs, c.ids, Version(u, v))), v)
                   else refs
  }

  /** A PUT once the list has been collected, by whether the id is great enough. */
  lemma PutOutcome(s: Stocked, t: Tid, key: BlobId, v: Value)
    requires StockInv(s) && MayMove(s, PutBlob(t, key, v))
    ensures var k := s.b.content[key]; var c, b := GarbageCollect(s.w, k), Begun(s.w, s.b, key);
            var s' := Step(s, PutBlob(t, key, v));
            && WorldWf(c) && k in c.core.lists && t < |c.ids|
            && PutDue(c, b.refs, s', t, k, v, AdmitsId(c.core.lists[k], c.ids, t))
            && s'.w.entries == c.entries && s'.b.content == b.content && s'.b.keys == b.keys
  {
    hide WorldInv, Possible, InstallVersion, Rejected, AdmitsId, InstallId, CollectBlobs, AdoptKey, BlobInv,
         StoreAccess, GarbageCollect;
    var k := s.b.content[key];
    AccessFacts(s.w, t, k, Put(v));
    BegunKeeps(s.w, s.b, key);
    CollectWithEntry(s.w, k);
    WorthInStore(GarbageCollect(s.w, k), Begun(s.w, s.b, key), k);
    ValueAlive(s, t, key, v);
    EntriesKept(GarbageCollect(s.w, k), t, k, Put(v));
  }

  lemma ValueAlive(s: Stocked, t: Tid, key: BlobId, v: Value)
    requires StockInv(s) && MayMove(s, PutBlob(t, key, v))
    ensures var b := Begun(s.w, s.b, key);
            v.Some? ==> v.value < |b.refs| == |b.held| && b.refs[v.value] > 0 && b.held[v.value] > 0
  {
    hide WorldInv, Possible, Wf, GarbageCollect, EntriesOk, DropValues, Outdated, Doomed, Allowed;
    BegunKeeps(s.w, s.b, key);
    BegunParts(s.w, s.b, key);
    var b := Begun(s.w, s.b, key);
    if v.Some? {
      assert BlobOk(GarbageCollect(s.w, s.b.content[key]), b, v.value);
    }
  }

  lemma EntriesKept(c: World, t: Tid, k: Key, act: Action)
    requires WorldWf(c) && t < |c.core.status| && c.handles[t] > 0
    ensures InstallVersion(c, t, k, act).entries == c.entries && Rejected(c, t).entries == c.entries
  {
    hide InstallId, RefDependencies, AddDependencies, Unref;
  }

  /** A GET likewise; what it finds is what the protocol reads. */
  lemma GetOutcome(s: Stocked, t: Tid, key: BlobId)
    requires StockInv(s) && MayMove(s, GetBlob(t, key))
    ensures var k := s.b.content[key]; var c, b := GarbageCollect(s.w, k), Begun(s.w, s.b, key);
            var s' := Step(s, GetBlob(t, key));
            && WorldWf(c) && k in c.core.lists && t < |c.ids|
            && GetDue(c, b.refs, s', t, k, AdmitsId(c.core.lists[k], c.ids, t))
            && ReadValue(s.w.core, k) == LastValue(c.core.lists[k])
            && (Admitted(s.w.core, t, k) <==> AdmitsId(c.core.lists[k], c.ids, t))
            && s'.w.entries == c.entries && s'.b.content == b.content && s'.b.keys == b.keys
  {
    hide WorldInv, Possible, InstallVersion, Rejected, AdmitsId, InstallId, CollectBlobs, AdoptKey, BlobInv,
         StoreAccess, GarbageCollect, Admitted, ReadValue;
    var k := s.b.content[key];
    AdmittedById(s.w, t, k);
    AccessFacts(s.w, t, k, Get(ReadValue(s.w.core, k)));
    BegunKeeps(s.w, s.b, key);
    CollectWithEntry(s.w, k);
    WorthInStore(GarbageCollect(s.w, k), Begun(s.w, s.b, key), k);
    LastBelow(Begun(s.w, s.b, key).refs, GarbageCollect(s.w, k).core.lists[k]);
    EntriesKept(GarbageCollect(s.w, k), t, k, Get(ReadValue(s.w.core, k)));
  }

  lemma LastBelow(refs: seq<nat>, vs: seq<Version>)
    requires Worth(refs, vs)
    ensures LastValue(vs).Some? ==> LastValue(vs).value < |refs|
  {
  }

  lemma WorthMore(refs: seq<nat>, vs: seq<Version>, v: Value)
    requires Worth(refs, vs) && (v.Some? ==> v.value < |refs|)
    ensures Worth(RefBlob(refs, v), vs)
  {
  }

  // ----- Moves

  lemma NoMoves(s: Stocked)
    ensures MovesTo(s, [], s)
  {
  }

  lemma MoreMoves(s: Stocked, ms: seq<Move>, s': Stocked, m: Move)
    requires StockInv(s) && MovesTo(s, ms, s') && StockInv(s') && MayMove(s', m)
    ensures MovesTo(s, ms + [m], Step(s', m))
  {
    MovesSnoc(s, ms, s', m);
  }

  lemma FirstMove(s: Stocked, m: Move, ms: seq<Move>, s': Stocked)
    requires StockInv(s) && MayMove(s, m) && MovesTo(Step(s, m), ms, s')
    ensures MovesTo(s, [m] + ms, s')
  {
    assert ([m] + ms)[1..] == ms;
  }

  ghost function WorldMeasure(w: World): nat {
    if WorldWf(w) then Measure(w) else 0
  }

  lemma StepMeasure(s: Stocked, t: Tid)
    requires StockInv(s) && MayMove(s, Other(StepCommit(t)))
    ensures WorldMeasure(Step(s, Other(StepCommit(t))).w) < WorldMeasure(s.w)
  {
    hide BlobInv, Possible, WorldInv, Measure;
    PossibleWf(s.w);
    StepInWorld(s.w, t);
  }

  lemma StepInWorld(w: World, t: Tid)
    requires WorldInv(w) && WorldWf(w) && CanStep(w, t)
    ensures WorldWf(CommitStep(w, t)) && Measure(CommitStep(w, t)) < Measure(w)
  {
    StepDecreases(w, t);
  }

  /** What stands between a thread inside trans_commit and its next step is at most a missing post. */
  lemma MissingPost(w: World, t: Tid)
    requires WorldInv(w) && t < |w.core.status|
    ensures var p, ds := w.waits.phase[t], w.core.deps[t];
            && (p.Done? ==> w.core.status[t] != Pending)
            && (Active(p) && !p.Blocked? ==> CanStep(w, t))
            && (p.Blocked? ==> p.at < |ds| && ds[p.at] < |w.waits.sem| == |w.core.status|
                               && (CanStep(w, t) <==> w.waits.sem[ds[p.at]] > 0)
                               && (!CanStep(w, t) ==> w.core.status[ds[p.at]] == Pending))
  {
    Underway(w, t);
    if w.waits.phase[t].Blocked? { WokenOnDecision(w, t); }
    hide Inv, WaitInv, BooksOk, IdOrder;
  }

  lemma NeverIdleAgain(w: World, t: Tid)
    requires WorldInv(w) && CanStep(w, t)
    ensures WorldWf(CommitStep(w, t)) && t < |CommitStep(w, t).waits.phase| && !CommitStep(w, t).waits.phase[t].Idle?
  {
    hide WorldInv, Unref, Wf;
    StepKeepsWf(w, t);
  }

  lemma StepKeepsWf(w: World, t: Tid)
    requires WorldInv(w) && CanStep(w, t)
    ensures WorldWf(w) && WorldWf(CommitStep(w, t))
  {
    hide CommitStep, CanStep;
    CommitStepKeepsWorld(w, t);
  }
}
