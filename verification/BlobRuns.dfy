/** Blob references over whole runs: callers create blobs, share and drop references, and call the store. */
module BlobRuns {
  import opened Types
  import opened VersionLists
  import opened Protocol
  import opened References
  import opened Waiting
  import opened Machine
  import opened Books
  import opened MachineInvariant
  import opened MachineTheorems
  import opened Invariant
  import opened BlobBooks

  datatype Move =
    | Make(bytes: Bytes)
    | Share(x: BlobId)
    | Drop(x: BlobId)
    | PutBlob(t: Tid, key: BlobId, v: Value)
    | GetBlob(t: Tid, key: BlobId)
    | Other(c: Call)

  datatype Stocked = Stocked(w: World, b: Blobs)

  const EMPTY := Stocked(START, Blobs([], [], [], []))

  /** What the program is at: the machine's invariant, and conservation of blob references. */
  ghost predicate StockInv(s: Stocked) {
    Possible(s.w) && WorldInv(s.w) && BlobInv(s.w, s.b)
  }

  ghost predicate Held(b: Blobs, x: BlobId) {
    x < |b.content| && x < |b.refs| && x < |b.held| && b.held[x] > 0
  }

  /** A caller needs a reference for whatever it does with a blob: for the key, for the value, and one each
      when they are the same blob. */
  ghost predicate MayMove(s: Stocked, m: Move)
    requires StockInv(s)
  {
    match m
    case Make(bytes) => true
    case Share(x) => Held(s.b, x)
    case Drop(x) => Held(s.b, x)
    case PutBlob(t, key, v) =>
      && Held(s.b, key) && Allowed(s.w, CallPut(t, s.b.content[key], v))
      && (v.Some? ==> Held(s.b, v.value) && s.b.held[v.value] > (if v.value == key then 1 else 0))
    case GetBlob(t, key) => Held(s.b, key) && Allowed(s.w, CallGet(t, s.b.content[key]))
    case Other(c) => !c.CallPut? && !c.CallGet? && Allowed(s.w, c)
  }

  ghost function Step(s: Stocked, m: Move): Stocked
    requires StockInv(s) && MayMove(s, m)
  {
    match m
    case Make(bytes) => s.(b := BlobCreate(s.b, bytes))
    case Share(x) => s.(b := s.b.(refs := RefBlob(s.b.refs, Some(x)), held := s.b.held[x := s.b.held[x] + 1]))
    case Drop(x) => s.(b := s.b.(refs := UnrefBlob(s.b.refs, Some(x)), held := s.b.held[x := s.b.held[x] - 1]))
    case PutBlob(t, key, v) => Stocked(Do(s.w, CallPut(t, s.b.content[key], v)), BlobsAfterPut(s.w, s.b, t, key, v))
    case GetBlob(t, key) => Stocked(Do(s.w, CallGet(t, s.b.content[key])), BlobsAfterGet(s.w, s.b, t, key))
    case Other(c) => s.(w := Do(s.w, c))
  }

  ghost predicate MovesTo(s: Stocked, ms: seq<Move>, s': Stocked)
    decreases |ms|
  {
    if ms == [] then s == s' else StockInv(s) && MayMove(s, ms[0]) && MovesTo(Step(s, ms[0]), ms[1..], s')
  }

  ghost predicate Reached(s: Stocked) {
    exists ms :: MovesTo(EMPTY, ms, s)
  }

  // ----- Every move keeps the books

  lemma HandsKeep(w: World, b: Blobs, b': Blobs, x: BlobId, more: bool)
    requires BlobInv(w, b) && Held(b, x)
    requires b' == if more then b.(refs := RefBlob(b.refs, Some(x)), held := b.held[x := b.held[x] + 1])
                   else b.(refs := UnrefBlob(b.refs, Some(x)), held := b.held[x := b.held[x] - 1])
    ensures BlobInv(w, b')
  {
    hide EntriesOk, Wf, ValueRefs, KeyRefs;
    forall y | 0 <= y < |b'.refs| ensures BlobOk(w, b', y) {
      assert BlobOk(w, b, y);
    }
  }

  lemma OtherKeepsLists(w: World, c: Call)
    requires WorldWf(w) && Allowed(w, c) && !c.CallPut? && !c.CallGet?
    ensures Do(w, c).core.lists == w.core.lists && Do(w, c).entries == w.entries
  {
    hide Wf, Unref, Wake, Goto, Enter, NextId;
  }

  lemma SameListsKeep(w: World, w': World, b: Blobs)
    requires BlobInv(w, b) && WorldWf(w') && w'.core.lists == w.core.lists && w'.entries == w.entries
    ensures BlobInv(w', b)
  {
    hide EntriesOk, Wf, ValueRefs, KeyRefs;
    forall x | 0 <= x < |b.refs| ensures BlobOk(w', b, x) {
      assert BlobOk(w, b, x);
    }
  }

  lemma StepKeeps(s: Stocked, m: Move)
    requires StockInv(s) && MayMove(s, m)
    ensures StockInv(Step(s, m))
  {
    hide BlobInv, WorldInv, Possible, Do;
    assert WorldWf(s.w) by { PossibleWf(s.w); }
    match m
    case Make(bytes) => BlobCreateKeeps(s.w, s.b, bytes);
    case Share(x) => HandsKeep(s.w, s.b, Step(s, m).b, x, true);
    case Drop(x) => HandsKeep(s.w, s.b, Step(s, m).b, x, false);
    case PutBlob(t, key, v) =>
      StepPossible(s.w, CallPut(t, s.b.content[key], v));
      PutStep(s, t, key, v);
    case GetBlob(t, key) =>
      StepPossible(s.w, CallGet(t, s.b.content[key]));
      GetStep(s, t, key);
    case Other(c) =>
      StepPossible(s.w, c);
      OtherKeepsLists(s.w, c);
      SameListsKeep(s.w, Do(s.w, c), s.b);
  }

  lemma PutStep(s: Stocked, t: Tid, key: BlobId, v: Value)
    requires StockInv(s) && MayMove(s, PutBlob(t, key, v))
    ensures BlobInv(Step(s, PutBlob(t, key, v)).w, Step(s, PutBlob(t, key, v)).b)
  {
    hide BlobInv, WorldInv, Possible, Machine.StorePut, BlobsAfterPut;
    PutConserves(s.w, s.b, t, key, v);
  }

  lemma GetStep(s: Stocked, t: Tid, key: BlobId)
    requires StockInv(s) && MayMove(s, GetBlob(t, key))
    ensures BlobInv(Step(s, GetBlob(t, key)).w, Step(s, GetBlob(t, key)).b)
  {
    hide BlobInv, WorldInv, Possible, Machine.StoreGet, BlobsAfterGet;
    GetConserves(s.w, s.b, t, key);
  }

  lemma PossibleWf(w: World)
    requires Possible(w)
    ensures WorldWf(w)
  {
    PossibleInv(w);
  }

  lemma StepPossible(w: World, c: Call)
    requires Possible(w) && WorldWf(w) && Allowed(w, c)
    ensures Possible(Do(w, c)) && WorldInv(Do(w, c)) && WorldWf(Do(w, c))
  {
    PossibleDo(w, c);
    PossibleInv(Do(w, c));
  }

  // ----- Freed blobs stay freed

  ghost predicate NoBlobRevived(refs: seq<nat>, refs': seq<nat>) {
    |refs| <= |refs'| && forall x | 0 <= x < |refs| && refs[x] == 0 :: refs'[x] == 0
  }

  lemma {:induction false} DropValuesShrinks(refs: seq<nat>, vs: seq<Version>)
    requires ValuesBelow(vs, |refs|)
    ensures forall x | 0 <= x < |refs| :: DropValues(refs, vs)[x] <= refs[x]
    decreases |vs|
  {
    if vs != [] {
      DropValuesShrinks(UnrefBlob(refs, vs[0].value), vs[1..]);
    }
  }

  lemma CollectShrinks(w: World, b: Blobs, k: Key)
    requires WorldWf(w) && BlobsWf(w, b)
    ensures var c := CollectBlobs(w, b, k);
            |c.refs| == |b.refs| && forall x | 0 <= x < |b.refs| :: c.refs[x] <= b.refs[x]
  {
    var vs := At(w.core.lists, k);
    PartsBelow(vs, w.core.status, |b.refs|);
    DropValuesShrinks(b.refs, Outdated(vs, w.core.status));
    DropValuesShrinks(DropValues(b.refs, Outdated(vs, w.core.status)), Doomed(vs, w.core.status));
  }

  /** Adopting the key and collecting only drop references, and the books balance in between. */
  lemma PassShrinks(w: World, b: Blobs, key: BlobId)
    requires WorldInv(w) && BlobInv(w, b) && Held(b, key)
    ensures var k := b.content[key]; var e := WithEntry(w, k); var a := AdoptKey(w, b, key);
            && WorldWf(e) && WorldWf(GarbageCollect(e, k)) && BlobsWf(e, a) && k in GarbageCollect(e, k).core.lists
            && GarbageCollect(e, k) == GarbageCollect(w, k) && GarbageCollect(w, k).ids == w.ids
            && var c := CollectBlobs(e, a, k);
            && BlobInv(GarbageCollect(e, k), c) && |c.refs| == |b.refs|
            && forall x | 0 <= x < |b.refs| && b.refs[x] == 0 :: c.refs[x] == 0
  {
    var k := b.content[key];
    AdoptKeyKeeps(w, b, key);
    ListOrdered(w, k);
    CollectWithEntry(w, k);
    GarbageCollectWf(w, k);
    hide WorldInv, GarbageCollect, Wf, EntriesOk, CommittedFirst, BlobOk, DropValues, CollectBlobs, AdoptKey;
    CollectBlobsKeeps(WithEntry(w, k), AdoptKey(w, b, key), k);
    CollectShrinks(WithEntry(w, k), AdoptKey(w, b, key), k);
  }

  lemma PutRevivesNone(w: World, b: Blobs, t: Tid, key: BlobId, v: Value)
    requires WorldInv(w) && BlobInv(w, b) && t < |w.ids| && Held(b, key)
    requires v.Some? ==> Held(b, v.value) && b.held[v.value] > (if v.value == key then 1 else 0)
    ensures NoBlobRevived(b.refs, BlobsAfterPut(w, b, t, key, v).refs)
  {
    hide WorldInv, GarbageCollect, BlobOk, EntriesOk, Wf, InstallId, AdmitsId, CollectBlobs;
    PassShrinks(w, b, key);
  }

  lemma GetRevivesNone(w: World, b: Blobs, t: Tid, key: BlobId)
    requires WorldInv(w) && BlobInv(w, b) && t < |w.ids| && Held(b, key)
    ensures NoBlobRevived(b.refs, BlobsAfterGet(w, b, t, key).refs)
  {
    hide WorldInv, GarbageCollect, BlobOk, EntriesOk, Wf, InstallId, AdmitsId, CollectBlobs;
    PassShrinks(w, b, key);
    var k := b.content[key];
    GetBlobAlive(GarbageCollect(WithEntry(w, k), k), CollectBlobs(WithEntry(w, k), AdoptKey(w, b, key), k), t, k);
  }

  lemma StepRevivesNone(s: Stocked, m: Move)
    requires StockInv(s) && MayMove(s, m)
    ensures NoBlobRevived(s.b.refs, Step(s, m).b.refs)
  {
    hide BlobInv, WorldInv, Possible, Do, Allowed, BlobsAfterPut, BlobsAfterGet;
    match m
    case Make(bytes) =>
    case Share(x) => HeldIsAlive(s, x);
    case Drop(x) =>
    case PutBlob(t, key, v) => NamesInRange(s, m); PutRevivesNone(s.w, s.b, t, key, v);
    case GetBlob(t, key) => NamesInRange(s, m); GetRevivesNone(s.w, s.b, t, key);
    case Other(c) =>
  }

  lemma HeldIsAlive(s: Stocked, x: BlobId)
    requires StockInv(s) && Held(s.b, x)
    ensures s.b.refs[x] > 0
  {
    hide WorldInv, Possible, EntriesOk;
    assert BlobOk(s.w, s.b, x);
  }

  lemma NamesInRange(s: Stocked, m: Move)
    requires StockInv(s) && MayMove(s, m)
    ensures m.PutBlob? || m.GetBlob? ==> m.t < |s.w.ids|
  {
    hide BlobInv, Inv, WaitInv, BooksOk, Ids.IdOrder, Possible;
  }

  // ----- Whole runs

  lemma {:induction false} MovesKeep(s: Stocked, ms: seq<Move>, s': Stocked)
    requires StockInv(s) && MovesTo(s, ms, s')
    ensures StockInv(s') && NoBlobRevived(s.b.refs, s'.b.refs)
    decreases |ms|
  {
    if ms != [] {
      StepKeeps(s, ms[0]);
      StepRevivesNone(s, ms[0]);
      MovesKeep(Step(s, ms[0]), ms[1..], s');
    }
  }

  lemma EmptyInv()
    ensures StockInv(EMPTY)
  {
    assert RunsTo(START, [], START);
    StartInv();
  }

  lemma {:induction false} MovesSnoc(s: Stocked, ms: seq<Move>, s': Stocked, m: Move)
    requires StockInv(s) && MovesTo(s, ms, s') && StockInv(s') && MayMove(s', m)
    ensures MovesTo(s, ms + [m], Step(s', m))
    decreases |ms|
  {
    hide StockInv, MayMove, Step;
    if ms == [] {
      assert [m][1..] == [] && ms + [m] == [m];
      assert MovesTo(Step(s, m), [], Step(s, m));
    } else {
      MovesOne(s, ms[0]);
      MovesSnoc(Step(s, ms[0]), ms[1..], s', m);
      assert (ms + [m])[1..] == ms[1..] + [m];
    }
  }

  lemma MovesOne(s: Stocked, m: Move)
    requires StockInv(s) && MayMove(s, m)
    ensures StockInv(Step(s, m))
  {
    StepKeeps(s, m);
  }

  lemma ReachedStep(s: Stocked, m: Move)
    requires StockInv(s) && Reached(s) && MayMove(s, m)
    ensures StockInv(Step(s, m)) && Reached(Step(s, m))
  {
    EmptyInv();
    StepKeeps(s, m);
    hide StockInv, MayMove, Step;
    var ms :| MovesTo(EMPTY, ms, s);
    MovesSnoc(EMPTY, ms, s, m);
  }

  lemma ReachedEmpty()
    ensures StockInv(EMPTY) && Reached(EMPTY)
  {
    EmptyInv();
    assert MovesTo(EMPTY, [], EMPTY);
  }

  /** In every state that a run reaches, a blob's count is the number of versions that hold it, plus the
      entries whose key it is, plus the references in callers' hands; and the store is at a world that a run
      of its calls reaches. */
  lemma BlobsConserved(ms: seq<Move>, s: Stocked, x: BlobId)
    requires MovesTo(EMPTY, ms, s)
    ensures Possible(s.w) && |s.b.held| == |s.b.refs|
    ensures x < |s.b.refs| ==>
            s.b.refs[x] == ValueRefs(s.w.core.lists, s.w.entries, x) + KeyRefs(s.b.keys, x) + s.b.held[x]
  {
    EmptyInv();
    MovesKeep(EMPTY, ms, s);
    hide WorldInv, Possible, EntriesOk, ValueRefs, KeyRefs;
    if x < |s.b.refs| { assert BlobOk(s.w, s.b, x); }
  }

  /** A blob is freed once: its count stays zero however the run goes on. */
  lemma FreedBlobStays(ms: seq<Move>, s: Stocked, more: seq<Move>, s': Stocked, x: BlobId)
    requires MovesTo(EMPTY, ms, s) && MovesTo(s, more, s') && x < |s.b.refs| && s.b.refs[x] == 0
    ensures x < |s'.b.refs| && s'.b.refs[x] == 0
  {
    EmptyInv();
    MovesKeep(EMPTY, ms, s);
    MovesKeep(s, more, s');
  }

  /** No version holds a freed blob. */
  lemma StoredBlobAlive(ms: seq<Move>, s: Stocked, k: Key, i: nat)
    requires MovesTo(EMPTY, ms, s) && k in s.w.core.lists && i < |s.w.core.lists[k]| && s.w.core.lists[k][i].value.Some?
    ensures var x := s.w.core.lists[k][i].value.value; x < |s.b.refs| && s.b.refs[x] > 0
  {
    EmptyInv();
    MovesKeep(EMPTY, ms, s);
    hide WorldInv, Possible, MovesTo;
    var vs := s.w.core.lists[k];
    var x := vs[i].value.value;
    assert ValuesBelow(vs, |s.b.refs|);
    assert BlobOk(s.w, s.b, x);
    CountValueAtLeast(vs, i);
    ValueListChange(s.w.core.lists, s.w.entries, k, vs, x);
  }

  /** Nor is the key of an entry a freed blob: it is a live one with the entry's key as its content. */
  lemma StoredKeyAlive(ms: seq<Move>, s: Stocked, i: nat)
    requires MovesTo(EMPTY, ms, s) && i < |s.w.entries|
    ensures i < |s.b.keys| && var x := s.b.keys[i];
            x < |s.b.refs| && x < |s.b.content| && s.b.refs[x] > 0 && s.b.content[x] == s.w.entries[i]
  {
    EmptyInv();
    MovesKeep(EMPTY, ms, s);
    hide WorldInv, Possible, MovesTo;
    assert BlobOk(s.w, s.b, s.b.keys[i]);
    KeyRefsAtLeast(s.b.keys, i);
  }

  lemma {:induction false} KeyRefsAtLeast(keys: seq<BlobId>, i: nat)
    requires i < |keys|
    ensures KeyRefs(keys, keys[i]) > 0
  {
    if i < |keys| - 1 { KeyRefsAtLeast(keys[..|keys| - 1], i); }
  }
}
