/** The store as it is laid out in memory: a table of buckets, each a linked list of map entries, the
    transaction manager, and the blob records.  Every operation does to the abstract state what the machine's
    operation does. */
module Stores {
  import opened Types
  import opened Data
  import opened VersionLists
  import opened Protocol
  import opened Invariant
  import opened References
  import opened Waiting
  import opened Machine
  import opened Books
  import opened Ids
  import opened MachineInvariant
  import Serializability
  import opened BlobBooks
  import opened BlobRuns
  import opened BlobPools
  import opened Transactions
  import opened VersionLinks
  import opened Collection
  import opened Installation
  import opened StoreFacts
  import opened Effects

  /** Walking a bucket from `head` on passes through the entries `es`. */
  ghost predicate Chained(head: MapEntry?, es: seq<MapEntry>)
    decreases |es|
  {
    if es == [] then head == null else head == es[0] && Chained(es[0].next, es[1..])
  }

  /** The buckets hold exactly the indexed entries, each in the bucket given by the hash of its key. */
  ghost predicate Bucketed(chains: seq<seq<MapEntry>>, index: map<Key, MapEntry>) {
    && |chains| == NUM_BUCKETS
    && (forall h, e | 0 <= h < NUM_BUCKETS && e in chains[h] ::
          e.key.Content() in index && index[e.key.Content()] == e && e.key.Hashed() && e.key.hash == h)
    && (forall k | k in index :: index[k].key.Content() == k && Hash(k) < NUM_BUCKETS && index[k] in chains[Hash(k)])
  }

  lemma BucketsCount(chains: seq<seq<MapEntry>>, index: map<Key, MapEntry>)
    requires Bucketed(chains, index)
    ensures |chains| == NUM_BUCKETS
  {
  }

  lemma BucketedMore(chains: seq<seq<MapEntry>>, index: map<Key, MapEntry>, e: MapEntry)
    requires Bucketed(chains, index) && e.key.Hashed() && e.key.Content() !in index && e.key.hash < NUM_BUCKETS
    ensures |chains| == NUM_BUCKETS
    ensures Bucketed(chains[e.key.hash := [e] + chains[e.key.hash]], index[e.key.Content() := e])
  {
  }

  lemma ChainedMore(head: MapEntry?, es: seq<MapEntry>, e: MapEntry)
    requires Chained(head, es) && e.next == head
    ensures Chained(e, [e] + es)
  {
    assert ([e] + es)[1..] == es;
  }

  class Store {
    const tm: Manager
    const pool: Pool
    const table: array<MapEntry?>
    ghost var chains: seq<seq<MapEntry>>
    ghost var index: map<Key, MapEntry>
    ghost var s: Stocked

    ghost predicate Table()
      reads this`chains, this`index, table
    {
      && table.Length == NUM_BUCKETS && Bucketed(chains, index)
      && forall h | 0 <= h < NUM_BUCKETS :: Chained(table[h], chains[h])
    }

    // ----- The abstract value

    ghost function Entries(index: map<Key, MapEntry>, skip: Option<Key>): set<MapEntry> {
      set j | j in index && skip != Some(j) :: index[j]
    }

    ghost function Nodes(index: map<Key, MapEntry>, skip: Option<Key>): set<VersionNode>
      reads Entries(index, skip)`nodes
    {
      set j, n | j in index && skip != Some(j) && n in index[j].nodes :: n
    }

    /** The entry holds the version list `vs`. */
    ghost predicate Holds(e: MapEntry, vs: seq<Version>)
      reads tm`all, pool`all, e`versions, e`nodes, e.nodes`next, e.nodes`prev
    {
      e.Linked() && Image(e.nodes) == vs && Creators(tm, pool, e.nodes)
    }

    /** Every entry but the skipped one holds its list. */
    ghost predicate Lists(index: map<Key, MapEntry>, skip: Option<Key>, lists: map<Key, seq<Version>>)
      reads tm`all, pool`all, Entries(index, skip)`versions, Entries(index, skip)`nodes
      reads Nodes(index, skip)`next, Nodes(index, skip)`prev
    {
      && (forall j :: j in index <==> j in lists)
      && forall j | j in index && skip != Some(j) ::
           assert index[j] in Entries(index, skip) && forall n | n in index[j].nodes :: n in Nodes(index, skip);
           Holds(index[j], lists[j])
    }

    ghost predicate ContentsShown(content: seq<Bytes>)
      reads pool`all
    {
      |pool.all| == |content| && forall i | 0 <= i < |pool.all| :: pool.all[i].content == content[i]
    }

    /** The blob records show `b`. */
    ghost predicate BlobsShown(b: Blobs)
      reads pool`all, pool`refs, pool.all`refcnt
    {
      pool.Ok() && pool.refs == b.refs && ContentsShown(b.content)
    }

    /** Each entry has the blob of its key. */
    ghost predicate KeysShown(index: map<Key, MapEntry>, entries: seq<Key>, keys: seq<BlobId>)
      reads pool`all
    {
      && |keys| == |entries|
      && forall i | 0 <= i < |entries| ::
           entries[i] in index && index[entries[i]].key.blob.bid == keys[i] && pool.Has(index[entries[i]].key.blob)
    }

    ghost predicate Valid()
      reads this, table, tm, tm.all, tm.ring, pool, pool.all, Entries(index, None), Nodes(index, None)
    {
      && Table() && Lists(index, None, s.w.core.lists) && tm.Records() && tm.Shows(s.w)
      && BlobsShown(s.b) && KeysShown(index, s.w.entries, s.b.keys)
      && StockInv(s) && Reached(s)
    }

    /** Everything that the store may change. */
    ghost function Repr(): set<object>
      reads this`index, tm`all, pool`all, Entries(index, None)`nodes
    {
      {this, tm, tm.transList, pool, table} + (set t | t in tm.all) + (set b | b in pool.all)
      + Entries(index, None) + Nodes(index, None)
    }

    /** An entry's records belong to no other entry. */
    lemma OwnNodes(k: Key, lists: map<Key, seq<Version>>)
      requires Table() && k in index && index[k].Linked() && Lists(index, Some(k), lists)
      ensures forall j | j in index && j != k :: index[j] != index[k]
      ensures forall j, a, b | j in index && j != k && 0 <= a < |index[j].nodes| && 0 <= b < |index[k].nodes| ::
                index[j].nodes[a] != index[k].nodes[b]
    {
      forall j, a | j in index && j != k && 0 <= a < |index[j].nodes| ensures index[j].nodes[a].owner == index[j] {
        assert Holds(index[j], lists[j]);
      }
    }

    lemma ListsSkip(k: Key, lists: map<Key, seq<Version>>)
      requires Lists(index, None, lists) && k in index
      ensures Lists(index, Some(k), lists) && Holds(index[k], lists[k])
    {
    }

    lemma ListsAll(k: Key, lists: map<Key, seq<Version>>)
      requires Lists(index, Some(k), lists) && k in index && Holds(index[k], lists[k])
      ensures Lists(index, None, lists)
    {
    }

    lemma ListsChange(k: Key, lists: map<Key, seq<Version>>, vs: seq<Version>)
      requires Lists(index, Some(k), lists) && k in index
      ensures Lists(index, Some(k), lists[k := vs])
    {
    }

    /** trans_init and store_init. */
    constructor ()
      ensures Valid() && s == EMPTY && fresh(Repr())
      ensures tm.all == [] && pool.all == []
    {
      hide Repr, Table, Lists, StockInv, Reached, Valid, tm.Known, tm.IdsOk, tm.CountsOk, tm.StatusOk, tm.WaitsOk,
           tm.DepsOk, tm.ListOk, pool.Ok;
      tm := new Manager();
      pool := new Pool();
      table := new MapEntry?[NUM_BUCKETS](i => null);
      chains, index, s := seq(NUM_BUCKETS, i => []), map[], EMPTY;
      new;
      EmptyTable();
      EmptyValid();
    }

    lemma EmptyTable()
      requires table.Length == NUM_BUCKETS == |chains| && index == map[]
      requires forall h | 0 <= h < NUM_BUCKETS :: table[h] == null && chains[h] == []
      requires tm.all == [] && pool.all == []
      ensures Table() && Lists(index, None, map[]) && Repr() == {this, tm, tm.transList, pool, table}
    {
      assert Entries(index, None) == {} && Nodes(index, None) == {};
    }

    lemma EmptyValid()
      requires Table() && Lists(index, None, map[]) && s == EMPTY
      requires tm.Known() && tm.IdsOk() && tm.CountsOk() && tm.StatusOk() && tm.WaitsOk() && tm.DepsOk() && tm.ListOk()
      requires tm.all == [] && pool.Ok() && pool.all == []
      ensures Valid()
    {
      hide Table, Lists, StockInv, Reached;
      ReachedEmpty();
    }

    // ----- The bucket table

    /** traverse_map: finds the entry of a key in its bucket, by comparing keys. */
    method TraverseMap(key: StoredKey) returns (e: MapEntry?)
      requires Table() && key.Hashed()
      ensures e == if key.Content() in index then index[key.Content()] else null
    {
      HashStopsAtZero(key.Content());
      var head := table[key.hash];
      ghost var rest := chains[key.hash];
      while head != null
        invariant Chained(head, rest) && (forall e | e in rest :: e in chains[key.hash])
        invariant key.Content() in index ==> index[key.Content()] in rest
        decreases |rest|
      {
        var r := head.key.Compare(key);
        if r == 0 { return head; }
        head, rest := head.next, rest[1..];
      }
      return null;
    }

    /** add_key: a new entry at the head of the bucket. */
    method AddKey(key: StoredKey) returns (e: MapEntry)
      requires Table() && key.Hashed() && key.Content() !in index
      modifies this`chains, this`index, table
      ensures Table() && fresh(e) && e.key == key && e.nodes == [] && e.Linked()
      ensures index == old(index)[key.Content() := e]
    {
      hide Bucketed, Chained, e.Linked;
      HashStopsAtZero(key.Content());
      BucketsCount(chains, index);
      e := new MapEntry(key, table[key.hash]);
      BucketedMore(chains, index, e);
      ChainedMore(table[key.hash], chains[key.hash], e);
      table[key.hash] := e;
      chains := chains[key.hash := [e] + chains[key.hash]];
      index := index[key.Content() := e];
    }

    lemma EntryNodes(k: Key)
      requires k in index
      ensures index[k] in Entries(index, None) &&
              forall i | 0 <= i < |index[k].nodes| :: index[k].nodes[i] in Nodes(index, None)
    {
      forall i | 0 <= i < |index[k].nodes| ensures index[k].nodes[i] in Nodes(index, None) {
        assert k in index && None != Some(k) && index[k].nodes[i] in index[k].nodes;
      }
    }

    lemma NewHolds(e: MapEntry)
      requires e.nodes == [] && e.Linked()
      ensures Holds(e, [])
    {
    }

    lemma ListsKeys(lists: map<Key, seq<Version>>)
      requires Lists(index, None, lists)
      ensures forall j :: j in index <==> j in lists
    {
    }

    lemma ListsAdd(index: map<Key, MapEntry>, k: Key, e: MapEntry, lists: map<Key, seq<Version>>)
      requires Lists(index, None, lists) && k !in index
      ensures Lists(index[k := e], Some(k), lists[k := []])
    {
    }

    /** Finds the entry of a key, or adds one, which keeps the key; otherwise the key is disposed of. */
    method FindEntry(key: StoredKey, ghost lists: map<Key, seq<Version>>) returns (e: MapEntry)
      requires Table() && Lists(index, None, lists) && key.Hashed()
      requires pool.Ok() && pool.Has(key.blob) && pool.refs[key.blob.bid] > 0
      modifies this`chains, this`index, table, pool`refs, pool.all`refcnt
      ensures Table() && key.Content() in index && e == index[key.Content()]
      ensures Lists(index, Some(key.Content()), lists[key.Content() := Protocol.At(lists, key.Content())])
      ensures Holds(e, Protocol.At(lists, key.Content()))
      ensures if key.Content() in old(index) then index == old(index)
              else fresh(e) && e.key == key && e.nodes == [] && index == old(index)[key.Content() := e]
      ensures pool.Ok()
      ensures pool.refs == if key.Content() in old(index) then UnrefBlob(old(pool.refs), Some(key.blob.bid))
              else old(pool.refs)
      ensures e in old(Entries(index, None)) || fresh(e)
      ensures forall i | 0 <= i < |e.nodes| :: e.nodes[i] in old(Nodes(index, None))
      ensures Entries(index, Some(key.Content())) <= old(Entries(index, None))
      ensures Nodes(index, Some(key.Content())) <= old(Nodes(index, None))
    {
      hide Table, Holds, Entries, Protocol.At, pool.Ok, UnrefBlob, key.Hashed;
      var found := TraverseMap(key);
      if found == null {
        e := NewEntry(key, lists);
      } else {
        e := found;
        OldEntry(key.Content(), lists);
        pool.KeyDispose(key);
        OldEntry(key.Content(), lists);
      }
    }

    method NewEntry(key: StoredKey, ghost lists: map<Key, seq<Version>>) returns (e: MapEntry)
      requires Table() && Lists(index, None, lists) && key.Hashed() && key.Content() !in index
      modifies this`chains, this`index, table
      ensures Table() && index == old(index)[key.Content() := e]
      ensures fresh(e) && e.key == key && e.nodes == []
      ensures Lists(index, Some(key.Content()), lists[key.Content() := Protocol.At(lists, key.Content())])
      ensures Holds(e, Protocol.At(lists, key.Content()))
      ensures Entries(index, Some(key.Content())) <= old(Entries(index, None))
      ensures Nodes(index, Some(key.Content())) <= old(Nodes(index, None))
    {
      hide Table, Holds, key.Hashed;
      ListsKeys(lists);
      e := AddKey(key);
      ListsAdd(old(index), key.Content(), e, lists);
      NewHolds(e);
    }

    lemma OldEntry(k: Key, lists: map<Key, seq<Version>>)
      requires Lists(index, None, lists) && k in index
      ensures Lists(index, Some(k), lists[k := Protocol.At(lists, k)]) && Holds(index[k], Protocol.At(lists, k))
      ensures index[k] in Entries(index, None)
      ensures forall i | 0 <= i < |index[k].nodes| :: index[k].nodes[i] in Nodes(index, None)
      ensures Entries(index, Some(k)) <= Entries(index, None) && Nodes(index, Some(k)) <= Nodes(index, None)
    {
      hide Holds;
      ListsSkip(k, lists);
      EntryNodes(k);
      assert lists[k := lists[k]] == lists;
    }


    // ----- Collection

    /** The memory shows the world `v`, but for the list of `k`, which `e` holds. */
    ghost predicate Shows(v: World, k: Key, e: MapEntry)
      reads this`chains, this`index, table, tm, tm.all, tm.ring, pool`all, e`versions, e`nodes, e.nodes`next,
          e.nodes`prev
      reads Entries(index, Some(k))`versions, Entries(index, Some(k))`nodes
      reads Nodes(index, Some(k))`next, Nodes(index, Some(k))`prev
    {
      && Table() && k in index && index[k] == e && Lists(index, Some(k), v.core.lists)
      && Holds(e, Protocol.At(v.core.lists, k)) && tm.Records() && tm.Shows(v)
    }

    lemma CollectFacts(e: MapEntry, k: Key, v: World)
      requires WorldInv(v) && tm.Records() && tm.Shows(v) && Holds(e, Protocol.At(v.core.lists, k))
      requires pool.Ok() && Worth(pool.refs, Protocol.At(v.core.lists, k))
      ensures e.Linked() && Creators(tm, pool, e.nodes) && Image(e.nodes) == Protocol.At(v.core.lists, k)
      ensures Steady(tm, pool, Others(v), v.handles) && Enough(Others(v), pool.refs, Image(e.nodes), v.handles)
      ensures CreatorsBelow(Image(e.nodes), |tm.status|) && CommittedFirst(Image(e.nodes), tm.status)
      ensures tm.IdsOk() && tm.ids == v.ids && tm.deps == v.core.deps && tm.status == v.core.status
      ensures LedgerOf(tm, pool) == Ledger(v.counts, v.core.status, v.waits, pool.refs)
    {
      WorldSteady(v, k);
      EnoughForAll(Others(v), pool.refs, Protocol.At(v.core.lists, k), v.handles);
      hide WorldInv, e.Linked, Enough, CommittedFirst, Graph, AllHeard, Apiece, Worth;
    }

    lemma CollectShown(e: MapEntry, k: Key, v: World, lists: map<Key, seq<Version>>, b: Ledger, left: seq<nat>)
      requires WorldInv(v) && Table() && k in index && index[k] == e && Lists(index, Some(k), lists)
      requires lists == v.core.lists[k := Protocol.At(v.core.lists, k)]
      requires b.counts == v.counts && b.status == v.core.status && b.waits == v.waits
      requires tm.IdsOk() && tm.ids == v.ids && tm.deps == v.core.deps && Steady(tm, pool, left, v.handles) &&
               Creators(tm, pool, e.nodes) && e.Linked()
      requires Fit(b, tm.deps, lists[k]) && LedgerOf(tm, pool) == AfterPass(b, tm.deps, lists[k])
      requires Image(e.nodes) == Collected(lists[k], b.status)
      ensures Shows(GarbageCollect(v, k), k, e) && pool.Ok()
      ensures var vs, st := lists[k], b.status;
              && ValuesBelow(Outdated(vs, st), |b.refs|) && ValuesBelow(Doomed(vs, st), |b.refs|)
              && pool.refs == DropValues(DropValues(b.refs, Outdated(vs, st)), Doomed(vs, st))
    {
      hide e.Linked, Table, Creators, Collected, Outdated, Doomed, Inv, WaitInv, BooksOk, IdOrder, tm.CountsOk,
           tm.IdsOk, tm.DepsOk, tm.StatusOk, tm.WaitsOk, Graph, AllHeard, DropValues, pool.Ok;
      PartsFit(b, tm.deps, lists[k]);
      ListsChange(k, lists, GarbageCollect(v, k).core.lists[k]);
      assert lists[k := GarbageCollect(v, k).core.lists[k]] == GarbageCollect(v, k).core.lists;
    }

    /** garbage_collection, for the entry of a key. */
    method Collect(e: MapEntry, ghost k: Key, ghost v: World)
      requires WorldInv(v) && Table() && k in index && index[k] == e && tm.Records() && tm.Shows(v)
      requires Lists(index, Some(k), v.core.lists[k := Protocol.At(v.core.lists, k)])
      requires Holds(e, Protocol.At(v.core.lists, k)) && pool.Ok() && Worth(pool.refs, Protocol.At(v.core.lists, k))
      modifies tm`status, tm`waits, tm.all`status, tm.all`waitcnt, tm.all`sem
      modifies tm`counts, tm`ring, tm.all`refcnt, tm.all`next, tm.all`prev, tm.transList`next, tm.transList`prev
      modifies e`versions, e`nodes, e.nodes`next, e.nodes`prev, pool`refs, pool.all`refcnt
      ensures Shows(GarbageCollect(v, k), k, e) && pool.Ok()
      ensures var vs, st, refs := Protocol.At(v.core.lists, k), v.core.status, old(pool.refs);
              && CreatorsBelow(vs, |st|) && ValuesBelow(Outdated(vs, st), |refs|) && ValuesBelow(Doomed(vs, st), |refs|)
              && pool.refs == DropValues(DropValues(refs, Outdated(vs, st)), Doomed(vs, st))
      ensures forall i | 0 <= i < |e.nodes| :: e.nodes[i] in old(e.nodes)
      ensures Nodes(index, Some(k)) == old(Nodes(index, Some(k)))
    {
      hide Nodes, Entries, Table, Lists, WorldInv, GarbageCollect, Steady, Enough, AfterPass, Collected, Creators,
           Fit, LedgerOf, CommittedFirst, CreatorsBelow, Image, Others, e.Linked, Holds, tm.Records, tm.Shows,
           pool.Ok, Worth, Outdated, Doomed, DropValues, ValuesBelow;
      ghost var ns, b, lists := e.nodes, LedgerOf(tm, pool), v.core.lists[k := Protocol.At(v.core.lists, k)];
      CollectFacts(e, k, v);
      ghost var left := CollectList(e, k, lists, Others(v), v.handles);
      CreatorsAmong(tm, pool, ns, e.nodes);
      CollectShown(e, k, v, lists, b, left);
    }

    method CollectList(e: MapEntry, ghost k: Key, ghost lists: map<Key, seq<Version>>, ghost others: seq<nat>,
                       ghost held: seq<nat>)
      returns (ghost left: seq<nat>)
      requires Table() && k in index && index[k] == e && Lists(index, Some(k), lists)
      requires e.Linked() && Creators(tm, pool, e.nodes) && Steady(tm, pool, others, held)
      requires Enough(others, pool.refs, Image(e.nodes), held)
      requires CreatorsBelow(Image(e.nodes), |tm.status|) && CommittedFirst(Image(e.nodes), tm.status)
      modifies tm`status, tm`waits, tm.all`status, tm.all`waitcnt, tm.all`sem
      modifies tm`counts, tm`ring, tm.all`refcnt, tm.all`next, tm.all`prev, tm.transList`next, tm.transList`prev
      modifies e`versions, e`nodes, e.nodes`next, e.nodes`prev, pool`refs, pool.all`refcnt
      ensures Lists(index, Some(k), lists)
      ensures e.Linked() && Image(e.nodes) == Collected(Image(old(e.nodes)), old(tm.status))
      ensures Steady(tm, pool, left, held)
      ensures Fit(old(LedgerOf(tm, pool)), tm.deps, Image(old(e.nodes)))
      ensures LedgerOf(tm, pool) == AfterPass(old(LedgerOf(tm, pool)), tm.deps, Image(old(e.nodes)))
      ensures forall n | n in e.nodes :: n in old(e.nodes)
      ensures Nodes(index, Some(k)) == old(Nodes(index, Some(k)))
    {
      hide Table, Holds, e.Linked, Steady, Enough, AfterPass, Collected, Creators, Image, CreatorsBelow,
           CommittedFirst, Fit;
      OwnNodes(k, lists);
      left := GarbageCollection(tm, pool, e, others, held);
    }

    // ----- Installation

    lemma InstallFacts(e: MapEntry, tp: Transaction, k: Key, v: World)
      requires WorldInv(v) && Shows(v, k, e) && tm.Has(tp) && v.handles[tp.name] > 0
      requires pool.Ok() && Worth(pool.refs, Protocol.At(v.core.lists, k))
      ensures e.Linked() && Creators(tm, pool, e.nodes) && Image(e.nodes) == Protocol.At(v.core.lists, k)
      ensures IdsKnown(tm, e.nodes)
      ensures tm.ids == v.ids && tm.counts == v.counts && tm.deps == v.core.deps && tm.status == v.core.status
      ensures tm.waits == v.waits
      ensures WorldWf(v) && DepsBelow(tm.deps) && |tm.ids| == |tm.counts| == |tm.all| == |tm.status| == |tm.deps|
      ensures tp.id == tm.ids[tp.name] && tm.counts[tp.name] > 0
      ensures tm.Known() && tm.IdsOk() && tm.DepsOk() && tm.StatusOk() && tm.WaitsOk()
      ensures CreatorsBelow(Image(e.nodes), |tm.ids|)
      ensures Steady(tm, pool, Others(v), v.handles) && Enough(Others(v), pool.refs, Image(e.nodes), v.handles)
      ensures Table() && Lists(index, Some(k), v.core.lists) && k in index && index[k] == e && k in v.core.lists
    {
      hide Inv, WaitInv, IdOrder, e.Linked, Enough, Graph, AllHeard, Table, Apiece, Worth;
      WorldSteady(v, k);
      EnoughForAll(Others(v), pool.refs, Protocol.At(v.core.lists, k), v.handles);
      HandleIsLive(v, tp.name);
    }

    /** The new version, and the dependencies on the creators of the pending versions before it. */
    method InstallOn(e: MapEntry, tp: Transaction, ghost k: Key, blob: Blob?, ghost act: Action, ghost v: World)
      requires WorldInv(v) && Shows(v, k, e) && tm.Has(tp) && v.handles[tp.name] > 0
      requires k in v.core.lists && AdmitsId(v.core.lists[k], v.ids, tp.name)
      requires pool.Ok() && Worth(pool.refs, v.core.lists[k]) && pool.Has(blob) && act.value == Val(blob)
      modifies tm`deps, tm.all`depends
      modifies tm`counts, tm`ring, tm.all`refcnt, tm.all`next, tm.all`prev, tm.transList`next, tm.transList`prev
      modifies e`versions, e`nodes, e.nodes`next, pool`refs, pool.all`refcnt
      ensures Shows(InstallVersion(v, tp.name, k, act), k, e) && pool.Ok()
      ensures var vs := v.core.lists[k];
              && ValuesBelow(vs, |old(pool.refs)|)
              && pool.refs == ReplacedBlobs(old(pool.refs), vs, InstallId(vs, v.ids, Version(tp.name, act.value)))
      ensures forall n | n in e.nodes :: n in old(e.nodes) || fresh(n)
      ensures Nodes(index, Some(k)) == old(Nodes(index, Some(k)))
    {
      hide Nodes, Entries, Table, Lists, WorldInv, Shows, InstallVersion, InstallId, CountsWith, Steady, Enough,
           Creators, IdsKnown, Leads, Live, Image, CreatorsBelow, Others, e.Linked, Holds, tm.Records, AdmitsId,
           ValuesBelow, ReplacedBlobs, tm.Known, tm.IdsOk, tm.CountsOk, tm.ListOk, tm.DepsOk, tm.StatusOk, tm.WaitsOk,
           DepsBelow, Worth, pool.Ok;
      InstallFacts(e, tp, k, v);
      InstallLeads(v, tp.name, k, act);
      AddTo(e, tp, k, blob, v.core.lists, Others(v), v.handles);
      DependOn(e, tp, k, v.core.lists, InstallVersion(v, tp.name, k, act));
      InstallShown(e, tp, k, act, v);
    }

    method AddTo(e: MapEntry, tp: Transaction, ghost k: Key, blob: Blob?, ghost lists: map<Key, seq<Version>>,
                 ghost others: seq<nat>, ghost held: seq<nat>)
      requires Table() && k in index && index[k] == e && Lists(index, Some(k), lists)
      requires e.Linked() && Creators(tm, pool, e.nodes) && IdsKnown(tm, e.nodes)
      requires tp.name < |tm.ids| && tp.id == tm.ids[tp.name]
      requires tm.Has(tp) && pool.Has(blob) && Steady(tm, pool, others, held)
      requires Enough(others, pool.refs, Image(e.nodes), held)
      requires tp.name < |tm.counts| && tm.counts[tp.name] > 0 && CreatorsBelow(Image(e.nodes), |tm.ids|)
      modifies tm`counts, tm`ring, tm.all`refcnt, tm.all`next, tm.all`prev, tm.transList`next, tm.transList`prev
      modifies e`versions, e`nodes, e.nodes`next, pool`refs, pool.all`refcnt
      ensures Lists(index, Some(k), lists)
      ensures e.Linked() && Creators(tm, pool, e.nodes) && tm.CountsOk() && tm.ListOk() && pool.Ok()
      ensures Image(e.nodes) == InstallId(Image(old(e.nodes)), tm.ids, Version(tp.name, Val(blob)))
      ensures DepsBelow(tm.deps) && |tm.deps| == |old(tm.counts)| && CreatorsBelow(Image(old(e.nodes)), |tm.deps|)
      ensures tm.counts == CountsWith(old(tm.counts), tm.deps, Image(old(e.nodes)), Image(e.nodes), tp.name)
      ensures ValuesBelow(Image(old(e.nodes)), |old(pool.refs)|)
      ensures pool.refs == ReplacedBlobs(old(pool.refs), Image(old(e.nodes)), Image(e.nodes))
      ensures forall n | n in e.nodes :: n in old(e.nodes) || fresh(n)
      ensures Nodes(index, Some(k)) == old(Nodes(index, Some(k)))
    {
      hide Table, Holds, e.Linked, Steady, Enough, Creators, IdsKnown, InstallId, CountsWith, Image, CreatorsBelow,
           ReplacedBlobs, ValuesBelow;
      OwnNodes(k, lists);
      AddVersion(tm, pool, e, tp, blob, others, held);
    }

    method DependOn(e: MapEntry, tp: Transaction, ghost k: Key, ghost lists: map<Key, seq<Version>>, ghost goal: World)
      requires Lists(index, Some(k), lists) && e.Linked()
      requires tm.Known() && tm.Has(tp) && tm.DepsOk() && tm.CountsOk() && tm.ListOk() && tm.StatusOk()
      requires Creators(tm, pool, e.nodes) && Live(Image(e.nodes), tm.counts)
      requires Leads(tm.counts, tm.deps, Image(e.nodes), tp.name, tm.status, goal.counts, goal.core.deps)
      modifies tm`counts, tm`deps, tp`depends, tm.all`refcnt
      ensures Lists(index, Some(k), lists)
      ensures tm.DepsOk() && tm.CountsOk() && tm.ListOk()
      ensures tm.counts == goal.counts && tm.deps == goal.core.deps
      ensures Nodes(index, Some(k)) == old(Nodes(index, Some(k)))
    {
      hide Holds, e.Linked, tm.Known, tm.DepsOk, tm.CountsOk, tm.ListOk, tm.StatusOk, Creators, Live, Leads, Follow;
      EntryFollows(e);
      AddEarlierDependencyList(tm, pool, e.versions, tp, e.nodes, goal.counts, goal.core.deps);
    }

    lemma EntryFollows(e: MapEntry)
      requires e.Linked()
      ensures Follow(e.versions, e.nodes)
    {
    }

    lemma InstallShown(e: MapEntry, tp: Transaction, k: Key, act: Action, v: World)
      requires WorldInv(v) && Table() && k in index && index[k] == e && Lists(index, Some(k), v.core.lists)
      requires k in v.core.lists && tm.Has(tp) && tp.name < |v.ids|
      requires tm.Known() && tm.IdsOk() && tm.DepsOk() && tm.StatusOk() && tm.WaitsOk() && tm.CountsOk() && tm.ListOk()
      requires tm.ids == v.ids && tm.status == v.core.status && tm.waits == v.waits
      requires tm.counts == InstallVersion(v, tp.name, k, act).counts
      requires tm.deps == InstallVersion(v, tp.name, k, act).core.deps
      requires e.Linked() && Creators(tm, pool, e.nodes)
      requires Image(e.nodes) == InstallId(v.core.lists[k], v.ids, Version(tp.name, act.value))
      ensures Shows(InstallVersion(v, tp.name, k, act), k, e)
    {
      hide Table, e.Linked, Creators, InstallId, Inv, WaitInv, BooksOk, IdOrder, RefDependencies, AddDependencies,
           Unref;
      ListsChange(k, v.core.lists, InstallVersion(v, tp.name, k, act).core.lists[k]);
    }

    // ----- Rejection

    /** What the invariant says about a transaction that a caller holds. */
    lemma HandleFacts(tp: Transaction, v: World)
      requires WorldInv(v) && tm.Records() && tm.Shows(v) && tm.Has(tp) && v.handles[tp.name] > 0
      ensures tm.Sound(Others(v)) && tp.name < |Others(v)| && Others(v)[tp.name] > 0 && tm.StatusOk() &&
              tm.WaitsOk() && tm.IdsOk()
      ensures tm.counts == v.counts && tm.deps == v.core.deps && tm.status == v.core.status &&
              tm.waits == v.waits && tm.ids == v.ids
      ensures WorldWf(v) && DepsBelow(tm.deps) &&
              |tm.deps| == |tm.counts| == |tm.status| == |tm.all| == |tm.waits.phase|
      ensures Heard(tp.name, tm.waits.waitcnt, tm.deps, v.handles) && Covers(Others(v), v.handles)
      ensures tm.Known() && tm.CountsOk() && tm.ListOk() && tm.DepsOk() && tm.counts[tp.name] > 0
    {
      hide Inv, WaitInv, BooksOk, IdOrder, Covers, Heard, Graph;
      HeardAll(v, tp.name);
      HeldIsLive(v, tp.name);
    }

    /** The transaction is too old for the key: it is aborted. */
    method Reject(e: MapEntry, tp: Transaction, ghost k: Key, ghost v: World) returns (r: Status)
      requires WorldInv(v) && Shows(v, k, e) && tm.Has(tp) && v.handles[tp.name] > 0 &&
               v.core.status[tp.name] != Committed
      modifies tm`status, tm`waits, tm.all`status, tm.all`waitcnt, tm.all`sem
      modifies tm`counts, tm`ring, tm.all`refcnt, tm.all`next, tm.all`prev, tm.transList`next, tm.transList`prev
      ensures Shows(Rejected(v, tp.name), k, e) && r == Aborted
      ensures Nodes(index, Some(k)) == old(Nodes(index, Some(k)))
    {
      hide WorldInv, Table, Holds, tm.Records, tm.Shows, Rejected;
      r := BareReject(tp, v);
    }

    method BareReject(tp: Transaction, ghost v: World) returns (r: Status)
      requires WorldInv(v) && tm.Records() && tm.Shows(v) && tm.Has(tp)
      requires v.handles[tp.name] > 0 && v.core.status[tp.name] != Committed
      modifies tm`status, tm`waits, tm.all`status, tm.all`waitcnt, tm.all`sem
      modifies tm`counts, tm`ring, tm.all`refcnt, tm.all`next, tm.all`prev, tm.transList`next, tm.transList`prev
      ensures tm.Records() && tm.Shows(Rejected(v, tp.name)) && r == Aborted
      ensures Rejected(v, tp.name).core.lists == v.core.lists
    {
      hide WorldInv, Others, Covers, Heard, Unref, Wake, DepsBelow, tm.Sound, tm.StatusOk, tm.WaitsOk, tm.IdsOk,
           tm.Records, tm.Known, tm.CountsOk, tm.ListOk, tm.DepsOk;
      HandleFacts(tp, v);
      var done := tm.TransAbort(tp, Others(v), v.handles);
      RecordsAgain(Others(v)[tp.name := Others(v)[tp.name] - 1]);
      r := done.value;
    }

    /** The reference on a value that found no version is dropped. */
    method GiveBack(e: MapEntry, value: Blob?, ghost k: Key, ghost v: World)
      requires Shows(v, k, e) && pool.Ok() && pool.Has(value) && (value != null ==> pool.refs[value.bid] > 0)
      modifies pool`refs, pool.all`refcnt
      ensures Shows(v, k, e) && pool.Ok() && pool.refs == UnrefBlob(old(pool.refs), Val(value))
      ensures Nodes(index, Some(k)) == old(Nodes(index, Some(k)))
    {
      hide Table, Holds, tm.Records, tm.Shows, pool.Ok, UnrefBlob;
      pool.BlobUnref(value);
    }

    /** The new version's reference to the value that GET found, or the caller's. */
    method TakeValue(e: MapEntry, value: Blob?, ghost k: Key, ghost v: World)
      requires Shows(v, k, e) && pool.Ok() && pool.Has(value)
      modifies pool`refs, pool.all`refcnt
      ensures Shows(v, k, e) && pool.Ok() && pool.refs == RefBlob(old(pool.refs), Val(value))
      ensures Nodes(index, Some(k)) == old(Nodes(index, Some(k)))
    {
      hide Table, Holds, tm.Records, tm.Shows, pool.Ok, RefBlob;
      pool.BlobRef(value);
    }

    lemma RecordsAgain(others: seq<nat>)
      requires tm.Sound(others) && tm.StatusOk() && tm.WaitsOk() && tm.IdsOk()
      ensures tm.Records()
    {
    }

    // ----- PUT and GET

    lemma OwnEntry(k: Key)
      requires Table() && k in index
      ensures index[k] !in Entries(index, Some(k)) && Entries(index, None) == Entries(index, Some(k)) + {index[k]}
      ensures forall n :: n in Nodes(index, None) <==> n in Nodes(index, Some(k)) || n in index[k].nodes
    {
    }

    lemma Settle(k: Key, e: MapEntry, t: Stocked)
      requires Shows(t.w, k, e) && BlobsShown(t.b) && KeysShown(index, t.w.entries, t.b.keys)
      requires StockInv(t) && Reached(t) && s == t
      ensures Valid()
    {
      hide Table, Holds, tm.Records, tm.Shows, StockInv, Reached, BlobsShown, KeysShown;
      ListsAll(k, t.w.core.lists);
    }

    lemma ValidParts()
      requires Valid()
      ensures Table() && Lists(index, None, s.w.core.lists) && tm.Records() && tm.Shows(s.w)
      ensures BlobsShown(s.b) && KeysShown(index, s.w.entries, s.b.keys) && pool.Ok()
      ensures WorldWf(s.w) && WorldInv(s.w) && Possible(s.w) && BlobInv(s.w, s.b) && StockInv(s) && Reached(s)
    {
      hide Table, Lists, tm.Records, tm.Shows, Possible, WorldInv, BlobInv, KeysShown, Reached;
      PossibleWf(s.w);
    }

    /** What the blob records say of a blob that a caller holds. */
    lemma BlobFacts(bp: Blob)
      requires BlobsShown(s.b) && pool.Has(bp) && BlobInv(s.w, s.b)
      ensures bp.bid < |s.b.content| == |s.b.refs| == |pool.refs| && s.b.content[bp.bid] == bp.content
      ensures pool.refs == s.b.refs
    {
      hide EntriesOk, Wf;
    }

    lemma KeysAfter(before: map<Key, MapEntry>, key: StoredKey)
      requires KeysShown(before, s.w.entries, s.b.keys) && pool.Has(key.blob) && WorldInv(s.w) && BlobInv(s.w, s.b)
      requires Held(s.b, key.blob.bid) && s.b.content[key.blob.bid] == key.Content()
      requires key.Content() in s.w.core.lists <==> key.Content() in before
      requires if key.Content() in before then index == before
               else
                 key.Content() in index && index == before[key.Content() := index[key.Content()]] &&
                 index[key.Content()].key == key
      ensures KeysShown(index, GarbageCollect(s.w, key.Content()).entries, Begun(s.w, s.b, key.blob.bid).keys)
    {
      hide Outdated, Doomed, WorldInv, BlobInv, Worth, ValuesBelow, GarbageCollect, Begun;
      BegunParts(s.w, s.b, key.blob.bid);
    }

    /** The common beginning: the entry is found or added, its list collected, and the id compared. */
    method Begin(tp: Transaction, key: StoredKey) returns (e: MapEntry, ok: bool)
      requires Valid() && tm.Has(tp) && tp.name < |s.w.handles| && s.w.handles[tp.name] > 0
      requires pool.Has(key.blob) && key.Hashed() && Held(s.b, key.blob.bid)
      modifies this`chains, this`index, table
      modifies tm`status, tm`waits, tm.all`status, tm.all`waitcnt, tm.all`sem
      modifies tm`counts, tm`ring, tm.all`refcnt, tm.all`next, tm.all`prev, tm.transList`next, tm.transList`prev
      modifies Entries(index, None)`versions, Entries(index, None)`nodes, Nodes(index, None)`next,
          Nodes(index, None)`prev
      modifies pool`refs, pool.all`refcnt
      ensures WorldInv(s.w) && BlobInv(s.w, s.b) && Shows(GarbageCollect(s.w, key.Content()), key.Content(), e)
      ensures var c := GarbageCollect(s.w, key.Content());
              && WorldInv(c) && key.Content() in c.core.lists
              && (ok <==> AdmitsId(c.core.lists[key.Content()], c.ids, tp.name))
              && KeysShown(index, c.entries, Begun(s.w, s.b, key.blob.bid).keys)
      ensures ok <==> forall i | 0 <= i < |e.nodes| :: e.nodes[i].creator.id <= tp.id
      ensures pool.Ok() && pool.refs == Begun(s.w, s.b, key.blob.bid).refs
      ensures Grown(old(Entries(index, None)), old(Nodes(index, None)), key.Content(), e)
    {
      hide Table, Lists, Holds, tm.Records, WorldInv, BlobInv, Shows, GarbageCollect, AdmitsId, Possible, Entries,
           Nodes, KeysShown, BlobsShown, StockInv, Reached, pool.Ok, Begun, Valid;
      BeginFacts(key.blob);
      e := Prepare(key);
      ok := Check(e, tp, key.Content(), s.w);
    }

    lemma BeginFacts(bp: Blob)
      requires Valid() && pool.Has(bp) && Held(s.b, bp.bid)
      ensures WorldInv(s.w) && BlobInv(s.w, s.b) && WorldWf(s.w) && s.b.content[bp.bid] == bp.content
      ensures WorldInv(GarbageCollect(s.w, bp.content)) && GarbageCollect(s.w, bp.content).handles == s.w.handles
      ensures bp.content in GarbageCollect(s.w, bp.content).core.lists
    {
      hide Table, Lists, tm.Records, tm.Shows, WorldInv, BlobInv, GarbageCollect, Reached, Possible, Begun;
      ValidParts();
      BlobFacts(bp);
      BegunKeeps(s.w, s.b, bp.bid);
    }

    /** What may have been added to the store: the entry `e` of `k`, and version records of its list. */
    twostate predicate Grown(entries: set<MapEntry>, nodes: set<VersionNode>, k: Key, new e: MapEntry)
      reads this`index, e`nodes, Entries(index, Some(k))`nodes
    {
      && (e in entries || fresh(e))
      && (forall i | 0 <= i < |e.nodes| :: e.nodes[i] in nodes || fresh(e.nodes[i]))
      && Entries(index, Some(k)) <= entries && Nodes(index, Some(k)) <= nodes
    }

    method Prepare(key: StoredKey) returns (e: MapEntry)
      requires Valid() && pool.Has(key.blob) && key.Hashed() && Held(s.b, key.blob.bid)
      modifies this`chains, this`index, table
      modifies tm`status, tm`waits, tm.all`status, tm.all`waitcnt, tm.all`sem
      modifies tm`counts, tm`ring, tm.all`refcnt, tm.all`next, tm.all`prev, tm.transList`next, tm.transList`prev
      modifies Entries(index, None)`versions, Entries(index, None)`nodes, Nodes(index, None)`next,
          Nodes(index, None)`prev
      modifies pool`refs, pool.all`refcnt
      ensures WorldInv(s.w) && BlobInv(s.w, s.b) && Shows(GarbageCollect(s.w, key.Content()), key.Content(), e)
      ensures KeysShown(index, GarbageCollect(s.w, key.Content()).entries, Begun(s.w, s.b, key.blob.bid).keys)
      ensures pool.Ok() && pool.refs == Begun(s.w, s.b, key.blob.bid).refs
      ensures Grown(old(Entries(index, None)), old(Nodes(index, None)), key.Content(), e)
    {
      hide Table, Lists, Holds, tm.Records, WorldInv, BlobInv, Shows, GarbageCollect, AdmitsId, Possible, Entries,
           Nodes, KeysShown, BlobsShown, StockInv, Reached, pool.Ok, Begun, Worth, ValuesBelow, DropValues, Outdated,
           Doomed, UnrefBlob;
      ValidParts();
      BlobFacts(key.blob);
      BegunParts(s.w, s.b, key.blob.bid);
      ListsKeys(s.w.core.lists);
      ghost var before, k := index, key.Content();
      e := FindEntry(key, s.w.core.lists);
      KeysAfter(before, key);
      OwnEntry(k);
      Collect(e, k, s.w);
    }

    method Check(e: MapEntry, tp: Transaction, ghost k: Key, ghost v: World) returns (ok: bool)
      requires WorldInv(v) && WorldInv(GarbageCollect(v, k)) && Shows(GarbageCollect(v, k), k, e) && tm.Has(tp)
      requires tp.name < |v.handles| && v.handles[tp.name] > 0 && pool.Ok()
      ensures Shows(GarbageCollect(v, k), k, e)
      ensures var c := GarbageCollect(v, k); k in c.core.lists && (ok <==> AdmitsId(c.core.lists[k], c.ids, tp.name))
      ensures ok <==> forall i | 0 <= i < |e.nodes| :: e.nodes[i].creator.id <= tp.id
      ensures Nodes(index, Some(k)) == old(Nodes(index, Some(k)))
    {
      hide Table, Holds, tm.Records, WorldInv, GarbageCollect, IdsKnown, AdmitsId, e.Linked, pool.Ok;
      CheckFacts(e, tp, k, v);
      ok := CheckTransidGreater(tm, e, tp);
    }

    lemma CheckFacts(e: MapEntry, tp: Transaction, k: Key, v: World)
      requires WorldInv(v) && WorldInv(GarbageCollect(v, k)) && Shows(GarbageCollect(v, k), k, e) && tm.Has(tp)
      requires tp.name < |v.handles| && v.handles[tp.name] > 0
      ensures var c := GarbageCollect(v, k);
              && e.Linked() && IdsKnown(tm, e.nodes) && tp.name < |tm.ids| && tp.id == tm.ids[tp.name] &&
                   tm.ids == c.ids
              && k in c.core.lists && Image(e.nodes) == c.core.lists[k]
    {
      hide GarbageCollect, Table, Lists, e.Linked, Inv, WaitInv, BooksOk, IdOrder, Wf;
      GarbageCollectWf(v, k);
      SameIds(v, k);
    }

    lemma SameIds(v: World, k: Key)
      requires WorldWf(v)
      ensures GarbageCollect(v, k).ids == v.ids
    {
    }

    method Admit(e: MapEntry, tp: Transaction, ghost k: Key, blob: Blob?, ghost act: Action, ghost v: World)
      returns (r: Status)
      requires WorldInv(v) && Shows(v, k, e) && tm.Has(tp) && v.handles[tp.name] > 0
      requires k in v.core.lists && AdmitsId(v.core.lists[k], v.ids, tp.name)
      requires pool.Ok() && Worth(pool.refs, v.core.lists[k]) && pool.Has(blob) && act.value == Val(blob)
      modifies tm`deps, tm.all`depends
      modifies tm`counts, tm`ring, tm.all`refcnt, tm.all`next, tm.all`prev, tm.transList`next, tm.transList`prev
      modifies e`versions, e`nodes, e.nodes`next, pool`refs, pool.all`refcnt
      ensures Shows(InstallVersion(v, tp.name, k, act), k, e) && pool.Ok() && r == v.core.status[tp.name]
      ensures var vs := v.core.lists[k];
              && ValuesBelow(vs, |old(pool.refs)|)
              && pool.refs == ReplacedBlobs(old(pool.refs), vs, InstallId(vs, v.ids, Version(tp.name, act.value)))
      ensures forall i | 0 <= i < |e.nodes| :: e.nodes[i] in old(e.nodes) || fresh(e.nodes[i])
      ensures Nodes(index, Some(k)) == old(Nodes(index, Some(k)))
    {
      hide Nodes, Entries, Table, Lists, WorldInv, Shows, AdmitsId, InstallVersion, InstallId, Worth, ValuesBelow,
           ReplacedBlobs, pool.Ok;
      AdmitFacts(e, tp, k, act, v);
      InstallOn(e, tp, k, blob, act, v);
      r := StatusOf(e, tp, k, InstallVersion(v, tp.name, k, act));
    }

    lemma AdmitFacts(e: MapEntry, tp: Transaction, k: Key, act: Action, v: World)
      requires WorldInv(v) && Shows(v, k, e) && tm.Has(tp) && v.handles[tp.name] > 0
      ensures WorldWf(v) && tp.name < |v.core.status| && InstallVersion(v, tp.name, k, act).core.status == v.core.status
    {
      hide Table, Lists, Holds, Inv, WaitInv, BooksOk, IdOrder, Wf, InstallId, RefDependencies, AddDependencies,
           Unref;
    }

    method StatusOf(e: MapEntry, tp: Transaction, ghost k: Key, ghost v: World) returns (r: Status)
      requires Shows(v, k, e) && tm.Has(tp)
      ensures Shows(v, k, e) && tp.name < |v.core.status| && r == v.core.status[tp.name]
      ensures Nodes(index, Some(k)) == old(Nodes(index, Some(k)))
    {
      hide Table, Holds, e.Linked, tm.Known, tm.IdsOk, tm.CountsOk, tm.ListOk, tm.DepsOk, tm.WaitsOk;
      r := tm.TransGetStatus(tp);
    }

    lemma KeyContent(key: StoredKey)
      requires Valid() && pool.Has(key.blob)
      ensures key.blob.bid < |s.b.content| && s.b.content[key.blob.bid] == key.Content()
    {
      hide Table, Lists, tm.Records, tm.Shows, KeysShown, StockInv, Reached;
    }

    /** The last version record of `k` is one of `tp`, with that value. */
    ghost predicate Newest(k: Key, tp: Transaction, value: Blob?)
      reads this`index, if k in index then {index[k]} else {}
    {
      && k in index && index[k].nodes != []
      && var last := index[k].nodes[|index[k].nodes| - 1]; last.creator == tp && last.blob == value
    }

    lemma NewestIs(k: Key, tp: Transaction, value: Blob?)
      requires Valid() && tm.Has(tp) && pool.Has(value)
      ensures LastIs(s.w.core.lists, k, Version(tp.name, Val(value))) ==> Newest(k, tp, value)
    {
      hide Table, Holds, tm.Records, tm.Shows, BlobsShown, KeysShown, StockInv, Reached;
      if LastIs(s.w.core.lists, k, Version(tp.name, Val(value))) {
        ListsKeys(s.w.core.lists);
        ListsSkip(k, s.w.core.lists);
        LastRecord(index[k], s.w.core.lists[k], tp, value);
      }
    }

    lemma LastRecord(e: MapEntry, vs: seq<Version>, tp: Transaction, value: Blob?)
      requires Holds(e, vs) && tm.Has(tp) && pool.Has(value)
      requires vs != [] && vs[|vs| - 1] == Version(tp.name, Val(value))
      ensures e.nodes != [] && e.nodes[|e.nodes| - 1].creator == tp && e.nodes[|e.nodes| - 1].blob == value
    {
      hide MapEntry.Linked;
    }

    /** store_put: a rejected operation gives the reference on the value back. */
    method StorePut(tp: Transaction, key: StoredKey, value: Blob?) returns (r: Status)
      requires Valid() && tm.Has(tp) && key.Hashed() && pool.Has(key.blob) && pool.Has(value)
      requires MayMove(s, PutBlob(tp.name, key.blob.bid, Val(value)))
      modifies this`s, this`chains, this`index, table, tm`deps, tm.all`depends
      modifies tm`status, tm`waits, tm.all`status, tm.all`waitcnt, tm.all`sem
      modifies tm`counts, tm`ring, tm.all`refcnt, tm.all`next, tm.all`prev, tm.transList`next, tm.transList`prev
      modifies Entries(index, None)`versions, Entries(index, None)`nodes, Nodes(index, None)`next,
          Nodes(index, None)`prev
      modifies pool`refs, pool.all`refcnt
      ensures Valid() && s == Step(old(s), PutBlob(tp.name, key.blob.bid, Val(value)))
      ensures tp.name < |s.w.core.status| && r == s.w.core.status[tp.name]
      ensures PutDone(old(s), s, tp.name, key.blob.bid, Val(value))
      ensures Wf(old(s).w.core)
      ensures Admitted(old(s).w.core, tp.name, key.Content()) ==> Newest(key.Content(), tp, value)
      ensures fresh(Repr() - old(Repr()))
    {
      hide *;
      ValidParts();
      KeyContent(key);
      ghost var t := Step(s, PutBlob(tp.name, key.blob.bid, Val(value)));
      ReachedStep(s, PutBlob(tp.name, key.blob.bid, Val(value)));
      ghost var e;
      r, e := PutWork(tp, key, value, t);
      s := t;
      ShownTable(t.w, key.Content(), e);
      Settle(key.Content(), e, t);
      PutExactly(old(s), tp.name, key.blob.bid, Val(value));
      NewestIs(key.Content(), tp, value);
      ReprGrown(key.Content(), e);
    }

    twostate lemma ReprGrown(k: Key, new e: MapEntry)
      requires Table() && k in index && index[k] == e && tm.all == old(tm.all) && pool.all == old(pool.all)
      requires Grown(old(Entries(index, None)), old(Nodes(index, None)), k, e)
      ensures fresh(Repr() - old(Repr()))
    {
      OwnEntry(k);
    }

    method PutWork(tp: Transaction, key: StoredKey, value: Blob?, ghost t: Stocked) returns (r: Status,
                   ghost e: MapEntry)
      requires Valid() && tm.Has(tp) && key.Hashed() && pool.Has(key.blob) && pool.Has(value)
      requires MayMove(s, PutBlob(tp.name, key.blob.bid, Val(value)))
      requires t == Step(s, PutBlob(tp.name, key.blob.bid, Val(value)))
      modifies this`chains, this`index, table, tm`deps, tm.all`depends
      modifies tm`status, tm`waits, tm.all`status, tm.all`waitcnt, tm.all`sem
      modifies tm`counts, tm`ring, tm.all`refcnt, tm.all`next, tm.all`prev, tm.transList`next, tm.transList`prev
      modifies Entries(index, None)`versions, Entries(index, None)`nodes, Nodes(index, None)`next,
          Nodes(index, None)`prev
      modifies pool`refs, pool.all`refcnt
      ensures Shows(t.w, key.Content(), e) && BlobsShown(t.b) && KeysShown(index, t.w.entries, t.b.keys)
      ensures tp.name < |t.w.core.status| && r == t.w.core.status[tp.name]
      ensures Grown(old(Entries(index, None)), old(Nodes(index, None)), key.Content(), e)
    {
      hide Table, Lists, PutDue, Holds, tm.Records, WorldInv, BlobInv, Shows, ContentsShown, KeysShown, StockInv,
           Reached, MayMove, Step, Valid, Entries, Nodes, GarbageCollect, InstallVersion, Rejected, InstallId,
           AdmitsId, Worth, ValuesBelow, Begun, ReplacedBlobs, UnrefBlob, pool.Ok, key.Hashed, key.Content, pool.Has,
           tm.Has, Val, Held, tm.Shows, Protocol.At;
      PutFacts(tp, key, value, t);
      ghost var k, c := key.Content(), GarbageCollect(s.w, key.Content());
      var f, ok := Begin(tp, key);
      r := FinishPut(f, tp, value, ok, k, c, t);
      e := f;
    }

    /** PUT, once it is known whether the transaction's id is great enough. */
    method FinishPut(e: MapEntry, tp: Transaction, value: Blob?, ok: bool, ghost k: Key, ghost c: World,
                     ghost t: Stocked)
      returns (r: Status)
      requires PutDue(c, pool.refs, t, tp.name, k, Val(value), ok)
      requires Shows(c, k, e) && tm.Has(tp) && pool.Ok() && pool.Has(value)
      modifies tm`deps, tm.all`depends, tm`status, tm`waits, tm.all`status, tm.all`waitcnt, tm.all`sem
      modifies tm`counts, tm`ring, tm.all`refcnt, tm.all`next, tm.all`prev, tm.transList`next, tm.transList`prev
      modifies e`versions, e`nodes, e.nodes`next, pool`refs, pool.all`refcnt
      ensures Shows(t.w, k, e) && pool.Ok() && pool.refs == t.b.refs
      ensures tp.name < |t.w.core.status| && r == t.w.core.status[tp.name]
      ensures forall i | 0 <= i < |e.nodes| :: e.nodes[i] in old(e.nodes) || fresh(e.nodes[i])
      ensures Nodes(index, Some(k)) == old(Nodes(index, Some(k)))
    {
      hide Table, Lists, Shows, WorldInv, Worth, ValuesBelow, pool.Ok, Entries, Nodes, InstallVersion, InstallId,
           Rejected, AdmitsId, ReplacedBlobs, UnrefBlob;
      if ok {
        r := Admit(e, tp, k, value, Put(Val(value)), c);
      } else {
        r := Reject(e, tp, k, c);
        GiveBack(e, value, k, t.w);
      }
    }

    lemma ShownTable(v: World, k: Key, e: MapEntry)
      requires Shows(v, k, e)
      ensures Table() && k in index && index[k] == e
    {
    }

    /** What the outcome of a PUT means for the memory. */
    lemma PutFacts(tp: Transaction, key: StoredKey, value: Blob?, t: Stocked)
      requires Valid() && tm.Has(tp) && pool.Has(key.blob) && MayMove(s, PutBlob(tp.name, key.blob.bid, Val(value)))
      requires t == Step(s, PutBlob(tp.name, key.blob.bid, Val(value)))
      ensures WorldWf(s.w) && BlobInv(s.w, s.b) && Held(s.b, key.blob.bid)
      ensures tp.name < |s.w.handles| && s.w.handles[tp.name] > 0
      ensures var k := key.Content(); var c, b := GarbageCollect(s.w, k), Begun(s.w, s.b, key.blob.bid);
              && WorldWf(c) && k in c.core.lists && tp.name < |c.ids|
              && PutDue(c, b.refs, t, tp.name, k, Val(value), AdmitsId(c.core.lists[k], c.ids, tp.name))
              && t.w.entries == c.entries && ContentsShown(t.b.content) && t.b.keys == b.keys
    {
      hide Table, Lists, tm.Records, WorldInv, BlobInv, KeysShown, Reached, Step, GarbageCollect, ContentsShown,
           InstallVersion, Rejected, InstallId, AdmitsId, Begun, ReplacedBlobs, UnrefBlob, PutDue, pool.Ok, tm.Shows;
      ValidParts();
      BlobFacts(key.blob);
      PutOutcome(s, tp.name, key.blob.bid, Val(value));
      BegunContent(key.blob.bid);
    }

    lemma BegunContent(key: BlobId)
      requires BlobInv(s.w, s.b) && Held(s.b, key)
      ensures Begun(s.w, s.b, key).content == s.b.content
    {
      hide BlobInv, DropValues;
      AdoptKeyKeeps(s.w, s.b, key);
    }

    /** store_get: the value is stored only when the operation is admitted; the caller gets one reference to it. */
    method StoreGet(tp: Transaction, key: StoredKey) returns (r: Status, valuep: Option<Blob?>)
      requires Valid() && tm.Has(tp) && key.Hashed() && pool.Has(key.blob)
      requires MayMove(s, GetBlob(tp.name, key.blob.bid))
      modifies this`s, this`chains, this`index, table, tm`deps, tm.all`depends
      modifies tm`status, tm`waits, tm.all`status, tm.all`waitcnt, tm.all`sem
      modifies tm`counts, tm`ring, tm.all`refcnt, tm.all`next, tm.all`prev, tm.transList`next, tm.transList`prev
      modifies Entries(index, None)`versions, Entries(index, None)`nodes, Nodes(index, None)`next,
          Nodes(index, None)`prev
      modifies pool`refs, pool.all`refcnt
      ensures Valid() && s == Step(old(s), GetBlob(tp.name, key.blob.bid))
      ensures tp.name < |s.w.core.status| && r == s.w.core.status[tp.name]
      ensures valuep.Some? <==> Admitted(old(s).w.core, tp.name, key.Content())
      ensures valuep.Some? ==> Val(valuep.value) == ReadValue(old(s).w.core, key.Content()) && pool.Has(valuep.value)
      ensures GetDone(old(s), s, tp.name, key.blob.bid)
      ensures valuep.Some? ==> Newest(key.Content(), tp, valuep.value)
      ensures fresh(Repr() - old(Repr()))
    {
      hide *;
      ValidParts();
      KeyContent(key);
      ghost var t := Step(s, GetBlob(tp.name, key.blob.bid));
      ReachedStep(s, GetBlob(tp.name, key.blob.bid));
      ghost var e;
      r, valuep, e := GetWork(tp, key, t);
      s := t;
      ShownTable(t.w, key.Content(), e);
      Settle(key.Content(), e, t);
      GetExactly(old(s), tp.name, key.blob.bid);
      if valuep.Some? { NewestIs(key.Content(), tp, valuep.value); }
      ReprGrown(key.Content(), e);
    }

    method GetWork(tp: Transaction, key: StoredKey, ghost t: Stocked)
      returns (r: Status, valuep: Option<Blob?>, ghost e: MapEntry)
      requires Valid() && tm.Has(tp) && key.Hashed() && pool.Has(key.blob)
      requires MayMove(s, GetBlob(tp.name, key.blob.bid)) && t == Step(s, GetBlob(tp.name, key.blob.bid))
      modifies this`chains, this`index, table, tm`deps, tm.all`depends
      modifies tm`status, tm`waits, tm.all`status, tm.all`waitcnt, tm.all`sem
      modifies tm`counts, tm`ring, tm.all`refcnt, tm.all`next, tm.all`prev, tm.transList`next, tm.transList`prev
      modifies Entries(index, None)`versions, Entries(index, None)`nodes, Nodes(index, None)`next,
          Nodes(index, None)`prev
      modifies pool`refs, pool.all`refcnt
      ensures Shows(t.w, key.Content(), e) && BlobsShown(t.b) && KeysShown(index, t.w.entries, t.b.keys)
      ensures tp.name < |t.w.core.status| && r == t.w.core.status[tp.name]
      ensures WorldWf(s.w) && tp.name < |s.w.core.status|
      ensures valuep.Some? <==> Admitted(s.w.core, tp.name, key.Content())
      ensures valuep.Some? ==> Val(valuep.value) == ReadValue(s.w.core, key.Content()) && pool.Has(valuep.value)
      ensures Grown(old(Entries(index, None)), old(Nodes(index, None)), key.Content(), e)
    {
      hide Table, Lists, GetDue, Holds, tm.Records, WorldInv, BlobInv, Shows, ContentsShown, KeysShown, StockInv,
           Reached, MayMove, Step, Valid, Entries, Nodes, GarbageCollect, InstallVersion, Rejected, InstallId,
           AdmitsId, Worth, ValuesBelow, Begun, ReplacedBlobs, RefBlob, pool.Ok, Admitted, ReadValue, LastValue,
           key.Hashed, key.Content, pool.Has, tm.Has, Val, Held, tm.Shows, Protocol.At;
      GetFacts(tp, key, t);
      ghost var k, c := key.Content(), GarbageCollect(s.w, key.Content());
      var f, ok := Begin(tp, key);
      r, valuep := FinishGet(f, tp, ok, k, c, t);
      e := f;
    }

    lemma GetFacts(tp: Transaction, key: StoredKey, t: Stocked)
      requires Valid() && tm.Has(tp) && pool.Has(key.blob)
      requires MayMove(s, GetBlob(tp.name, key.blob.bid)) && t == Step(s, GetBlob(tp.name, key.blob.bid))
      ensures WorldWf(s.w) && BlobInv(s.w, s.b) && Held(s.b, key.blob.bid)
      ensures tp.name < |s.w.handles| && s.w.handles[tp.name] > 0
      ensures tp.name < |s.w.core.status|
      ensures var k := key.Content(); var c, b := GarbageCollect(s.w, k), Begun(s.w, s.b, key.blob.bid);
              && WorldWf(c) && k in c.core.lists && tp.name < |c.ids|
              && GetDue(c, b.refs, t, tp.name, k, AdmitsId(c.core.lists[k], c.ids, tp.name))
              && ReadValue(s.w.core, k) == LastValue(c.core.lists[k])
              && (Admitted(s.w.core, tp.name, k) <==> AdmitsId(c.core.lists[k], c.ids, tp.name))
              && t.w.entries == c.entries && ContentsShown(t.b.content) && t.b.keys == b.keys
    {
      hide Table, Lists, tm.Records, WorldInv, BlobInv, KeysShown, Reached, Step, GarbageCollect, ContentsShown,
           InstallVersion, Rejected, InstallId, AdmitsId, Begun, ReplacedBlobs, RefBlob, GetDue, pool.Ok, tm.Shows,
           Admitted, ReadValue, LastValue;
      ValidParts();
      BlobFacts(key.blob);
      GetOutcome(s, tp.name, key.blob.bid);
      BegunContent(key.blob.bid);
    }

    /** GET, once it is known whether the transaction's id is great enough.  The new version takes its reference
        before a replaced version gives its own back; the caller's comes last. */
    method FinishGet(e: MapEntry, tp: Transaction, ok: bool, ghost k: Key, ghost c: World, ghost t: Stocked)
      returns (r: Status, valuep: Option<Blob?>)
      requires GetDue(c, pool.refs, t, tp.name, k, ok)
      requires Shows(c, k, e) && tm.Has(tp) && pool.Ok()
      modifies tm`deps, tm.all`depends, tm`status, tm`waits, tm.all`status, tm.all`waitcnt, tm.all`sem
      modifies tm`counts, tm`ring, tm.all`refcnt, tm.all`next, tm.all`prev, tm.transList`next, tm.transList`prev
      modifies e`versions, e`nodes, e.nodes`next, pool`refs, pool.all`refcnt
      ensures Shows(t.w, k, e) && pool.Ok() && pool.refs == t.b.refs
      ensures tp.name < |t.w.core.status| && r == t.w.core.status[tp.name]
      ensures valuep.Some? <==> ok
      ensures ok ==> k in c.core.lists && Val(valuep.value) == LastValue(c.core.lists[k]) && pool.Has(valuep.value)
      ensures forall i | 0 <= i < |e.nodes| :: e.nodes[i] in old(e.nodes) || fresh(e.nodes[i])
      ensures Nodes(index, Some(k)) == old(Nodes(index, Some(k)))
    {
      hide Table, Lists, Shows, WorldInv, Worth, ValuesBelow, pool.Ok, Entries, Nodes, InstallVersion, InstallId,
           Rejected, AdmitsId, ReplacedBlobs, RefBlob, LastValue;
      if ok {
        var blob := PrecedingValue(e, k, c);
        WorthMore(pool.refs, c.core.lists[k], Val(blob));
        TakeValue(e, blob, k, c);
        r := Admit(e, tp, k, blob, Get(Val(blob)), c);
        TakeValue(e, blob, k, t.w);
        valuep := Some(blob);
      } else {
        r := Reject(e, tp, k, c);
        valuep := None;
      }
    }

    method PrecedingValue(e: MapEntry, ghost k: Key, ghost v: World) returns (blob: Blob?)
      requires Shows(v, k, e) && k in v.core.lists
      ensures Shows(v, k, e) && Val(blob) == LastValue(v.core.lists[k]) && pool.Has(blob)
      ensures Nodes(index, Some(k)) == old(Nodes(index, Some(k)))
    {
      hide Table, tm.Records, tm.Shows, MapEntry.Linked, LastValue, Image;
      blob := e.GetPrecedingValue();
    }

    // ----- The transaction manager's operations

    lemma SettleAll(t: Stocked)
      requires Table() && Lists(index, None, t.w.core.lists) && tm.Records() && tm.Shows(t.w)
      requires BlobsShown(t.b) && KeysShown(index, t.w.entries, t.b.keys) && StockInv(t) && Reached(t) && s == t
      ensures Valid()
    {
    }

    /** A call that is neither PUT nor GET leaves the lists and the blobs alone. */
    lemma OtherFacts(c: Call)
      requires Valid() && MayMove(s, Other(c))
      ensures WorldWf(s.w) && Allowed(s.w, c) && StockInv(Step(s, Other(c))) && Reached(Step(s, Other(c)))
      ensures Step(s, Other(c)) == s.(w := Do(s.w, c))
      ensures Do(s.w, c).core.lists == s.w.core.lists && Do(s.w, c).entries == s.w.entries
    {
      hide Table, Lists, tm.Records, tm.Shows, BlobsShown, KeysShown, WorldInv, BlobInv, Possible, Do, Allowed,
           Reached;
      ValidParts();
      ReachedStep(s, Other(c));
      OtherKeepsLists(s.w, c);
    }

    twostate lemma SameRepr()
      requires index == old(index) && tm.all == old(tm.all) && pool.all == old(pool.all)
      requires Nodes(index, None) == old(Nodes(index, None))
      ensures Repr() == old(Repr())
    {
    }

    /** The refcnt field of a record is the count of the machine. */
    lemma RefcntIs(tp: Transaction)
      requires Valid() && tm.Has(tp)
      ensures tp.name < |s.w.counts| && tp.refcnt == s.w.counts[tp.name]
    {
      hide Table, Lists, BlobsShown, KeysShown, StockInv, Reached;
    }

    lemma BlobRefcnt(bp: Blob)
      requires Valid() && pool.Has(bp)
      ensures bp.bid < |s.b.refs| && bp.refcnt == s.b.refs[bp.bid]
    {
      hide Table, Lists, tm.Records, tm.Shows, KeysShown, StockInv, Reached;
    }

    /** trans_ref. */
    method TransRef(tp: Transaction) returns (r: Transaction)
      requires Valid() && tm.Has(tp) && MayMove(s, Other(CallRef(tp.name)))
      modifies this`s, tm`counts, tp`refcnt
      ensures Valid() && s == Step(old(s), Other(CallRef(tp.name))) && r == tp
      ensures s.b == old(s).b && Referred(old(s).w, s.w, tp.name) && tp.refcnt == old(tp.refcnt) + 1
      ensures Repr() == old(Repr())
    {
      hide Table, Lists, tm.Records, WorldInv, BlobInv, Possible, Valid, StockInv, Reached, MayMove, Step, BlobsShown,
           KeysShown, Ref, Repr, Nodes, Entries;
      ValidParts();
      RefcntIs(tp);
      OtherFacts(CallRef(tp.name));
      r := TakeHandle(tp, s.w);
      s := Step(s, Other(CallRef(tp.name)));
      SettleAll(s);
      RefExactly(old(s).w, tp.name);
      RefcntIs(tp);
      SameRepr();
    }

    method TakeHandle(tp: Transaction, ghost v: World) returns (r: Transaction)
      requires Lists(index, None, v.core.lists) && WorldInv(v) && tm.Records() && tm.Shows(v) && tm.Has(tp)
      requires v.handles[tp.name] > 0
      modifies tm`counts, tp`refcnt
      ensures Lists(index, None, v.core.lists) && tm.Records() && Nodes(index, None) == old(Nodes(index, None))
      ensures tp.name < |v.counts| && tm.Shows(v.(counts := Ref(v.counts, tp.name))) && r == tp
    {
      hide Holds, tm.Records, WorldInv, Others, tm.Known, tm.CountsOk, tm.ListOk, tm.DepsOk, tm.IdsOk, tm.StatusOk,
           tm.WaitsOk, Covers, Heard, Ref, tm.Sound, DepsBelow;
      HandleFacts(tp, v);
      r := tm.TransRef(tp);
      RecordsFrom();
    }

    lemma RecordsFrom()
      requires tm.Known() && tm.IdsOk() && tm.CountsOk() && tm.ListOk() && tm.DepsOk() && tm.StatusOk() && tm.WaitsOk()
      ensures tm.Records()
    {
    }

    /** trans_unref, by a caller. */
    method TransUnref(tp: Transaction)
      requires Valid() && tm.Has(tp) && MayMove(s, Other(CallUnref(tp.name)))
      modifies this`s, tm`counts, tm`ring, tm.all`refcnt, tm.all`next, tm.all`prev, tm.transList`next,
          tm.transList`prev
      ensures Valid() && s == Step(old(s), Other(CallUnref(tp.name)))
      ensures s.b == old(s).b && Unreferred(old(s).w, s.w, tp.name) && tp.refcnt == old(tp.refcnt) - 1
      ensures Repr() == old(Repr())
    {
      hide Repr, Nodes, Entries, Table, Lists, tm.Records, WorldInv, BlobInv, Possible, Valid, StockInv, Reached,
           MayMove, Step, BlobsShown, KeysShown, Unref;
      ValidParts();
      RefcntIs(tp);
      OtherFacts(CallUnref(tp.name));
      DropHandle(tp, s.w);
      s := Step(s, Other(CallUnref(tp.name)));
      SettleAll(s);
      UnrefExactly(old(s).w, tp.name);
      RefcntIs(tp);
      SameRepr();
    }

    method DropHandle(tp: Transaction, ghost v: World)
      requires Lists(index, None, v.core.lists) && WorldInv(v) && tm.Records() && tm.Shows(v) && tm.Has(tp)
      requires v.handles[tp.name] > 0
      modifies tm`counts, tm`ring, tm.all`refcnt, tm.all`next, tm.all`prev, tm.transList`next, tm.transList`prev
      ensures Lists(index, None, v.core.lists) && tm.Records() && Nodes(index, None) == old(Nodes(index, None))
      ensures WorldWf(v) && tm.Shows(v.(counts := Unref(v.counts, v.core.deps, tp.name)))
    {
      hide Holds, tm.Records, WorldInv, Others, tm.Known, tm.CountsOk, tm.ListOk, tm.DepsOk, tm.IdsOk, tm.StatusOk,
           tm.WaitsOk, Covers, Heard, Unref, tm.Sound, DepsBelow;
      HandleFacts(tp, v);
      ghost var others := Others(v);
      tm.TransUnref(tp, others);
      RecordsAgain(others[tp.name := others[tp.name] - 1]);
    }

    /** trans_abort, by a caller: a transaction whose commit was not asked for is never committed. */
    method TransAbort(tp: Transaction) returns (r: Status)
      requires Valid() && tm.Has(tp) && MayMove(s, Other(CallAbort(tp.name)))
      modifies this`s, tm`status, tm`waits, tm.all`status, tm.all`waitcnt, tm.all`sem
      modifies tm`counts, tm`ring, tm.all`refcnt, tm.all`next, tm.all`prev, tm.transList`next, tm.transList`prev
      ensures Valid() && s == Step(old(s), Other(CallAbort(tp.name)))
      ensures tp.name < |s.w.core.status| && r == Aborted == s.w.core.status[tp.name]
      ensures s.b == old(s).b && Returned(old(s).w, s.w, tp.name, Aborted) && tp.refcnt == old(tp.refcnt) - 1
      ensures Repr() == old(Repr())
    {
      hide Repr, Nodes, Entries, Table, Lists, tm.Records, tm.Shows, WorldInv, BlobInv, Possible, Valid, Unref, Wake,
           StockInv, Reached, MayMove, Step, BlobsShown, KeysShown;
      ValidParts();
      RefcntIs(tp);
      OtherFacts(CallAbort(tp.name));
      NeverCommitted(s.w, tp.name);
      r := Withdraw(tp, s.w);
      s := Step(s, Other(CallAbort(tp.name)));
      SettleAll(s);
      AbortExactly(old(s).w, tp.name);
      RefcntIs(tp);
      SameRepr();
    }

    method Withdraw(tp: Transaction, ghost v: World) returns (r: Status)
      requires Lists(index, None, v.core.lists) && WorldInv(v) && tm.Records() && tm.Shows(v) && tm.Has(tp)
      requires v.handles[tp.name] > 0 && v.core.status[tp.name] != Committed
      modifies tm`status, tm`waits, tm.all`status, tm.all`waitcnt, tm.all`sem
      modifies tm`counts, tm`ring, tm.all`refcnt, tm.all`next, tm.all`prev, tm.transList`next, tm.transList`prev
      ensures Lists(index, None, v.core.lists) && tm.Records() && tm.Shows(Return(v, tp.name, Aborted)) && r == Aborted
      ensures Nodes(index, None) == old(Nodes(index, None))
    {
      hide Holds, tm.Records, tm.Shows, WorldInv, Return;
      r := BareWithdraw(tp, v);
    }

    method BareWithdraw(tp: Transaction, ghost v: World) returns (r: Status)
      requires WorldInv(v) && tm.Records() && tm.Shows(v) && tm.Has(tp)
      requires v.handles[tp.name] > 0 && v.core.status[tp.name] != Committed
      modifies tm`status, tm`waits, tm.all`status, tm.all`waitcnt, tm.all`sem
      modifies tm`counts, tm`ring, tm.all`refcnt, tm.all`next, tm.all`prev, tm.transList`next, tm.transList`prev
      ensures tm.Records() && tm.Shows(Return(v, tp.name, Aborted)) && r == Aborted
    {
      hide tm.Records, WorldInv, Others, tm.Known, tm.CountsOk, tm.ListOk, tm.DepsOk, tm.IdsOk, tm.StatusOk,
           tm.WaitsOk, Covers, Heard, Unref, tm.Sound, DepsBelow, Wake, Goto;
      HandleFacts(tp, v);
      ghost var others := Others(v);
      var done := tm.TransAbort(tp, others, v.handles);
      tm.MoveOn(tp, Done);
      RecordsAgain(others[tp.name := others[tp.name] - 1]);
      r := done.value;
    }

    /** A thread enters trans_commit. */
    ghost method EnterCommit(tp: Transaction)
      requires Valid() && tm.Has(tp) && MayMove(s, Other(CallCommit(tp.name)))
      modifies this`s, tm`waits
      ensures Valid() && s == Step(old(s), Other(CallCommit(tp.name)))
      ensures Repr() == old(Repr())
    {
      hide Table, Lists, tm.Records, WorldInv, BlobInv, Possible, Valid, StockInv, Reached, MayMove, Step, BlobsShown,
           KeysShown, Goto, Repr, Nodes, Entries;
      ValidParts();
      OtherFacts(CallCommit(tp.name));
      StartScan(tp, s.w);
      s := Step(s, Other(CallCommit(tp.name)));
      SettleAll(s);
      SameRepr();
    }

    ghost method StartScan(tp: Transaction, v: World)
      requires Lists(index, None, v.core.lists) && WorldInv(v) && tm.Records() && tm.Shows(v) && tm.Has(tp)
      requires v.handles[tp.name] > 0
      modifies tm`waits
      ensures Lists(index, None, v.core.lists) && tm.Records() && Nodes(index, None) == old(Nodes(index, None))
      ensures tp.name < |v.waits.phase| && tm.Shows(v.(waits := Goto(v.waits, tp.name, Scan(0))))
    {
      hide Holds, tm.Records, WorldInv, Others, tm.Known, tm.CountsOk, tm.ListOk, tm.DepsOk, tm.IdsOk, tm.StatusOk,
           tm.WaitsOk, Covers, Heard, Goto, tm.Sound, DepsBelow;
      HandleFacts(tp, v);
      tm.MoveOn(tp, Scan(0));
      RecordsFrom();
    }

    /** One step of trans_commit, from one point where it lets go of the mutex to the next; `r` is the final
        status once it returns. */
    method CommitStep(tp: Transaction, at: Phase) returns (next: Phase, r: Status)
      requires Valid() && tm.Has(tp) && MayMove(s, Other(StepCommit(tp.name))) && at == s.w.waits.phase[tp.name]
      modifies this`s, tm`status, tm`waits, tm.all`status, tm.all`waitcnt, tm.all`sem
      modifies tm`counts, tm`ring, tm.all`refcnt, tm.all`next, tm.all`prev, tm.transList`next, tm.transList`prev
      ensures Valid() && s == Step(old(s), Other(StepCommit(tp.name)))
      ensures tp.name < |s.w.waits.phase| == |s.w.core.status|
      ensures next == s.w.waits.phase[tp.name] && r == s.w.core.status[tp.name] && !next.Idle?
      ensures s.b == old(s).b && Stepped(old(s).w, s.w, tp.name) && Consumed(old(s).w, s.w, tp.name, next.Done?)
      ensures tp.refcnt == old(tp.refcnt) - if next.Done? then 1 else 0
      ensures Repr() == old(Repr())
    {
      hide *;
      CommitFacts(tp);
      ValidParts();
      RefcntIs(tp);
      CommitEffects(s.w, tp.name);
      next, r := Proceed(tp, at, s.w);
      s := s.(w := Machine.CommitStep(s.w, tp.name));
      SettleAll(s);
      RefcntIs(tp);
      ConsumedCount(old(s).w, s.w, tp.name);
      SameRepr();
    }

    lemma CommitFacts(tp: Transaction)
      requires Valid() && MayMove(s, Other(StepCommit(tp.name)))
      ensures WorldWf(s.w) && CanStep(s.w, tp.name)
      ensures var t := s.(w := Machine.CommitStep(s.w, tp.name));
              && t == Step(s, Other(StepCommit(tp.name))) && StockInv(t) && Reached(t)
              && t.w.core.lists == s.w.core.lists && t.w.entries == s.w.entries
    {
      hide Valid, CanStep, Machine.CommitStep, StockInv, Reached, MayMove, Step;
      OtherFacts(StepCommit(tp.name));
    }

    method Proceed(tp: Transaction, at: Phase, ghost v: World) returns (next: Phase, r: Status)
      requires Lists(index, None, v.core.lists) && WorldInv(v) && tm.Records() && tm.Shows(v) && tm.Has(tp)
      requires CanStep(v, tp.name) && at == v.waits.phase[tp.name]
      modifies tm`status, tm`waits, tm.all`status, tm.all`waitcnt, tm.all`sem
      modifies tm`counts, tm`ring, tm.all`refcnt, tm.all`next, tm.all`prev, tm.transList`next, tm.transList`prev
      ensures Lists(index, None, v.core.lists) && tm.Records() && tm.Shows(Machine.CommitStep(v, tp.name))
      ensures tp.name < |Machine.CommitStep(v, tp.name).waits.phase| == |Machine.CommitStep(v, tp.name).core.status|
      ensures next == Machine.CommitStep(v, tp.name).waits.phase[tp.name]
      ensures r == Machine.CommitStep(v, tp.name).core.status[tp.name] && !next.Idle?
      ensures Nodes(index, None) == old(Nodes(index, None))
    {
      hide Holds, tm.Records, tm.Shows, WorldInv, CanStep, Machine.CommitStep;
      next, r := BareProceed(tp, at, v);
    }

    method BareProceed(tp: Transaction, at: Phase, ghost v: World) returns (next: Phase, r: Status)
      requires WorldInv(v) && tm.Records() && tm.Shows(v) && tm.Has(tp)
      requires CanStep(v, tp.name) && at == v.waits.phase[tp.name]
      modifies tm`status, tm`waits, tm.all`status, tm.all`waitcnt, tm.all`sem
      modifies tm`counts, tm`ring, tm.all`refcnt, tm.all`next, tm.all`prev, tm.transList`next, tm.transList`prev
      ensures tm.Records() && tm.Shows(Machine.CommitStep(v, tp.name))
      ensures tp.name < |Machine.CommitStep(v, tp.name).waits.phase| == |Machine.CommitStep(v, tp.name).core.status|
      ensures next == Machine.CommitStep(v, tp.name).waits.phase[tp.name]
      ensures r == Machine.CommitStep(v, tp.name).core.status[tp.name] && !next.Idle?
    {
      hide Holds, tm.Known, tm.CountsOk, tm.ListOk, tm.DepsOk, tm.IdsOk, tm.WaitsOk, CanStep, Machine.CommitStep, Inv,
           WaitInv, BooksOk, IdOrder;
      NeverIdleAgain(v, tp.name);
      next := tm.TransCommit(tp, at, v);
      r := tm.TransGetStatus(tp);
    }

    /** trans_create. */
    method TransCreate() returns (tp: Transaction)
      requires Valid()
      modifies this`s, tm`all, tm`ring, tm`ids, tm`counts, tm`status, tm`deps, tm`waits
      modifies tm.all`next, tm.all`prev, tm.transList`next, tm.transList`prev
      ensures Valid() && s == old(s).(w := Machine.TransCreate(old(s).w))
      ensures s.w.handles == old(s).w.handles + [1] && s.w.core == Protocol.Create(old(s).w.core)
      ensures tp.refcnt == 1 && tp.status == Pending && tp.depends == []
      ensures fresh(tp) && tm.all == old(tm.all) + [tp] && tm.Has(tp) && tp.id == NextId(old(s).w.ids, old(s).w.counts)
      ensures fresh(Repr() - old(Repr()))
    {
      hide Table, Lists, tm.Records, WorldInv, BlobInv, Possible, Valid, NextId, Waiting.Enter, StockInv, Reached,
           MayMove, Step, BlobsShown, KeysShown, Repr, Nodes, Entries;
      CreateFacts();
      ValidParts();
      OtherFacts(CallCreate);
      tp := NewRecord(s.w);
      s := s.(w := Machine.TransCreate(s.w));
      SettleAll(s);
      MoreRepr(tp);
    }

    lemma CreateFacts()
      requires Valid()
      ensures WorldWf(s.w) && MayMove(s, Other(CallCreate)) && Do(s.w, CallCreate) == Machine.TransCreate(s.w)
    {
      hide Table, Lists, tm.Records, tm.Shows, BlobInv, Possible, Reached, BlobsShown, KeysShown, NextId, Inv,
           WaitInv, BooksOk, IdOrder, Wf;
    }

    twostate lemma MoreRepr(new o: object)
      requires index == old(index) && fresh(o) && Nodes(index, None) == old(Nodes(index, None))
      requires forall t | t in tm.all :: t in old(tm.all) || t == o
      requires forall b | b in pool.all :: b in old(pool.all) || b == o
      ensures fresh(Repr() - old(Repr()))
    {
    }

    method NewRecord(ghost v: World) returns (tp: Transaction)
      requires Lists(index, None, v.core.lists) && tm.Records() && tm.Shows(v) && WorldWf(v)
      modifies tm`all, tm`ring, tm`ids, tm`counts, tm`status, tm`deps, tm`waits
      modifies tm.all`next, tm.all`prev, tm.transList`next, tm.transList`prev
      ensures Lists(index, None, v.core.lists) && tm.Records() && tm.Shows(Machine.TransCreate(v))
      ensures tp.refcnt == 1 && tp.status == Pending && tp.depends == []
      ensures fresh(tp) && tm.all == old(tm.all) + [tp] && tm.Has(tp) && tp.id == NextId(v.ids, v.counts)
      ensures Nodes(index, None) == old(Nodes(index, None))
    {
      hide Image, tm.Records, tm.Shows, WorldWf, Machine.TransCreate, NextId, MapEntry.Linked;
      tp := BareRecord(v);
    }

    method BareRecord(ghost v: World) returns (tp: Transaction)
      requires tm.Records() && tm.Shows(v) && WorldWf(v)
      modifies tm`all, tm`ring, tm`ids, tm`counts, tm`status, tm`deps, tm`waits
      modifies tm.all`next, tm.all`prev, tm.transList`next, tm.transList`prev
      ensures tm.Records() && tm.Shows(Machine.TransCreate(v))
      ensures tp.refcnt == 1 && tp.status == Pending && tp.depends == []
      ensures fresh(tp) && tm.all == old(tm.all) + [tp] && tm.Has(tp) && tp.id == NextId(v.ids, v.counts)
    {
      hide tm.Known, tm.CountsOk, tm.ListOk, tm.DepsOk, tm.IdsOk, tm.StatusOk, tm.WaitsOk, NextId, Waiting.Enter;
      tp := tm.TransCreate();
    }

    /** Whether a thread inside trans_commit can go on: not if it waits for a post. */
    predicate GoesOn(tp: Transaction, at: Phase)
      reads tp`depends, tp.depends`sem
    {
      match at
      case Idle => false
      case Done => false
      case Scan(_) => true
      case Woken(_) => true
      case Blocked(i) => i < |tp.depends| && tp.depends[i].sem > 0
    }

    lemma GoesOnFacts(tp: Transaction, at: Phase)
      requires Valid() && tm.Has(tp) && tp.name < |s.w.waits.phase| && at == s.w.waits.phase[tp.name] && !at.Idle?
      ensures StockInv(s) && tp.name < |s.w.core.status| && tp.status == s.w.core.status[tp.name]
      ensures GoesOn(tp, at) ==> MayMove(s, Other(StepCommit(tp.name)))
      ensures !GoesOn(tp, at) ==> CommitEnds(tp, at, tp.status)
    {
      hide Table, Lists, BlobsShown, KeysShown, BlobInv, Possible, Reached, Inv, WaitInv, BooksOk, IdOrder, Wf;
      MissingPost(s.w, tp.name);
      SemFacts(tp);
    }

    lemma SemFacts(tp: Transaction)
      requires tm.Records() && tm.Shows(s.w) && tm.Has(tp) && WorldWf(s.w)
      ensures tp.name < |s.w.core.status| && tp.status == s.w.core.status[tp.name]
      ensures |tp.depends| == |s.w.core.deps[tp.name]|
      ensures forall i | 0 <= i < |tp.depends| ::
                s.w.core.deps[tp.name][i] < |s.w.waits.sem| &&
                    tp.depends[i].sem == s.w.waits.sem[s.w.core.deps[tp.name][i]]
    {
      assert tm.Named(tp.depends, tm.deps[tp.name]);
    }

    /** trans_commit from the point `at` on, until it returns or blocks: either the transaction is decided and `r`
        is its final status, or it is blocked on a dependency that is still pending. */
    method Commit(tp: Transaction, at: Phase) returns (next: Phase, r: Status, ghost ms: seq<Move>)
      requires Valid() && tm.Has(tp) && tp.name < |s.w.waits.phase| && at == s.w.waits.phase[tp.name] && !at.Idle?
      modifies this`s, tm`status, tm`waits, tm.all`status, tm.all`waitcnt, tm.all`sem
      modifies tm`counts, tm`ring, tm.all`refcnt, tm.all`next, tm.all`prev, tm.transList`next, tm.transList`prev
      ensures Valid() && MovesTo(old(s), ms, s) && (forall i | 0 <= i < |ms| :: ms[i] == Other(StepCommit(tp.name)))
      ensures CommitEnds(tp, next, r) && Repr() == old(Repr())
      ensures s.b == old(s).b && Consumed(old(s).w, s.w, tp.name, next.Done? && !at.Done?)
      ensures tp.refcnt == old(tp.refcnt) - if next.Done? && !at.Done? then 1 else 0
      ensures Decided(s.w, tp.name, old(tp.status), r)
    {
      hide Valid, MovesTo, Repr, CommitEnds, MayMove, Step, StockInv, WorldMeasure, Stepped, Decided;
      next, r, ms := at, tp.status, [];
      NoMoves(s);
      GoesOnFacts(tp, at);
      UndecidedYet(s, tp.name, r);
      while GoesOn(tp, next)
        invariant Valid() && tp.name < |s.w.waits.phase| && next == s.w.waits.phase[tp.name] && !next.Idle?
        invariant r == tp.status && MovesTo(old(s), ms, s) && Repr() == old(Repr())
        invariant s.b == old(s).b && Consumed(old(s).w, s.w, tp.name, next.Done? && !at.Done?)
        invariant tp.refcnt == old(tp.refcnt) - if next.Done? && !at.Done? then 1 else 0
        invariant (at.Done? ==> next.Done?) && Decided(s.w, tp.name, old(tp.status), r)
        invariant forall i | 0 <= i < |ms| :: ms[i] == Other(StepCommit(tp.name))
        decreases WorldMeasure(s.w)
      {
        GoesOnFacts(tp, next);
        StepMeasure(s, tp.name);
        MoreMoves(old(s), ms, s, Other(StepCommit(tp.name)));
        ms := ms + [Other(StepCommit(tp.name))];
        ghost var now := s;
        next, r := CommitStep(tp, next);
        StockOf(s);
        DecidedStep(now, s, tp.name, old(tp.status), r);
        GoesOnFacts(tp, next);
      }
      GoesOnFacts(tp, next);
    }

    /** trans_commit. */
    method TransCommit(tp: Transaction) returns (next: Phase, r: Status, ghost ms: seq<Move>)
      requires Valid() && tm.Has(tp) && MayMove(s, Other(CallCommit(tp.name)))
      modifies this`s, tm`status, tm`waits, tm.all`status, tm.all`waitcnt, tm.all`sem
      modifies tm`counts, tm`ring, tm.all`refcnt, tm.all`next, tm.all`prev, tm.transList`next, tm.transList`prev
      ensures Valid() && MovesTo(old(s), [Other(CallCommit(tp.name))] + ms, s)
      ensures forall i | 0 <= i < |ms| :: ms[i] == Other(StepCommit(tp.name))
      ensures CommitEnds(tp, next, r) && Repr() == old(Repr())
      ensures s.b == old(s).b && Consumed(old(s).w, s.w, tp.name, next.Done?)
      ensures tp.refcnt == old(tp.refcnt) - if next.Done? then 1 else 0
      ensures Decided(s.w, tp.name, old(tp.status), r)
    {
      hide MovesTo, Repr, CommitEnds, Valid, StockInv, MayMove, Step, Decided;
      EntersAtStart(tp.name);
      EnterCommit(tp);
      next, r, ms := Commit(tp, Scan(0));
      FirstMove(old(s), Other(CallCommit(tp.name)), ms, s);
    }

    lemma StockOf(t: Stocked)
      requires Valid() && t == s
      ensures StockInv(t)
    {
    }

    lemma EntersAtStart(t: Tid)
      requires Valid() && MayMove(s, Other(CallCommit(t)))
      ensures StockInv(s)
      ensures var s' := Step(s, Other(CallCommit(t)));
              && t < |s'.w.waits.phase| && s'.w.waits.phase[t] == Scan(0)
              && s'.b == s.b && s'.w.core == s.w.core && s'.w.handles == s.w.handles
    {
      hide Table, Lists, tm.Records, tm.Shows, BlobsShown, KeysShown, Reached, BlobInv, WorldInv, Possible;
      PossibleWf(s.w);
    }

    /** How a commit leaves its thread. */
    ghost predicate CommitEnds(tp: Transaction, next: Phase, r: Status)
      reads this`s
    {
      && WorldWf(s.w) && tp.name < |s.w.core.status| && next == s.w.waits.phase[tp.name]
      && r == s.w.core.status[tp.name]
      && if next.Done? then r != Pending
         else next.Blocked? && next.at < |s.w.core.deps[tp.name]| && s.w.core.deps[tp.name][next.at] < |s.w.core.status|
              && s.w.core.status[s.w.core.deps[tp.name][next.at]] == Pending
    }

    // ----- Callers' references to blobs

    lemma BlobMoveFacts(m: Move)
      requires Valid() && (m.Make? || m.Share? || m.Drop?) && MayMove(s, m)
      ensures StockInv(s) && StockInv(Step(s, m)) && Reached(Step(s, m)) && Step(s, m).w == s.w
      ensures Step(s, m).b.keys == s.b.keys && BlobsShown(s.b) && |s.b.held| == |s.b.refs| == |s.b.content|
      ensures !m.Make? ==> s.b.refs[m.x] > 0
    {
      hide Table, Lists, tm.Records, tm.Shows, KeysShown, WorldInv, Possible, Reached, ContentsShown;
      ValidParts();
      ReachedStep(s, m);
      if !m.Make? { HeldIsAlive(s, m.x); }
      hide EntriesOk, Wf;
    }

    /** blob_create. */
    method BlobCreate(bytes: Bytes) returns (bp: Blob)
      requires Valid()
      modifies this`s, pool`all, pool`refs
      ensures Valid() && s == old(s).(b := BlobBooks.BlobCreate(old(s).b, bytes))
      ensures s.b.held == old(s).b.held + [1] && bp.refcnt == 1
      ensures fresh(bp) && pool.all == old(pool.all) + [bp] && pool.Has(bp) && bp.content == bytes
      ensures fresh(Repr() - old(Repr()))
    {
      hide Table, Lists, tm.Records, tm.Shows, WorldInv, BlobInv, Possible, Valid, StockInv, Reached, MayMove, Step,
           KeysShown, Repr, Nodes, Entries, BlobsShown;
      MakeFacts(bytes);
      ValidParts();
      BlobMoveFacts(Make(bytes));
      bp := NewBlob(bytes, s);
      s := s.(b := BlobBooks.BlobCreate(s.b, bytes));
      SettleAll(s);
      MoreRepr(bp);
    }

    lemma MakeFacts(bytes: Bytes)
      requires Valid()
      ensures StockInv(s) && MayMove(s, Make(bytes)) &&
              Step(s, Make(bytes)) == s.(b := BlobBooks.BlobCreate(s.b, bytes))
    {
    }

    method NewBlob(bytes: Bytes, ghost t: Stocked) returns (bp: Blob)
      requires Lists(index, None, t.w.core.lists) && BlobsShown(t.b) && KeysShown(index, t.w.entries, t.b.keys)
      modifies pool`all, pool`refs
      ensures Lists(index, None, t.w.core.lists) && BlobsShown(BlobBooks.BlobCreate(t.b, bytes))
      ensures KeysShown(index, t.w.entries, t.b.keys) && Nodes(index, None) == old(Nodes(index, None))
      ensures fresh(bp) && pool.all == old(pool.all) + [bp] && pool.Has(bp) && bp.content == bytes && bp.refcnt == 1
    {
      hide MapEntry.Linked, Image, pool.Ok;
      bp := pool.BlobCreate(bytes);
    }

    /** blob_ref, by a caller. */
    method BlobRef(bp: Blob)
      requires Valid() && pool.Has(bp) && MayMove(s, Share(bp.bid))
      modifies this`s, pool`refs, pool.all`refcnt
      ensures Valid() && s == Step(old(s), Share(bp.bid)) && Repr() == old(Repr())
      ensures Shared(old(s), s, bp.bid) && bp.refcnt == old(bp.refcnt) + 1
    {
      hide Table, Lists, tm.Records, tm.Shows, WorldInv, BlobInv, Possible, Valid, StockInv, Reached, KeysShown, Repr,
           Nodes, Entries, RefBlob, ContentsShown, pool.Ok;
      ValidParts();
      BlobRefcnt(bp);
      BlobMoveFacts(Share(bp.bid));
      BlobsOnly(true, bp);
      s := Step(s, Share(bp.bid));
      SettleAll(s);
      ShareExactly(old(s), bp.bid);
      BlobRefcnt(bp);
      SameRepr();
    }

    /** blob_unref, by a caller. */
    method BlobUnref(bp: Blob)
      requires Valid() && pool.Has(bp) && MayMove(s, Drop(bp.bid))
      modifies this`s, pool`refs, pool.all`refcnt
      ensures Valid() && s == Step(old(s), Drop(bp.bid)) && Repr() == old(Repr())
      ensures Unshared(old(s), s, bp.bid) && bp.refcnt == old(bp.refcnt) - 1
    {
      hide Table, Lists, tm.Records, tm.Shows, WorldInv, BlobInv, Possible, Valid, StockInv, Reached, KeysShown, Repr,
           Nodes, Entries, UnrefBlob, ContentsShown, pool.Ok;
      ValidParts();
      BlobRefcnt(bp);
      BlobMoveFacts(Drop(bp.bid));
      BlobsOnly(false, bp);
      s := Step(s, Drop(bp.bid));
      SettleAll(s);
      DropExactly(old(s), bp.bid);
      BlobRefcnt(bp);
      SameRepr();
    }

    method BlobsOnly(more: bool, bp: Blob)
      requires Lists(index, None, s.w.core.lists) && tm.Records() && tm.Shows(s.w) && pool.Ok() && pool.Has(bp)
      requires !more ==> pool.refs[bp.bid] > 0
      modifies pool`refs, pool.all`refcnt
      ensures Lists(index, None, s.w.core.lists) && tm.Records() && tm.Shows(s.w) && pool.Ok()
      ensures pool.refs == if more then RefBlob(old(pool.refs), Some(bp.bid))
              else UnrefBlob(old(pool.refs), Some(bp.bid))
      ensures Nodes(index, None) == old(Nodes(index, None))
    {
      hide Holds, tm.Records, pool.Ok, RefBlob, UnrefBlob;
      if more { pool.BlobRef(bp); } else { pool.BlobUnref(bp); }
    }

    /** key_create: the key stands for the caller's reference to the blob. */
    method KeyCreate(bp: Blob) returns (key: StoredKey)
      requires Valid() && pool.Has(bp)
      ensures Valid() && s == old(s) && fresh(key) && key.blob == bp && key.Hashed()
      ensures Repr() == old(Repr())
    {
      hide Table, Lists, tm.Records, tm.Shows, WorldInv, BlobInv, Possible, Valid, StockInv, Reached, KeysShown, Repr,
           Nodes, Entries, BlobsShown, pool.Ok, key.Hashed;
      ValidParts();
      key := NewKey(bp);
      SettleAll(s);
      SameRepr();
    }

    method NewKey(bp: Blob) returns (key: StoredKey)
      requires Lists(index, None, s.w.core.lists) && tm.Records() && tm.Shows(s.w) && pool.Has(bp) && pool.Ok() &&
               BlobsShown(s.b)
      ensures Lists(index, None, s.w.core.lists) && tm.Records() && tm.Shows(s.w) && BlobsShown(s.b)
      ensures fresh(key) && key.blob == bp && key.Hashed() && Nodes(index, None) == old(Nodes(index, None))
    {
      hide Holds, tm.Records, ContentsShown;
      key := new StoredKey(bp);
    }

    // ----- What the theorems about runs say of the memory

    /** Of the versions of a key in memory, the one whose committed creator is greatest holds the value that
        executing exactly the committed transactions, one at a time, gives the key; a key without an entry
        has none. */
    lemma CurrentValueInMemory(k: Key)
      requires Valid()
      ensures k in index ==> CreatorsBelow(Image(index[k].nodes), |tm.status|)
      ensures Serializability.Read(Serializability.Execute(map[],
              Serializability.SerialLog(s.w.core, |s.w.core.status|)), k) ==
              if k in index then Serializability.CurrentValue(Image(index[k].nodes), tm.status) else None
    {
      MachineTheorems.PossibleReachable(s.w);
      Serializability.CurrentIsSerial(s.w.core, k);
      hide Table, Possible, Reached, BlobInv, BlobsShown, KeysShown, tm.Records, Reachable, Serializability.SerialLog,
           Serializability.Execute;
    }

    /** The refcnt field of a transaction record counts the versions, dependency nodes and callers that hold
        it, and the record is on the transaction list exactly while that is not zero. */
    lemma RefcntInMemory(tp: Transaction)
      requires Valid() && tm.Has(tp)
      ensures WorldWf(s.w) && tp.name < |s.w.handles|
      ensures tp.refcnt == VersionRefs(s.w.core.lists, s.w.entries, tp.name) +
              MachineTheorems.DependencyNodes(s.w, tp.name) + s.w.handles[tp.name]
      ensures tp in tm.ring <==> tp.refcnt > 0
    {
      hide Table, Possible, Reached, BlobInv, BlobsShown, KeysShown, Lists, VersionRefs,
           MachineTheorems.DependencyNodes;
      MachineTheorems.ReferencesConserved(s.w, tp.name);
      if tp in tm.ring {
        var i :| 0 <= i < |tm.ring| && tm.ring[i] == tp;
      }
    }

    /** The transaction list is strictly descending by id. */
    lemma TransListDescends(i: nat, j: nat)
      requires Valid() && 0 < i < j < |tm.ring| - 1
      ensures tm.ring[i].id > tm.ring[j].id
    {
      hide Table, Possible, Reached, BlobInv, BlobsShown, KeysShown, Lists;
      var a, b := tm.ring[i].name, tm.ring[j].name;
      assert tm.all[a] == tm.ring[i] && tm.all[b] == tm.ring[j] && tm.counts[a] > 0 && tm.counts[b] > 0;
      MachineTheorems.IdsDescend(s.w, b, a);
    }

    /** A search of all buckets finds no other entry of a key than the one in its own bucket. */
    lemma OneEntryPerKey(g: nat, a: MapEntry, h: nat, b: MapEntry)
      requires Table() && g < NUM_BUCKETS && h < NUM_BUCKETS && a in chains[g] && b in chains[h] &&
               a.key.Content() == b.key.Content()
      ensures a == b && g == h == Hash(a.key.Content())
    {
    }

    /** The refcnt field of a blob record counts the versions, the keys of entries and the callers that hold it. */
    lemma BlobRefcntInMemory(bp: Blob)
      requires Valid() && pool.Has(bp)
      ensures bp.bid < |s.b.held|
      ensures bp.refcnt == ValueRefs(s.w.core.lists, s.w.entries, bp.bid) + KeyRefs(s.b.keys, bp.bid) + s.b.held[bp.bid]
    {
      hide Table, Lists, tm.Records, tm.Shows, KeysShown, Possible, Reached, WorldInv, ValueRefs, KeyRefs, EntriesOk,
           Wf;
      assert BlobOk(s.w, s.b, bp.bid);
    }
  }

  lemma CreatorsAmong(tm: Manager, pool: Pool, ns: seq<VersionNode>, nodes: seq<VersionNode>)
    requires Creators(tm, pool, ns) && forall n | n in nodes :: n in ns
    ensures Creators(tm, pool, nodes)
  {
    forall i | 0 <= i < |nodes| ensures tm.Has(nodes[i].creator) && pool.Has(nodes[i].blob) {
      assert nodes[i] in ns;
    }
  }
}
