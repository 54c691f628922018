/** Adding a version to a list in memory, and the dependencies that come with it. */
module Installation {
  import opened Types
  import opened VersionLists
  import opened Protocol
  import opened References
  import opened Machine
  import opened Books
  import opened Transactions
  import opened VersionLinks
  import opened Collection
  import opened Data
  import opened BlobBooks
  import opened BlobPools

  ghost predicate Live(vs: seq<Version>, counts: seq<nat>) {
    CreatorsBelow(vs, |counts|) && forall i | 0 <= i < |vs| :: counts[vs[i].creator] > 0
  }

  /** version_create: the version takes a reference to its creator. */
  method VersionCreate(tm: Manager, e: MapEntry, tp: Transaction, blob: Blob?) returns (version: VersionNode)
    requires tm.Known() && tm.Has(tp) && tm.CountsOk() && tm.ListOk() && tm.counts[tp.name] > 0
    modifies tm`counts, tp`refcnt
    ensures tm.CountsOk() && tm.ListOk() && tm.counts == Ref(old(tm.counts), tp.name)
    ensures fresh(version) && version.owner == e && version.creator == tp && version.blob == blob
    ensures version.next == null && version.prev == null
  {
    version := new VersionNode(e, tp, blob);
    var r := tm.TransRef(version.creator);
  }

  // ----- Dependencies

  /** The counts and dependency lists that adding the pending creators among `vs` leads to. */
  ghost predicate Leads(counts: seq<nat>, deps: seq<seq<Tid>>, vs: seq<Version>, t: Tid, st: seq<Status>,
                        counts': seq<nat>, deps': seq<seq<Tid>>)
  {
    && t < |deps| == |counts| == |st| && CreatorsBelow(vs, |st|)
    && RefDependencies(counts, deps[t], vs, t, st) == counts'
    && deps[t := AddDependencies(deps[t], vs, t, st)] == deps'
  }

  lemma LeadsStep(counts: seq<nat>, deps: seq<seq<Tid>>, vs: seq<Version>, t: Tid, st: seq<Status>,
                  counts': seq<nat>, deps': seq<seq<Tid>>)
    requires vs != [] && Leads(counts, deps, vs, t, st, counts', deps')
    ensures var c := vs[0].creator;
            if c != t && st[c] == Pending && c !in deps[t] then
              Leads(Ref(counts, c), deps[t := [c] + deps[t]], vs[1..], t, st, counts', deps')
            else Leads(counts, deps, vs[1..], t, st, counts', deps')
    ensures t < |deps| && deps[t := deps[t]] == deps
  {
    var c := vs[0].creator;
    if c != t && st[c] == Pending && c !in deps[t] {
      var ds := [c] + deps[t];
      assert deps[t := ds][t := AddDependencies(ds, vs[1..], t, st)] == deps[t := AddDependencies(ds, vs[1..], t, st)];
    }
  }

  lemma LeadsEnd(counts: seq<nat>, deps: seq<seq<Tid>>, t: Tid, st: seq<Status>, counts': seq<nat>,
                 deps': seq<seq<Tid>>)
    requires Leads(counts, deps, [], t, st, counts', deps')
    ensures counts == counts' && deps == deps'
  {
  }

  /** add_earlier_dependency_list, for the transaction that created the version just installed. */
  method AddEarlierDependencyList(tm: Manager, pool: Pool, head: VersionNode?, tp: Transaction,
                                  ghost nodes: seq<VersionNode>,
                                  ghost counts: seq<nat>, ghost deps: seq<seq<Tid>>)
    requires tm.Known() && tm.Has(tp) && tm.DepsOk() && tm.CountsOk() && tm.ListOk() && tm.StatusOk()
    requires Follow(head, nodes) && Creators(tm, pool, nodes) && Live(Image(nodes), tm.counts)
    requires Leads(tm.counts, tm.deps, Image(nodes), tp.name, tm.status, counts, deps)
    modifies tm`counts, tm`deps, tp`depends, tm.all`refcnt
    ensures tm.DepsOk() && tm.CountsOk() && tm.ListOk()
    ensures tm.counts == counts && tm.deps == deps
  {
    hide tm.Known, tm.DepsOk, tm.CountsOk, tm.ListOk, tm.StatusOk, Follow, Creators, Live, Leads;
    var curr := head;
    ghost var rest := nodes;
    while curr != null
      invariant tm.DepsOk() && tm.CountsOk() && tm.ListOk()
      invariant Follow(curr, rest) && Creators(tm, pool, rest) && Live(Image(rest), tm.counts)
      invariant Leads(tm.counts, tm.deps, Image(rest), tp.name, tm.status, counts, deps)
      decreases |rest|
    {
      FollowNext(curr, rest);
      ImageRest(rest);
      FirstFacts(tm, pool, tp, rest);
      LeadsStep(tm.counts, tm.deps, Image(rest), tp.name, tm.status, counts, deps);
      LiveRest(Image(rest), tm.counts);
      if curr.creator != tp && curr.creator.status == Pending {
        tm.TransAddDependency(tp, curr.creator);
      }
      curr, rest := curr.next, rest[1..];
    }
    FollowEnd(curr, rest);
    LeadsEnd(tm.counts, tm.deps, tp.name, tm.status, counts, deps);
  }

  lemma FirstFacts(tm: Manager, pool: Pool, tp: Transaction, nodes: seq<VersionNode>)
    requires tm.Known() && tm.Has(tp) && tm.DepsOk() && tm.CountsOk() && tm.StatusOk()
    requires nodes != [] && Creators(tm, pool, nodes) && Live(Image(nodes), tm.counts)
    ensures var c := nodes[0].creator;
            && tm.Has(c) && c.name < |tm.counts| == |tm.deps| == |tm.status| == |tm.all| && tm.counts[c.name] > 0
            && c.status == tm.status[c.name] && (c == tp <==> c.name == tp.name) && Creators(tm, pool, nodes[1..])
  {
    assert Image(nodes)[0].creator == nodes[0].creator.name;
  }

  lemma LiveRest(vs: seq<Version>, counts: seq<nat>)
    requires vs != [] && Live(vs, counts)
    ensures Live(vs[1..], counts) && vs[0].creator < |counts| && Live(vs[1..], Ref(counts, vs[0].creator))
  {
  }

  // ----- The version itself

  /** The counts of InstallVersion before the dependencies are added. */
  ghost function CountsWith(counts: seq<nat>, deps: seq<seq<Tid>>, vs: seq<Version>, vs': seq<Version>,
                           t: Tid): (r: seq<nat>)
    requires DepsBelow(deps) && |counts| == |deps| && t < |counts| && CreatorsBelow(vs, |counts|)
    ensures |r| == |counts|
  {
    if |vs'| == |vs| && vs != [] then Unref(Ref(counts, t), deps, vs[|vs| - 1].creator) else Ref(counts, t)
  }

  ghost predicate IdsKnown(tm: Manager, nodes: seq<VersionNode>)
    reads tm`ids
  {
    forall i | 0 <= i < |nodes| :: nodes[i].creator.name < |tm.ids| &&
        nodes[i].creator.id == tm.ids[nodes[i].creator.name]
  }

  /** check_transid_greater. */
  method CheckTransidGreater(tm: Manager, e: MapEntry, tp: Transaction) returns (ok: bool)
    requires e.Linked() && IdsKnown(tm, e.nodes) && tp.name < |tm.ids| && tp.id == tm.ids[tp.name]
    ensures CreatorsBelow(Image(e.nodes), |tm.ids|) && (ok <==> AdmitsId(Image(e.nodes), tm.ids, tp.name))
    ensures ok <==> forall i | 0 <= i < |e.nodes| :: e.nodes[i].creator.id <= tp.id
  {
    if e.versions == null { return true; }
    var max := e.GetMaxId(tm.ids);
    ok := tp.id >= max;
  }

  ghost function Placed(nodes: seq<VersionNode>, version: VersionNode, replace: bool): (r: seq<VersionNode>)
    requires replace ==> nodes != []
  {
    if replace then nodes[..|nodes| - 1] + [version] else nodes + [version]
  }

  lemma PlacedParts(nodes: seq<VersionNode>, version: VersionNode, replace: bool)
    requires replace ==> nodes != []
    ensures var r := Placed(nodes, version, replace);
            && |r| == |nodes| + (if replace then 0 else 1) && r[|r| - 1] == version
            && forall i | 0 <= i < |r| - 1 :: r[i] == nodes[i]
  {
  }

  lemma PlacedImage(nodes: seq<VersionNode>, version: VersionNode, replace: bool, ids: seq<nat>)
    requires CreatorsBelow(Image(nodes), |ids|) && version.creator.name < |ids|
    requires replace <==> nodes != [] && MaxId(Image(nodes), ids) == ids[version.creator.name]
    ensures Image(Placed(nodes, version, replace)) ==
            InstallId(Image(nodes), ids, Version(version.creator.name, Val(version.blob)))
  {
    hide MaxId, Placed, CreatorsBelow, Val;
    PlacedParts(nodes, version, replace);
  }

  lemma PlacedCreators(tm: Manager, pool: Pool, nodes: seq<VersionNode>, version: VersionNode, replace: bool)
    requires Creators(tm, pool, nodes) && tm.Has(version.creator) && pool.Has(version.blob) && (replace ==> nodes != [])
    ensures Creators(tm, pool, Placed(nodes, version, replace))
    ensures |Placed(nodes, version, replace)| == |nodes| + if replace then 0 else 1
    ensures forall n | n in Placed(nodes, version, replace) :: n in nodes || n == version
  {
    hide Placed;
    PlacedParts(nodes, version, replace);
  }

  method Place(e: MapEntry, version: VersionNode, replace: bool) returns (last: VersionNode?)
    requires e.Linked() && (replace ==> e.nodes != [])
    requires version.owner == e && version !in e.nodes && version.next == null && version.prev == null
    modifies e`versions, e`nodes, e.nodes`next, version`prev
    ensures e.Linked() && e.nodes == Placed(old(e.nodes), version, replace)
    ensures last == if replace then old(e.nodes)[|old(e.nodes)| - 1] else null
  {
    hide e.Linked;
    if replace {
      last := e.ReplaceLastVersion(version);
    } else {
      e.AddVersionEnd(version);
      last := null;
    }
  }

  lemma AddFacts(tm: Manager, pool: Pool, nodes: seq<VersionNode>, t: Tid, others: seq<nat>, held: seq<nat>)
    requires Creators(tm, pool, nodes) && Steady(tm, pool, others, held) &&
             Enough(others, pool.refs, Image(nodes), held)
    requires t < |tm.counts| && tm.counts[t] > 0
    ensures tm.Known() && tm.CountsOk() && tm.ListOk() && DepsBelow(tm.deps) && |tm.counts| == |tm.deps| == |others|
    ensures CreatorsBelow(Image(nodes), |tm.deps|)
    ensures Graph(Ref(tm.counts, t), tm.deps, Ref(others, t))
    ensures nodes != [] ==> LastHeld(tm, pool, nodes[|nodes| - 1], Ref(others, t), pool.refs)
  {
    hide Enough, Creators, Ref, tm.Known, tm.CountsOk, tm.ListOk, Image;
    SteadyFacts(tm, pool, others, held);
    RefGraph(tm.counts, tm.deps, others, t);
    LastFacts(tm, pool, nodes, t, others, held);
  }

  lemma RefGraph(counts: seq<nat>, deps: seq<seq<Tid>>, others: seq<nat>, t: Tid)
    requires Graph(counts, deps, others) && t < |counts| && counts[t] > 0
    ensures Graph(Ref(counts, t), deps, Ref(others, t))
  {
    RefBalanced(counts, deps, others, t);
  }

  ghost predicate LastHeld(tm: Manager, pool: Pool, node: VersionNode, others: seq<nat>, refs: seq<nat>)
    reads tm`all, pool`all
  {
    && tm.Has(node.creator) && node.creator.name < |others| && others[node.creator.name] > 0
    && pool.Has(node.blob) && (node.blob != null ==> node.blob.bid < |refs| && refs[node.blob.bid] > 0)
  }

  lemma LastFacts(tm: Manager, pool: Pool, nodes: seq<VersionNode>, t: Tid, others: seq<nat>, held: seq<nat>)
    requires Creators(tm, pool, nodes) && Enough(others, pool.refs, Image(nodes), held) && |others| == |tm.all| &&
             t < |others|
    ensures CreatorsBelow(Image(nodes), |others|)
    ensures nodes != [] ==> LastHeld(tm, pool, nodes[|nodes| - 1], Ref(others, t), pool.refs)
  {
    if nodes != [] {
      CountByPositive(Image(nodes), |nodes| - 1);
      if nodes[|nodes| - 1].blob != null { CountValueAtLeast(Image(nodes), |nodes| - 1); }
    }
  }

  /** The record of a replaced version is disposed of. */
  method DisposeReplaced(tm: Manager, pool: Pool, last: VersionNode?, ghost others: seq<nat>, ghost held: seq<nat>)
    requires Steady(tm, pool, others, held) && (last != null ==> LastHeld(tm, pool, last, others, pool.refs))
    modifies tm`counts, tm`ring, tm.all`refcnt, tm.all`next, tm.all`prev, tm.transList`next, tm.transList`prev
    modifies pool`refs, pool.all`refcnt
    ensures tm.CountsOk() && tm.ListOk() && DepsBelow(tm.deps) && |old(tm.counts)| == |tm.deps| && pool.Ok()
    ensures last != null ==> last.creator.name < |tm.deps| && (last.blob != null ==> last.blob.bid < |old(pool.refs)|)
    ensures pool.refs == if last == null then old(pool.refs) else UnrefBlob(old(pool.refs), Val(last.blob))
    ensures tm.counts == if last == null then old(tm.counts) else Unref(old(tm.counts), tm.deps, last.creator.name)
  {
    if last != null {
      VersionDispose(tm, pool, last, others, held);
    }
  }

  /** Puts a new version at the end of the list, or in the place of the last one when that has the same id. */
  method AddVersion(tm: Manager, pool: Pool, e: MapEntry, tp: Transaction, blob: Blob?, ghost others: seq<nat>,
                    ghost held: seq<nat>)
    requires e.Linked() && Creators(tm, pool, e.nodes) && IdsKnown(tm, e.nodes) && tp.name < |tm.ids| &&
             tp.id == tm.ids[tp.name]
    requires tm.Has(tp) && pool.Has(blob) && Steady(tm, pool, others, held)
    requires Enough(others, pool.refs, Image(e.nodes), held)
    requires tp.name < |tm.counts| && tm.counts[tp.name] > 0 && CreatorsBelow(Image(e.nodes), |tm.ids|)
    modifies tm`counts, tm`ring, tm.all`refcnt, tm.all`next, tm.all`prev, tm.transList`next, tm.transList`prev
    modifies e`versions, e`nodes, e.nodes`next, pool`refs, pool.all`refcnt
    ensures e.Linked() && Creators(tm, pool, e.nodes) && tm.CountsOk() && tm.ListOk() && pool.Ok()
    ensures Image(e.nodes) == InstallId(Image(old(e.nodes)), tm.ids, Version(tp.name, Val(blob)))
    ensures DepsBelow(tm.deps) && |tm.deps| == |old(tm.counts)| && CreatorsBelow(Image(old(e.nodes)), |tm.deps|)
    ensures tm.counts == CountsWith(old(tm.counts), tm.deps, Image(old(e.nodes)), Image(e.nodes), tp.name)
    ensures ValuesBelow(Image(old(e.nodes)), |old(pool.refs)|)
    ensures pool.refs == ReplacedBlobs(old(pool.refs), Image(old(e.nodes)), Image(e.nodes))
    ensures forall n | n in e.nodes :: n in old(e.nodes) || fresh(n)
  {
    hide Steady, Enough, e.Linked, Creators, IdsKnown, InstallId, Unref, Ref, tm.Known, tm.CountsOk, tm.ListOk, Image,
         LastHeld, UnrefBlob, pool.Ok, ValuesBelow, CreatorsBelow, DepsBelow, Val;
    EnoughBelow(others, pool.refs, Image(e.nodes), held);
    var last := Enlist(tm, pool, e, tp, blob, others, held);
    DisposeReplaced(tm, pool, last, Ref(others, tp.name), held);
  }

  lemma EnoughBelow(others: seq<nat>, refs: seq<nat>, vs: seq<Version>, held: seq<nat>)
    requires Enough(others, refs, vs, held)
    ensures ValuesBelow(vs, |refs|)
  {
  }

  /** The new version is created, with a reference to its creator, and takes its place in the list. */
  method Enlist(tm: Manager, pool: Pool, e: MapEntry, tp: Transaction, blob: Blob?, ghost others: seq<nat>,
                ghost held: seq<nat>)
    returns (last: VersionNode?)
    requires e.Linked() && Creators(tm, pool, e.nodes) && IdsKnown(tm, e.nodes) && tp.name < |tm.ids| &&
             tp.id == tm.ids[tp.name]
    requires tm.Has(tp) && pool.Has(blob) && Steady(tm, pool, others, held)
    requires Enough(others, pool.refs, Image(e.nodes), held)
    requires tp.name < |tm.counts| && tm.counts[tp.name] > 0 && CreatorsBelow(Image(e.nodes), |tm.ids|)
    modifies tm`counts, tp`refcnt, e`versions, e`nodes, e.nodes`next
    ensures e.Linked() && Creators(tm, pool, e.nodes)
    ensures Image(e.nodes) == InstallId(Image(old(e.nodes)), tm.ids, Version(tp.name, Val(blob)))
    ensures forall n | n in e.nodes :: n in old(e.nodes) || fresh(n)
    ensures DepsBelow(tm.deps) && |tm.deps| == |old(tm.counts)| == |others| &&
            CreatorsBelow(Image(old(e.nodes)), |tm.deps|)
    ensures tm.counts == Ref(old(tm.counts), tp.name) && Steady(tm, pool, Ref(others, tp.name), held)
    ensures if |e.nodes| == |old(e.nodes)| && old(e.nodes) != []
            then last == old(e.nodes)[|old(e.nodes)| - 1] && LastHeld(tm, pool, last, Ref(others, tp.name), pool.refs)
            else last == null
  {
    hide *;
    var replace := SameId(tm, e, tp);
    AddFacts(tm, pool, e.nodes, tp.name, others, held);
    SteadyRest(tm, pool, others, held);
    var version := VersionCreate(tm, e, tp, blob);
    SteadyAgain(tm, pool, Ref(others, tp.name), held);
    PlacedImage(e.nodes, version, replace, tm.ids);
    PlacedCreators(tm, pool, e.nodes, version, replace);
    last := Place(e, version, replace);
  }

  method SameId(tm: Manager, e: MapEntry, tp: Transaction) returns (same: bool)
    requires e.Linked() && IdsKnown(tm, e.nodes) && tp.name < |tm.ids| && tp.id == tm.ids[tp.name] &&
             CreatorsBelow(Image(e.nodes), |tm.ids|)
    ensures same <==> e.nodes != [] && MaxId(Image(e.nodes), tm.ids) == tm.ids[tp.name]
  {
    if e.versions == null { return false; }
    var max := e.GetMaxId(tm.ids);
    same := max == tp.id;
  }

  lemma SteadyRest(tm: Manager, pool: Pool, others: seq<nat>, held: seq<nat>)
    requires Steady(tm, pool, others, held)
    ensures tm.DepsOk() && tm.StatusOk() && tm.WaitsOk() && AllHeard(tm.waits.waitcnt, tm.deps, held) && pool.Ok()
  {
  }

  lemma SteadyAgain(tm: Manager, pool: Pool, others: seq<nat>, held: seq<nat>)
    requires tm.Known() && tm.CountsOk() && tm.ListOk() && tm.DepsOk() && Graph(tm.counts, tm.deps, others)
    requires tm.StatusOk() && tm.WaitsOk() && AllHeard(tm.waits.waitcnt, tm.deps, held) && pool.Ok()
    ensures Steady(tm, pool, others, held)
  {
  }
}
