/** One map entry as it is laid out in memory: a key and its doubly linked version list. */
module VersionLinks {
  import opened Types
  import opened VersionLists
  import opened Machine
  import opened Transactions
  import opened Data
  import opened BlobPools

  class VersionNode {
    ghost const owner: MapEntry
    const creator: Transaction
    const blob: Blob?
    var next: VersionNode?
    var prev: VersionNode?

    constructor (ghost owner: MapEntry, creator: Transaction, blob: Blob?)
      ensures this.owner == owner && this.creator == creator && this.blob == blob && next == null && prev == null
    {
      this.owner, this.creator, this.blob, next, prev := owner, creator, blob, null, null;
    }
  }

  /** The abstract value of a list of version records. */
  ghost function Image(nodes: seq<VersionNode>): (r: seq<Version>)
    ensures |r| == |nodes|
    ensures forall i | 0 <= i < |nodes| :: r[i] == Version(nodes[i].creator.name, Val(nodes[i].blob))
  {
    seq(|nodes|, i requires 0 <= i < |nodes| => Version(nodes[i].creator.name, Val(nodes[i].blob)))
  }

  ghost function NodeAt(nodes: seq<VersionNode>, i: int): VersionNode? {
    if 0 <= i < |nodes| then nodes[i] else null
  }

  /** Walking from `head` on passes through `nodes` and then ends. */
  ghost predicate Follow(head: VersionNode?, nodes: seq<VersionNode>)
    reads nodes`next
  {
    head == NodeAt(nodes, 0) && forall i | 0 <= i < |nodes| :: nodes[i].next == NodeAt(nodes, i + 1)
  }

  ghost predicate Back(nodes: seq<VersionNode>)
    reads nodes`prev
  {
    forall i | 0 <= i < |nodes| :: nodes[i].prev == NodeAt(nodes, i - 1)
  }

  ghost predicate Apart(nodes: seq<VersionNode>) {
    forall i, j | 0 <= i < j < |nodes| :: nodes[i] != nodes[j]
  }

  /** It is one of the creators' ids, and none of them is greater. */
  lemma {:induction false} MaxIdExactly(vs: seq<Version>, ids: seq<nat>)
    requires vs != [] && CreatorsBelow(vs, |ids|)
    ensures exists i | 0 <= i < |vs| :: ids[vs[i].creator] == MaxId(vs, ids)
    ensures forall i | 0 <= i < |vs| :: ids[vs[i].creator] <= MaxId(vs, ids)
  {
    assert vs[0] in vs;
    if |vs| == 1 {
      assert ids[vs[0].creator] == MaxId(vs, ids);
    } else {
      MaxIdExactly(vs[1..], ids);
      var i :| 0 <= i < |vs[1..]| && ids[vs[1..][i].creator] == MaxId(vs[1..], ids);
      assert ids[vs[i + 1].creator] == MaxId(vs[1..], ids);
      assert forall i | 1 <= i < |vs| :: vs[i] == vs[1..][i - 1];
      assert ids[vs[0].creator] <= MaxId(vs, ids);
    }
  }

  lemma NodesMax(nodes: seq<VersionNode>, ids: seq<nat>)
    requires nodes != [] && CreatorsBelow(Image(nodes), |ids|)
    requires forall i | 0 <= i < |nodes| :: nodes[i].creator.id == ids[nodes[i].creator.name]
    ensures exists i | 0 <= i < |nodes| :: nodes[i].creator.id == MaxId(Image(nodes), ids)
    ensures forall i | 0 <= i < |nodes| :: nodes[i].creator.id <= MaxId(Image(nodes), ids)
  {
    MaxIdExactly(Image(nodes), ids);
    hide MaxId;
    assert forall i | 0 <= i < |nodes| :: ids[Image(nodes)[i].creator] == nodes[i].creator.id;
  }

  /** The greater of `max` and the greatest creator id from `i` on. */
  ghost function MaxFrom(vs: seq<Version>, ids: seq<nat>, i: nat, max: int): int
    requires CreatorsBelow(vs, |ids|) && i <= |vs|
  {
    if i == |vs| || MaxId(vs[i..], ids) < max then max else MaxId(vs[i..], ids)
  }

  lemma MaxFromFirst(vs: seq<Version>, ids: seq<nat>)
    requires CreatorsBelow(vs, |ids|) && vs != []
    ensures MaxId(vs, ids) == MaxFrom(vs, ids, 1, ids[vs[0].creator])
    ensures |vs| == 1 ==> MaxFrom(vs, ids, 1, ids[vs[0].creator]) == ids[vs[0].creator]
  {
  }

  lemma MaxFromNext(vs: seq<Version>, ids: seq<nat>, i: nat, max: int)
    requires CreatorsBelow(vs, |ids|) && i < |vs|
    ensures var id := ids[vs[i].creator]; var more := if max < id then id else max;
            && MaxFrom(vs, ids, i, max) == MaxFrom(vs, ids, i + 1, more)
            && (i + 1 == |vs| ==> MaxFrom(vs, ids, i + 1, more) == more)
  {
    assert vs[i..][1..] == vs[i + 1..] && vs[i..][0] == vs[i];
  }

  ghost function Dropped(s: seq<VersionNode>, j: nat): (r: seq<VersionNode>)
    requires j < |s|
    ensures r == s[..j] + s[j + 1..]
    ensures |r| == |s| - 1 && forall i | 0 <= i < |r| :: r[i] == s[if i < j then i else i + 1]
  {
    s[..j] + s[j + 1..]
  }

  class MapEntry {
    const key: StoredKey
    const next: MapEntry?
    var versions: VersionNode?
    ghost var nodes: seq<VersionNode>

    constructor (key: StoredKey, next: MapEntry?)
      ensures this.key == key && this.next == next && nodes == [] && Linked()
    {
      this.key, this.next, versions, nodes := key, next, null, [];
    }

    ghost predicate Linked()
      reads this`versions, this`nodes, nodes`next, nodes`prev
    {
      Follow(versions, nodes) && Back(nodes) && Apart(nodes) && Own(nodes)
    }

    ghost predicate Own(nodes: seq<VersionNode>) {
      forall i | 0 <= i < |nodes| :: nodes[i].owner == this
    }

    /** remove_node: finds a record from the head of the list on and unlinks it. */
    method RemoveNode(node: VersionNode, ghost j: nat)
      requires Linked() && j < |nodes| && nodes[j] == node
      modifies this`versions, this`nodes, nodes`next, nodes`prev
      ensures Linked() && nodes == Dropped(old(nodes), j)
    {
      if versions == node {
        assert j == 0;
        Unlink(null, node, j);
      } else {
        var prev, head := versions, versions.next;
        ghost var i := 1;
        while head != node
          invariant 1 <= i <= j && prev == nodes[i - 1] && head == nodes[i]
          decreases j - i
        {
          prev, head := head, head.next;
          i := i + 1;
        }
        assert i == j;
        Unlink(prev, head, j);
      }
    }

    method Unlink(prev: VersionNode?, head: VersionNode, ghost j: nat)
      requires Linked() && j < |nodes| && nodes[j] == head && prev == NodeAt(nodes, j - 1)
      modifies this`versions, this`nodes, nodes`next, nodes`prev
      ensures Linked() && nodes == Dropped(old(nodes), j)
    {
      hide Follow, Back, Own, Apart, NodeAt;
      DroppedApart(nodes, j);
      NextAt(j);
      var after := head.next;
      UnlinkForward(prev, after, j);
      UnlinkBack(prev, after, j);
      nodes := Dropped(nodes, j);
    }

    lemma NextAt(j: nat)
      requires Linked() && j < |nodes|
      ensures nodes[j].next == NodeAt(nodes, j + 1)
    {
    }

    method UnlinkForward(prev: VersionNode?, after: VersionNode?, ghost j: nat)
      requires Follow(versions, nodes) && Apart(nodes) && j < |nodes| && prev == NodeAt(nodes, j - 1) &&
               after == NodeAt(nodes, j + 1)
      modifies this`versions, nodes`next
      ensures Follow(versions, Dropped(nodes, j))
    {
      if prev == null { versions := after; } else { prev.next := after; }
      ghost var r := Dropped(nodes, j);
      forall i | 0 <= i < |r| ensures r[i].next == NodeAt(r, i + 1) {
        assert r[i] == nodes[if i < j then i else i + 1];
      }
    }

    method UnlinkBack(prev: VersionNode?, after: VersionNode?, ghost j: nat)
      requires Back(nodes) && Apart(nodes) && j < |nodes| && prev == NodeAt(nodes, j - 1) &&
               after == NodeAt(nodes, j + 1)
      modifies nodes`prev
      ensures Back(Dropped(nodes, j))
    {
      assert after != null ==> j + 1 < |nodes| && nodes[j + 1] == after;
      if after != null { after.prev := prev; }
      assert forall i | 0 <= i < |nodes| && i != j + 1 :: nodes[i].prev == NodeAt(nodes, i - 1);
      ghost var r := Dropped(nodes, j);
      forall i | 0 <= i < |r| ensures r[i].prev == NodeAt(r, i - 1) {
        assert r[i] == nodes[if i < j then i else i + 1];
      }
    }

    lemma DroppedApart(nodes: seq<VersionNode>, j: nat)
      requires Apart(nodes) && Own(nodes) && j < |nodes|
      ensures Apart(Dropped(nodes, j)) && Own(Dropped(nodes, j))
    {
    }

    /** remove_later_list, up to the disposal: the list now ends before the record. */
    method CutBefore(head: VersionNode, ghost j: nat)
      requires Linked() && j < |nodes| && nodes[j] == head
      modifies this`versions, this`nodes, nodes`next
      ensures Linked() && nodes == old(nodes)[..j] && Follow(head, old(nodes)[j..])
    {
      hide Follow, Back, Apart, Own;
      FrontApart(j);
      Cut(head, j);
      nodes := nodes[..j];
    }

    method Cut(head: VersionNode, ghost j: nat)
      requires Follow(versions, nodes) && Back(nodes) && Apart(nodes) && j < |nodes| && nodes[j] == head
      modifies this`versions, nodes`next
      ensures Follow(versions, nodes[..j]) && Back(nodes[..j]) && Follow(head, nodes[j..])
    {
      if head.prev == null { versions := null; } else { head.prev.next := null; }
    }

    lemma FrontApart(j: nat)
      requires Apart(nodes) && Own(nodes) && j < |nodes|
      ensures Apart(nodes[..j]) && Own(nodes[..j])
    {
    }

    /** add_version_end. */
    method AddVersionEnd(version: VersionNode)
      requires Linked() && version.owner == this && version !in nodes && version.next == null && version.prev == null
      modifies this`versions, this`nodes, nodes`next, version`prev
      ensures Linked() && nodes == old(nodes) + [version]
    {
      hide Follow, Back, Own, Apart;
      AppendedApart(nodes, version);
      FirstNode(version);
      if versions == null {
        versions := version;
      } else {
        var last := Last();
        LinkBack(last, version);
        LinkForward(last, version);
      }
      nodes := nodes + [version];
    }

    method LinkBack(last: VersionNode, version: VersionNode)
      requires Back(nodes) && version !in nodes && nodes != [] && last == nodes[|nodes| - 1]
      modifies version`prev
      ensures Back(nodes + [version])
    {
      version.prev := last;
      forall i | 0 <= i < |nodes + [version]| ensures (nodes + [version])[i].prev == NodeAt(nodes + [version], i - 1) {
        assert i < |nodes| ==> nodes[i].prev == NodeAt(nodes, i - 1);
      }
    }

    method LinkForward(last: VersionNode, version: VersionNode)
      requires Follow(versions, nodes) && Apart(nodes) && version !in nodes && version.next == null
      requires nodes != [] && last == nodes[|nodes| - 1]
      modifies nodes`next
      ensures Follow(versions, nodes + [version])
    {
      last.next := version;
    }

    lemma AppendedApart(nodes: seq<VersionNode>, version: VersionNode)
      requires Apart(nodes) && Own(nodes) && version !in nodes && version.owner == this
      ensures Apart(nodes + [version]) && Own(nodes + [version])
    {
    }

    lemma FirstNode(version: VersionNode)
      requires Linked() && version.next == null && version.prev == null
      ensures versions == null <==> nodes == []
      ensures nodes == [] ==> nodes + [version] == [version]
      ensures Back([version]) && Follow(version, [version])
    {
    }

    /** The walk to the end of the list. */
    method Last() returns (head: VersionNode)
      requires Linked() && nodes != []
      ensures head == nodes[|nodes| - 1]
    {
      head := versions;
      ghost var i := 0;
      while head.next != null
        invariant 0 <= i < |nodes| && head == nodes[i]
        decreases |nodes| - i
      {
        head := head.next;
        i := i + 1;
      }
    }

    /** replace_last_version: the replaced record is left to be disposed of. */
    method ReplaceLastVersion(version: VersionNode) returns (last: VersionNode)
      requires Linked() && nodes != [] && version.owner == this && version !in nodes && version.next == null &&
               version.prev == null
      modifies this`versions, this`nodes, nodes`next, version`prev
      ensures Linked() && nodes == old(nodes)[..|old(nodes)| - 1] + [version] && last == old(nodes)[|old(nodes)| - 1]
    {
      hide Follow, Back, Apart, Own;
      last := Last();
      ExchangedApart(version);
      Exchange(last, version);
      nodes := nodes[..|nodes| - 1] + [version];
    }

    /** The links: those of the record before the last one, or the head, and those of the new record. */
    method Exchange(last: VersionNode, version: VersionNode)
      requires Follow(versions, nodes) && Back(nodes) && Apart(nodes) && nodes != [] && last == nodes[|nodes| - 1]
      requires version !in nodes && version.next == null && version.prev == null
      modifies this`versions, nodes`next, version`prev
      ensures Follow(versions, nodes[..|nodes| - 1] + [version]) && Back(nodes[..|nodes| - 1] + [version])
    {
      if last.prev == null {
        versions := version;
      } else {
        last.prev.next := version;
        version.prev := last.prev;
      }
      ghost var r := nodes[..|nodes| - 1] + [version];
      assert |r| == |nodes| && forall i | 0 <= i < |nodes| - 1 :: r[i] == nodes[i];
    }

    lemma ExchangedApart(version: VersionNode)
      requires Apart(nodes) && Own(nodes) && nodes != [] && version !in nodes && version.owner == this
      ensures Apart(nodes[..|nodes| - 1] + [version]) && Own(nodes[..|nodes| - 1] + [version])
    {
    }

    /** get_preceding_value: the value of the last version. */
    method GetPrecedingValue() returns (blob: Blob?)
      requires Linked()
      ensures blob == if nodes == [] then null else nodes[|nodes| - 1].blob
      ensures Val(blob) == LastValue(Image(nodes))
    {
      if versions == null { return null; }
      var last := Last();
      return last.blob;
    }

    /** get_max_id. */
    method GetMaxId(ghost ids: seq<nat>) returns (max: int)
      requires Linked() && nodes != [] && CreatorsBelow(Image(nodes), |ids|)
      requires forall i | 0 <= i < |nodes| :: nodes[i].creator.id == ids[nodes[i].creator.name]
      ensures max == MaxId(Image(nodes), ids)
      ensures (exists i | 0 <= i < |nodes| :: nodes[i].creator.id == max) &&
              forall i | 0 <= i < |nodes| :: nodes[i].creator.id <= max
    {
      NodesMax(nodes, ids);
      max := versions.creator.id;
      var head := versions.next;
      ghost var vs, i := Image(nodes), 1;
      MaxFromFirst(vs, ids);
      hide MaxFrom, MaxId, Image, Back, Apart, Own;
      while head != null
        invariant 1 <= i <= |nodes| && head == NodeAt(nodes, i)
        invariant MaxId(vs, ids) == MaxFrom(vs, ids, i, max)
        invariant i == |nodes| ==> MaxFrom(vs, ids, i, max) == max
        decreases |nodes| - i
      {
        MaxFromNext(vs, ids, i, max);
        if max < head.creator.id { max := head.creator.id; }
        head := head.next;
        i := i + 1;
      }
    }
  }
}
