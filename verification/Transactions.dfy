/** The transaction manager as it is laid out in memory: transaction records on a circular, doubly linked
    list, changed in place. */
module Transactions {
  import opened Types
  import opened VersionLists
  import opened Protocol
  import opened References
  import opened Waiting
  import opened Machine
  import opened Counting
  import opened Books
  import opened MachineInvariant
  import opened Invariant
  import opened Ids

  class Transaction {
    ghost const name: Tid
    ghost const sentinel: bool
    const id: int
    var refcnt: nat
    var status: Status
    var depends: seq<Transaction>
    var waitcnt: nat
    var sem: nat
    var next: Transaction?
    var prev: Transaction?

    constructor (ghost name: Tid, id: int, refcnt: nat, ghost sentinel: bool := false)
      ensures this.name == name && this.sentinel == sentinel && this.id == id && this.refcnt == refcnt
      ensures status == Pending && depends == [] && waitcnt == 0 && sem == 0
    {
      this.name, this.sentinel, this.id, this.refcnt := name, sentinel, id, refcnt;
      status, depends, waitcnt, sem, next, prev := Pending, [], 0, 0, null, null;
    }
  }

  /** A dependency graph whose books balance. */
  ghost predicate Graph(counts: seq<nat>, deps: seq<seq<Tid>>, others: seq<nat>) {
    && DepsBelow(deps) && (forall u | 0 <= u < |deps| :: NoRepeats(deps[u]))
    && Balanced(counts, deps, others)
  }

  /** The ghost fields are the abstract value: `all` lists the records in the order of creation, `ring` the
      linked list from the sentinel round to itself, the others the fields of the records. */
  class Manager {
    const transList: Transaction
    ghost var all: seq<Transaction>
    ghost var ring: seq<Transaction>
    ghost var ids: seq<nat>
    ghost var counts: seq<nat>
    ghost var status: seq<Status>
    ghost var deps: seq<seq<Tid>>
    ghost var waits: Waits

    ghost predicate Known()
      reads this`all
    {
      transList.sentinel && forall i | 0 <= i < |all| :: all[i].name == i && !all[i].sentinel
    }

    ghost predicate Has(tp: Transaction)
      reads this`all
    {
      tp.name < |all| && all[tp.name] == tp
    }

    ghost predicate IdsOk()
      reads this`all, this`ids
    {
      |ids| == |all| && forall i | 0 <= i < |all| :: all[i].id == ids[i]
    }

    ghost predicate CountsOk()
      reads this`all, this`counts, all`refcnt
    {
      |counts| == |all| && forall i | 0 <= i < |all| :: all[i].refcnt == counts[i]
    }

    ghost predicate StatusOk()
      reads this`all, this`status, all`status
    {
      |status| == |all| && forall i | 0 <= i < |all| :: all[i].status == status[i]
    }

    ghost predicate WaitsOk()
      reads this`all, this`waits, all`waitcnt, all`sem
    {
      && |waits.phase| == |waits.waitcnt| == |waits.sem| == |all|
      && forall i | 0 <= i < |all| :: all[i].waitcnt == waits.waitcnt[i] && all[i].sem == waits.sem[i]
    }

    /** `ds` are the transactions named by `ns`. */
    ghost predicate Named(ds: seq<Transaction>, ns: seq<Tid>)
      reads this`all
    {
      |ds| == |ns| && forall j | 0 <= j < |ns| :: ns[j] < |all| && ds[j] == all[ns[j]]
    }

    ghost predicate DepsOk()
      reads this`all, this`deps, all`depends
    {
      |deps| == |all| && forall i | 0 <= i < |all| :: Named(all[i].depends, deps[i])
    }

    /** The list links every record to its neighbours, in both directions. */
    ghost predicate Linked()
      reads this`ring, ring`next, ring`prev
    {
      forall i | 0 <= i < |ring| - 1 :: ring[i].next == ring[i + 1] && ring[i + 1].prev == ring[i]
    }

    /** It holds the live transactions, the newest first. */
    ghost predicate Members(all: seq<Transaction>, ring: seq<Transaction>, counts: seq<nat>) {
      && |ring| >= 2 && ring[0] == transList && ring[|ring| - 1] == transList
      && |counts| == |all|
      && (forall i | 0 < i < |ring| - 1 :: ring[i].name < |all| && all[ring[i].name] == ring[i] &&
           counts[ring[i].name] > 0)
      && (forall i, j | 0 < i < j < |ring| - 1 :: ring[i].name > ring[j].name)
      && (forall t | 0 <= t < |counts| && counts[t] > 0 :: all[t] in ring)
    }

    ghost predicate ListOk()
      reads this`all, this`ring, this`counts, ring`next, ring`prev
    {
      Linked() && Members(all, ring, counts)
    }

    /** trans_init: only the links of the sentinel are ever read. */
    constructor ()
      ensures Known() && all == [] && fresh(transList)
      ensures IdsOk() && CountsOk() && StatusOk() && WaitsOk() && DepsOk() && ListOk()
    {
      transList := new Transaction(0, -1, 0, true);
      all, ids, counts, status, deps, waits := [], [], [], [], [], Waits([], [], []);
      new;
      transList.next, transList.prev := transList, transList;
      ring := [transList, transList];
    }

    // ----- Reference counts

    method TransRef(tp: Transaction) returns (r: Transaction)
      requires Known() && Has(tp) && CountsOk() && ListOk() && counts[tp.name] > 0
      modifies this`counts, tp`refcnt
      ensures CountsOk() && ListOk() && counts == Ref(old(counts), tp.name)
      ensures r == tp
    {
      hide Members;
      tp.refcnt := tp.refcnt + 1;
      MembersSame(counts, Ref(counts, tp.name));
      counts := Ref(counts, tp.name);
      r := tp;
    }

    /** The list passes through every record once. */
    ghost predicate Distinct()
      reads this`ring
    {
      && (forall i, j | 0 <= i < j < |ring| - 1 :: ring[i] != ring[j])
      && (forall i, j | 0 < i < j < |ring| :: ring[i] != ring[j])
    }

    lemma MembersDistinct(counts: seq<nat>)
      requires Known() && Members(all, ring, counts)
      ensures Distinct()
    {
    }

    lemma PositionOf(tp: Transaction, counts: seq<nat>) returns (j: nat)
      requires Known() && Has(tp) && Members(all, ring, counts) && counts[tp.name] > 0
      ensures 0 < j < |ring| - 1 && ring[j] == tp && ring[0] == transList && Distinct()
      ensures forall i | 0 <= i < |ring| :: ring[i] in all || ring[i] == transList
      ensures forall i | 0 < i < |ring| - 1 && i != j :: ring[i] != tp
    {
      MembersDistinct(counts);
      j :| 0 <= j < |ring| && ring[j] == tp;
    }

    /** remove_from_translist, up to the dependency list: finds the record of a transaction that has just
        lost its last reference and unlinks it. */
    method RemoveFromTranslist(tp: Transaction)
      requires Known() && Has(tp) && |counts| == |all| && Linked() && Members(all, ring, counts[tp.name := 1]) &&
               counts[tp.name] == 0
      modifies this`ring, all`next, all`prev, transList`next, transList`prev
      ensures ListOk()
    {
      hide Members, Known, Distinct;
      ghost var j := PositionOf(tp, counts[tp.name := 1]);
      ghost var i := 1;
      var head := transList.next;
      while head != tp
        invariant 1 <= i <= j && head == ring[i]
        decreases j - i
      {
        head := head.next;
        i := i + 1;
      }
      assert i == j;
      MembersWithout(j, counts);
      Unlink(head, j);
    }

    lemma MembersWithout(j: nat, counts: seq<nat>)
      requires Known() && |counts| == |all| && 0 < j < |ring| - 1 && Has(ring[j]) && counts[ring[j].name] == 0
      requires Members(all, ring, counts[ring[j].name := 1])
      ensures Members(all, Without(ring, j), counts)
    {
      var n := ring[j].name;
      var r := Without(ring, j);
      MembersLeft(j, r, counts[n := 1], counts);
      MembersStay(j, r, counts[n := 1], counts);
    }

    lemma MembersLeft(j: nat, r: seq<Transaction>, before: seq<nat>, counts: seq<nat>)
      requires |counts| == |before| && 0 < j < |ring| - 1 && Members(all, ring, before)
      requires |r| == |ring| - 1 && forall i | 0 <= i < |r| :: r[i] == ring[if i < j then i else i + 1]
      requires forall t | 0 <= t < |counts| && t != ring[j].name :: counts[t] == before[t]
      ensures forall i | 0 < i < |r| - 1 :: r[i].name < |all| && all[r[i].name] == r[i] && counts[r[i].name] > 0
      ensures forall i, k | 0 < i < k < |r| - 1 :: r[i].name > r[k].name
    {
    }

    lemma MembersStay(j: nat, r: seq<Transaction>, before: seq<nat>, counts: seq<nat>)
      requires |counts| == |before| && 0 < j < |ring| - 1 && Members(all, ring, before)
      requires |r| == |ring| - 1 && forall i | 0 <= i < |r| :: r[i] == ring[if i < j then i else i + 1]
      requires Known() && Has(ring[j]) && counts[ring[j].name] == 0
      requires forall t | 0 <= t < |counts| && t != ring[j].name :: counts[t] == before[t]
      ensures forall t | 0 <= t < |counts| && counts[t] > 0 :: all[t] in r
    {
      forall t | 0 <= t < |counts| && counts[t] > 0 ensures all[t] in r {
        var i :| 0 <= i < |ring| && ring[i] == all[t];
        assert r[if i < j then i else i - 1] == all[t];
      }
    }

    lemma MembersSame(counts: seq<nat>, counts': seq<nat>)
      requires Members(all, ring, counts) && |counts| == |counts'|
      requires forall t | 0 <= t < |counts| :: counts[t] > 0 <==> counts'[t] > 0
      ensures Members(all, ring, counts')
    {
    }

    method Unlink(head: Transaction, ghost j: nat)
      requires 0 < j < |ring| - 1 && ring[j] == head && Linked() && Distinct()
      modifies this`ring, ring`next, ring`prev
      ensures ring == Without(old(ring), j) && Linked()
    {
      assert head.prev == ring[j - 1] && head.next == ring[j + 1] by { assert ring[j - 1 + 1] == ring[j]; }
      head.prev.next := head.next;
      head.next.prev := head.prev;
      ring := Without(ring, j);
    }

    /** What trans_unref needs of the state, and keeps. */
    ghost predicate Sound(others: seq<nat>)
      reads this`all, this`ring, this`counts, this`deps, all`refcnt, all`depends, ring`next, ring`prev
    {
      Known() && CountsOk() && ListOk() && DepsOk() && Graph(counts, deps, others)
    }

    lemma SoundLive(tp: Transaction, others: seq<nat>)
      requires Has(tp) && Sound(others) && others[tp.name] > 0
      ensures |counts| == |all| == |deps| == |others| && tp.refcnt == counts[tp.name] > 0
      ensures Graph(counts, deps, others)
      ensures Named(tp.depends, deps[tp.name]) &&
              Owed(deps[tp.name], tp.name, Plus(others[tp.name := others[tp.name] - 1], deps[tp.name]))
    {
    }

    lemma MembersLess(counts: seq<nat>, t: Tid)
      requires Members(all, ring, counts) && t < |counts| && counts[t] > 0
      ensures var less := counts[t := counts[t] - 1];
              if less[t] == 0 then Members(all, ring, less[t := 1]) else Members(all, ring, less)
    {
      var less := counts[t := counts[t] - 1];
      if less[t] == 0 { assert less[t := 1] == counts; } else { MembersSame(counts, less); }
    }

    method Decrement(tp: Transaction)
      requires Known() && Has(tp) && CountsOk() && ListOk() && counts[tp.name] > 0
      modifies this`counts, tp`refcnt
      ensures CountsOk() && counts == old(counts)[tp.name := old(counts[tp.name]) - 1]
      ensures tp.refcnt == counts[tp.name]
      ensures if counts[tp.name] == 0 then Linked() && Members(all, ring, counts[tp.name := 1]) else ListOk()
    {
      hide Members;
      ghost var t, before := tp.name, counts;
      MembersLess(counts, t);
      tp.refcnt := tp.refcnt - 1;
      counts := counts[t := counts[t] - 1];
    }

    /** trans_unref; nothing happens without a transaction. */
    method TransUnref(tp: Transaction?, ghost others: seq<nat>)
      requires tp != null ==> Has(tp) && Sound(others) && others[tp.name] > 0
      modifies this`counts, this`ring, all`refcnt, all`next, all`prev, transList`next, transList`prev
      ensures tp == null ==> counts == old(counts) && ring == old(ring)
      ensures tp != null ==>
                Sound(others[tp.name := others[tp.name] - 1]) && counts == Unref(old(counts), deps, tp.name)
    {
      if tp != null { Drop(tp, others); }
    }

    /** Drops one reference; the last one frees the record. */
    method Drop(tp: Transaction, ghost others: seq<nat>)
      requires Has(tp) && Sound(others) && others[tp.name] > 0
      modifies this`counts, this`ring, all`refcnt, all`next, all`prev, transList`next, transList`prev
      ensures Sound(others[tp.name := others[tp.name] - 1]) && counts == Unref(old(counts), deps, tp.name)
      decreases 2 * tp.name + 1, 0
    {
      hide Known, CountsOk, DepsOk, Graph, Members, Linked, Named, Owed, Minus, Plus, Unref, UnrefAll, DepsBelow;
      ghost var t: Tid := tp.name;
      SoundLive(tp, others);
      UnrefStep(counts, deps, others, t);
      Decrement(tp);
      if tp.refcnt == 0 {
        Free(tp, t, Plus(others[t := others[t] - 1], deps[t]));
      }
    }

    lemma FreeFacts(tp: Transaction, t: Tid, owed: seq<nat>)
      requires Known() && Has(tp) && tp.name == t && CountsOk() && DepsOk() && Graph(counts, deps, owed)
      requires Owed(deps[t], t, owed)
      ensures Named(tp.depends, deps[t]) && DepsBelow(deps)
      ensures |deps| == |counts| == |all| == |owed| && t < |counts| && forall d | d in deps[t] :: d < t
    {
    }

    /** The record has lost its last reference: it is unlinked and its dependency list deleted. */
    method Free(tp: Transaction, ghost t: Tid, ghost owed: seq<nat>)
      requires Known() && Has(tp) && tp.name == t && CountsOk() && DepsOk() && Graph(counts, deps, owed)
      requires Linked() && |counts| == |all| && counts[t] == 0 && Members(all, ring, counts[t := 1]) &&
               Owed(deps[t], t, owed)
      modifies this`counts, this`ring, all`refcnt, all`next, all`prev, transList`next, transList`prev
      ensures Sound(Minus(owed, deps[t])) && counts == UnrefAll(old(counts), deps, deps[t], t)
      decreases 2 * t, 2
    {
      hide Known, CountsOk, ListOk, DepsOk, Graph, Members, Linked, Named, Owed, Minus, UnrefAll, DepsBelow;
      FreeFacts(tp, t, owed);
      RemoveFromTranslist(tp);
      DeleteDependencyList(tp.depends, deps[t], t, owed);
    }

    lemma OwedFirst(ds: seq<Transaction>, ns: seq<Tid>, bound: Tid, owed: seq<nat>)
      requires Named(ds, ns) && ds != [] && Sound(owed) && Owed(ns, bound, owed) && bound <= |counts|
      ensures ns != [] && ds[0].name == ns[0] && Has(ds[0]) && Named(ds[1..], ns[1..])
      ensures DepsBelow(deps) && |counts| == |deps| == |owed| && ns[0] < bound && owed[ns[0]] > 0
    {
      assert ns[0] in ns;
    }

    lemma DeleteFacts(head: seq<Transaction>, ns: seq<Tid>, bound: Tid, owed: seq<nat>)
      requires Sound(owed) && bound <= |counts| && Named(head, ns) && Owed(ns, bound, owed)
      ensures DepsBelow(deps) && |counts| == |deps| == |owed| && (forall d | d in ns :: d < bound) && |head| == |ns|
    {
    }

    /** delete_dependency_list: every node of a freed transaction gives its reference back. */
    method DeleteDependencyList(head: seq<Transaction>, ghost ns: seq<Tid>, ghost bound: Tid, ghost owed: seq<nat>)
      requires Sound(owed) && bound <= |counts| && Named(head, ns) && Owed(ns, bound, owed)
      modifies this`counts, this`ring, all`refcnt, all`next, all`prev, transList`next, transList`prev
      ensures Sound(Minus(owed, ns)) && counts == UnrefAll(old(counts), deps, ns, bound)
      decreases 2 * bound, 1
    {
      hide Sound, Named, Owed, Unref, UnrefAll, Minus, DepsBelow;
      DeleteFacts(head, ns, bound, owed);
      var curr := head;
      ghost var rest: seq<Tid>, left := ns, owed;
      while curr != []
        invariant Named(curr, rest) && Owed(rest, bound, left) && Sound(left)
        invariant |counts| == |deps| == |left| && |curr| == |rest| && forall d | d in rest :: d < bound
        invariant UnrefAll(counts, deps, rest, bound) == UnrefAll(old(counts), deps, ns, bound)
        invariant Minus(left, rest) == Minus(owed, ns)
        decreases |curr|
      {
        assert forall d | d in rest[1..] :: d in rest;
        OwedFirst(curr, rest, bound, left);
        OwedStep(counts, deps, rest, bound, left);
        Drop(curr[0], left);
        left := left[rest[0] := left[rest[0]] - 1];
        curr, rest := curr[1..], rest[1..];
      }
      NothingOwed(counts, deps, bound, left);
    }

    // ----- Creation

    lemma NewestIsFirst()
      requires Known() && Members(all, ring, counts)
      ensures |ring| == 2 <==> NewestLive(counts).None?
      ensures |ring| > 2 ==> NewestLive(counts) == Some(ring[1].name)
    {
      NewestLiveInRange(counts);
      if |ring| > 2 {
        assert counts[ring[1].name] > 0;
        var n := NewestLive(counts).value;
        var i :| 0 <= i < |ring| && ring[i] == all[n];
        assert ring[1].name >= ring[i].name;
      }
    }

    /** The id that trans_create gives out: one more than the first of the list, or zero. */
    lemma FirstId()
      requires Known() && IdsOk() && Members(all, ring, counts)
      ensures NextId(ids, counts) == if |ring| == 2 then 0 else ring[1].id + 1
    {
      NewestIsFirst();
    }

    method TransCreate() returns (tp: Transaction)
      requires Known() && IdsOk() && CountsOk() && StatusOk() && WaitsOk() && DepsOk() && ListOk()
      modifies this`all, this`ring, this`ids, this`counts, this`status, this`deps, this`waits
      modifies all`next, all`prev, transList`next, transList`prev
      ensures tp.refcnt == 1 && tp.status == Pending && tp.depends == []
      ensures fresh(tp) && all == old(all) + [tp] && Has(tp) && tp.id == NextId(old(ids), old(counts))
      ensures ids == old(ids) + [NextId(old(ids), old(counts))] && counts == old(counts) + [1]
      ensures status == old(status) + [Pending] && deps == old(deps) + [[]]
      ensures waits == Waiting.Enter(old(waits))
      ensures Known() && IdsOk() && CountsOk() && StatusOk() && WaitsOk() && DepsOk() && ListOk()
    {
      hide Known, IdsOk, CountsOk, StatusOk, WaitsOk, DepsOk, Linked, Members, Distinct, NextId;
      FirstId();
      RingEnds(counts);
      var id := 0;
      if transList.next != transList || transList.prev != transList {
        id := transList.next.id + 1;
      }
      tp := new Transaction(|all|, id, 1);
      MembersWith(tp);
      Enter(tp);
      Link(tp, ring[1]);
    }

    lemma RingEnds(counts: seq<nat>)
      requires Known() && Linked() && Members(all, ring, counts)
      ensures Distinct() && |ring| >= 2 && ring[0] == ring[|ring| - 1] == transList && |counts| == |all|
      ensures transList.next == ring[1] && ring[1].prev == transList
      ensures transList.next == transList && transList.prev == transList <==> |ring| == 2
      ensures ring[1] in all || ring[1] == transList
    {
      MembersDistinct(counts);
    }

    lemma MembersWith(tp: Transaction)
      requires Known() && Members(all, ring, counts) && tp.name == |all| && !tp.sentinel
      ensures tp !in all && tp !in ring && Members(all + [tp], [transList, tp] + ring[1..], counts + [1])
    {
      var all', r, cs := all + [tp], [transList, tp] + ring[1..], counts + [1];
      assert forall i | 1 < i < |r| :: r[i] == ring[i - 1];
      forall t | 0 <= t < |cs| && cs[t] > 0 ensures all'[t] in r {
        if t < |all| {
          var i :| 0 <= i < |ring| && ring[i] == all[t];
          assert 0 < i && r[i + 1] == all[t];
        } else {
          assert r[1] == tp;
        }
      }
    }

    /** The new record joins the abstract value. */
    ghost method Enter(tp: Transaction)
      requires Known() && IdsOk() && CountsOk() && StatusOk() && WaitsOk() && DepsOk() && |counts| == |all|
      requires tp.name == |all| && !tp.sentinel && tp.id >= 0 && tp.refcnt == 1 && tp.status == Pending &&
               tp.depends == []
      requires tp.waitcnt == 0 && tp.sem == 0
      modifies this`all, this`ids, this`counts, this`status, this`deps, this`waits
      ensures all == old(all) + [tp] && ids == old(ids) + [tp.id] && counts == old(counts) + [1]
      ensures status == old(status) + [Pending] && deps == old(deps) + [[]]
      ensures waits == Waiting.Enter(old(waits))
      ensures Known() && IdsOk() && CountsOk() && StatusOk() && WaitsOk() && DepsOk()
    {
      ids, counts, status, deps := ids + [tp.id], counts + [1], status + [Pending], deps + [[]];
      waits, all := Waiting.Enter(waits), all + [tp];
    }

    method Link(tp: Transaction, ghost first: Transaction)
      requires Linked() && Distinct() && tp !in ring && |ring| >= 2 && ring[0] == ring[|ring| - 1] == transList &&
               first == ring[1]
      modifies this`ring, tp`next, tp`prev, first`prev, transList`next
      ensures Linked() && ring == old([transList, tp] + ring[1..])
    {
      assert ring[0].next == ring[1] && ring[1].prev == ring[0] && ring[|ring| - 2].next == ring[|ring| - 1];
      if transList.next == transList && transList.prev == transList {
        assert |ring| == 2;
        tp.next, tp.prev := transList, transList;
        transList.next, transList.prev := tp, tp;
      } else {
        tp.next := transList.next;
        tp.next.prev := tp;
        tp.prev := transList;
        transList.next := tp;
      }
      ring := [transList, tp] + ring[1..];
    }

    // ----- Dependencies

    /** check_dependency. */
    method CheckDependency(dtp: Transaction, depends: seq<Transaction>) returns (found: bool)
      ensures found <==> dtp in depends
    {
      var head := depends;
      while head != []
        invariant dtp in depends <==> dtp in head
        decreases |head|
      {
        if head[0] == dtp { return true; }
        head := head[1..];
      }
      return false;
    }

    lemma NamedHas(dtp: Transaction, ds: seq<Transaction>, ns: seq<Tid>)
      requires Known() && Has(dtp) && Named(ds, ns)
      ensures dtp in ds <==> dtp.name in ns
    {
      if dtp.name in ns {
        var j :| 0 <= j < |ns| && ns[j] == dtp.name;
        assert ds[j] == dtp;
      }
      if dtp in ds {
        var j :| 0 <= j < |ds| && ds[j] == dtp;
        assert ns[j] == dtp.name;
      }
    }

    /** trans_add_dependency: a new node at the head of the list, unless there is one already. */
    method TransAddDependency(tp: Transaction, dtp: Transaction)
      requires Known() && Has(tp) && Has(dtp) && DepsOk() && CountsOk() && ListOk() && counts[dtp.name] > 0
      modifies this`counts, this`deps, tp`depends, dtp`refcnt
      ensures DepsOk() && CountsOk() && ListOk()
      ensures var ds := old(deps[tp.name]); var d := dtp.name;
              && deps == old(deps)[tp.name := if d in ds then ds else [d] + ds]
              && counts == if d in ds then old(counts) else Ref(old(counts), d)
    {
      NamedHas(dtp, tp.depends, deps[tp.name]);
      if tp.depends == [] {
        NewDependency(tp, dtp);
      } else {
        var found := CheckDependency(dtp, tp.depends);
        if !found { NewDependency(tp, dtp); }
      }
    }

    method NewDependency(tp: Transaction, dtp: Transaction)
      requires Known() && Has(tp) && Has(dtp) && DepsOk() && CountsOk() && ListOk() && counts[dtp.name] > 0
      modifies this`counts, this`deps, tp`depends, dtp`refcnt
      ensures DepsOk() && CountsOk() && ListOk()
      ensures deps == old(deps)[tp.name := [dtp.name] + old(deps[tp.name])]
      ensures counts == Ref(old(counts), dtp.name)
    {
      hide ListOk, CountsOk, Known, DepsOk;
      AddNode(tp, dtp);
      var r := TransRef(dtp);
    }

    method AddNode(tp: Transaction, dtp: Transaction)
      requires Known() && Has(tp) && Has(dtp) && DepsOk()
      modifies this`deps, tp`depends
      ensures DepsOk() && deps == old(deps)[tp.name := [dtp.name] + old(deps[tp.name])]
    {
      tp.depends := [dtp] + tp.depends;
      deps := deps[tp.name := [dtp.name] + deps[tp.name]];
    }

    // ----- Decisions

    method TransGetStatus(tp: Transaction) returns (r: Status)
      requires Has(tp) && StatusOk()
      ensures r == status[tp.name]
    {
      r := tp.status;
    }

    /** Posts once for every waiter that has registered. */
    method Post(tp: Transaction)
      requires Known() && Has(tp) && WaitsOk()
      modifies this`waits, tp`waitcnt, tp`sem
      ensures WaitsOk()
      ensures waits == Wake(old(waits), tp.name)
    {
      while tp.waitcnt > 0
        invariant waits == old(waits)
        invariant tp.waitcnt + tp.sem == waits.waitcnt[tp.name] + waits.sem[tp.name]
      {
        tp.waitcnt := tp.waitcnt - 1;
        tp.sem := tp.sem + 1;
      }
      waits := Wake(waits, tp.name);
    }

    /** traverse_depends_list: posts for the waiters of `tp` when `dtp` depends on it. */
    method TraverseDependsList(tp: Transaction, dtp: Transaction)
      requires Known() && Has(tp) && Has(dtp) && DepsOk() && WaitsOk()
      modifies this`waits, tp`waitcnt, tp`sem
      ensures WaitsOk()
      ensures waits == if tp.name in deps[dtp.name] then Wake(old(waits), tp.name) else old(waits)
    {
      NamedHas(tp, dtp.depends, deps[dtp.name]);
      var found := CheckDependency(tp, dtp.depends);
      if found { Post(tp); }
    }

    /** traverse_trans_list: looks among the live transactions for one that depends on `tp`.  Everybody who
        waits for `tp` does, so all of them are woken. */
    method TraverseTransList(tp: Transaction)
      requires Known() && Has(tp) && DepsOk() && WaitsOk() && ListOk() && Heard(tp.name, waits.waitcnt, deps, counts)
      modifies this`waits, tp`waitcnt, tp`sem
      ensures WaitsOk() && waits == Wake(old(waits), tp.name)
    {
      hide WaitsOk, DepsOk, Members, Heard;
      RingRecords();
      Sizes();
      ghost var j, i := WaiterAt(tp.name), 1;
      var head := transList.next;
      while head != transList
        invariant 1 <= i <= |ring| - 1 && head == ring[i] && WaitsOk()
        invariant waits == Wake(old(waits), tp.name) || (waits == old(waits) && i <= j)
        decreases |ring| - i
      {
        var next := head.next;
        TraverseDependsList(tp, head);
        head := next;
        i := i + 1;
      }
    }

    lemma RingRecords()
      requires Known() && Members(all, ring, counts)
      ensures |ring| >= 2 && ring[0] == ring[|ring| - 1] == transList && |counts| == |all|
      ensures forall k | 0 < k < |ring| - 1 :: ring[k] != transList && Has(ring[k])
    {
    }

    lemma Sizes()
      requires WaitsOk() && DepsOk()
      ensures |waits.phase| == |waits.waitcnt| == |waits.sem| == |all| == |deps|
    {
    }

    /** Where in the list somebody stands who depends on `t`, if anybody waits for it. */
    ghost function WaiterAt(t: int): (j: nat)
      reads this`all, this`ring, this`counts, this`deps, this`waits
      requires Known() && 0 <= t < |waits.waitcnt| && |counts| == |deps| && Members(all, ring, counts) &&
               Heard(t, waits.waitcnt, deps, counts)
      ensures j < |ring| - 1
      ensures waits.waitcnt[t] > 0 ==> 0 < j && Has(ring[j]) && ring[j].name < |deps| && t in deps[ring[j].name]
    {
      if waits.waitcnt[t] == 0 then 0
      else
        var u :| 0 <= u < |counts| && u < |deps| && counts[u] > 0 && t in deps[u];
        var j :| 0 <= j < |ring| && ring[j] == all[u];
        j
    }

    /** trans_abort: a pending transaction becomes aborted and its waiters are woken; a reference is dropped.
        For a committed transaction it gives up without changing anything. */
    method TransAbort(tp: Transaction, ghost others: seq<nat>, ghost held: seq<nat>) returns (r: Option<Status>)
      requires Has(tp) && Sound(others) && others[tp.name] > 0 && StatusOk() && WaitsOk()
      requires Heard(tp.name, waits.waitcnt, deps, held) && Covers(others, held)
      modifies this`status, this`waits, tp`status, tp`waitcnt, tp`sem
      modifies this`counts, this`ring, all`refcnt, all`next, all`prev, transList`next, transList`prev
      ensures r == if old(status[tp.name]) == Committed then None else Some(Aborted)
      ensures r.None? ==> counts == old(counts) && ring == old(ring) && status == old(status) && waits == old(waits)
      ensures r.Some? ==>
                && Sound(others[tp.name := others[tp.name] - 1]) && StatusOk() && WaitsOk()
                && counts == Unref(old(counts), deps, tp.name) && status == old(status)[tp.name := Aborted]
                && waits == if old(status[tp.name]) == Pending then Wake(old(waits), tp.name) else old(waits)
    {
      hide Sound, StatusOk, WaitsOk, Heard, Covers, Wake, Unref;
      DecideFacts(tp, others, held);
      if tp.status == Committed { return None; }
      Decide(tp, Aborted, others, held);
      TransUnref(tp, others);
      return Some(Aborted);
    }

    /** A pending transaction takes its final status and wakes its waiters. */
    method Decide(tp: Transaction, own: Status, ghost others: seq<nat>, ghost held: seq<nat>)
      requires Has(tp) && Sound(others) && StatusOk() && WaitsOk()
      requires Heard(tp.name, waits.waitcnt, deps, held) && Covers(others, held)
      modifies this`status, this`waits, tp`status, tp`waitcnt, tp`sem
      ensures StatusOk() && WaitsOk()
      ensures if old(status[tp.name]) == Pending then status == old(status)[tp.name := own] &&
              waits == Wake(old(waits), tp.name)
              else status == old(status) && waits == old(waits)
    {
      hide Sound, StatusOk, WaitsOk, Heard, Covers, Wake, Known, DepsOk, ListOk;
      DecideFacts(tp, others, held);
      if tp.status == Pending {
        SetStatus(tp, own);
        TraverseTransList(tp);
      }
    }

    lemma DecideFacts(tp: Transaction, others: seq<nat>, held: seq<nat>)
      requires Has(tp) && Sound(others) && StatusOk() && WaitsOk() && Covers(others, held) &&
               Heard(tp.name, waits.waitcnt, deps, held)
      ensures |status| == |waits.phase| == |waits.waitcnt| == |waits.sem| == |all| == |counts| == |deps| ==
              |others| && status[tp.name] == tp.status
      ensures Known() && DepsOk() && ListOk() && DepsBelow(deps) && Heard(tp.name, waits.waitcnt, deps, counts)
    {
      if waits.waitcnt[tp.name] > 0 {
        var u :| 0 <= u < |held| && u < |deps| && held[u] > 0 && tp.name in deps[u];
        assert counts[u] > 0;
      }
    }

    method SetStatus(tp: Transaction, own: Status)
      requires Known() && Has(tp) && StatusOk()
      modifies this`status, tp`status
      ensures StatusOk() && status == old(status)[tp.name := own]
    {
      tp.status := own;
      status := status[tp.name := own];
    }

    // ----- Commit

    /** The manager's part of a world. */
    ghost predicate Shows(w: World)
      reads this`ids, this`counts, this`status, this`deps, this`waits
    {
      ids == w.ids && counts == w.counts && status == w.core.status && deps == w.core.deps && waits == w.waits
    }

    ghost predicate Records()
      reads this, all, ring
    {
      Known() && IdsOk() && CountsOk() && ListOk() && DepsOk() && StatusOk() && WaitsOk()
    }

    /** The records show a world that satisfies the invariant. */
    ghost predicate Models(w: World)
      reads this, all, ring
    {
      Records() && Shows(w) && WorldInv(w)
    }

    lemma ModelFacts(tp: Transaction, w: World)
      requires Models(w) && Has(tp)
      ensures Records() && Shows(w) && WorldWf(w) && DepsBelow(deps) && |deps| == |all| &&
              tp.status == w.core.status[tp.name]
      ensures Sound(Others(w)) && Covers(Others(w), w.handles) && Heard(tp.name, waits.waitcnt, deps, w.handles)
      ensures w.handles[tp.name] > 0 ==> Others(w)[tp.name] > 0
      ensures |tp.depends| == |deps[tp.name]|
      ensures forall i | 0 <= i < |tp.depends| :: Awaits(tp, i, tp.depends[i], w)
    {
      HeardAll(w, tp.name);
      hide Inv, WaitInv, BooksOk, IdOrder;
      assert Named(tp.depends, deps[tp.name]);
    }

    ghost predicate Awaits(tp: Transaction, i: nat, head: Transaction, w: World)
      reads this`all, head`status
      requires Has(tp) && WorldWf(w) && |w.core.deps| == |all|
    {
      i < |w.core.deps[tp.name]| && head.name == w.core.deps[tp.name][i] && Has(head) &&
          head.status == w.core.status[head.name]
    }

    /** trans_commit, from one point where it lets go of the mutex to the next. */
    method TransCommit(tp: Transaction, at: Phase, ghost w: World) returns (next: Phase)
      requires Has(tp) && Models(w) && CanStep(w, tp.name) && at == w.waits.phase[tp.name]
      modifies this`status, this`waits, all`status, all`waitcnt, all`sem
      modifies this`counts, this`ring, all`refcnt, all`next, all`prev, transList`next, transList`prev
      ensures Models(CommitStep(w, tp.name)) && next == CommitStep(w, tp.name).waits.phase[tp.name]
    {
      hide Records, WorldInv, CanStep, CommitStep;
      CommitStepKeepsWorld(w, tp.name);
      next := Advance(tp, at, w);
    }

    method Advance(tp: Transaction, at: Phase, ghost w: World) returns (next: Phase)
      requires Has(tp) && Models(w) && CanStep(w, tp.name) && at == w.waits.phase[tp.name]
      modifies this`status, this`waits, all`status, all`waitcnt, all`sem
      modifies this`counts, this`ring, all`refcnt, all`next, all`prev, transList`next, transList`prev
      ensures Records() && Shows(CommitStep(w, tp.name)) && next == CommitStep(w, tp.name).waits.phase[tp.name]
    {
      hide Known, IdsOk, CountsOk, ListOk, DepsOk, StatusOk, WaitsOk, Covers, Heard, Models, Graph, Unref, Others,
           WorldInv;
      ModelFacts(tp, w);
      var i := at.at;
      if at.Blocked? {
        ResumeFrom(tp, i, tp.depends[i]);
        next := Woken(i);
      } else if i == |tp.depends| {
        Finish(tp, Committed, Others(w), w.handles);
        next := Done;
      } else {
        var head := tp.depends[i];
        if head.status == Pending {
          if at.Scan? {
            RegisterWith(tp, i, head);
            next := Blocked(i);
          } else {
            MoveOn(tp, Scan(i));
            next := Scan(i);
          }
        } else if head.status == Aborted {
          Finish(tp, Aborted, Others(w), w.handles);
          next := Done;
        } else {
          MoveOn(tp, Scan(i + 1));
          next := Scan(i + 1);
        }
      }
    }

    /** P on the semaphore of the awaited transaction. */
    method ResumeFrom(tp: Transaction, i: nat, head: Transaction)
      requires Known() && Has(tp) && Has(head) && WaitsOk() && waits.sem[head.name] > 0
      modifies this`waits, head`sem
      ensures WaitsOk() && waits == Resume(old(waits), tp.name, i, head.name)
    {
      head.sem := head.sem - 1;
      waits := Resume(waits, tp.name, i, head.name);
    }

    method RegisterWith(tp: Transaction, i: nat, head: Transaction)
      requires Known() && Has(tp) && Has(head) && WaitsOk()
      modifies this`waits, head`waitcnt
      ensures WaitsOk() && waits == Register(old(waits), tp.name, i, head.name)
    {
      head.waitcnt := head.waitcnt + 1;
      waits := Register(waits, tp.name, i, head.name);
    }

    ghost method MoveOn(tp: Transaction, p: Phase)
      requires Has(tp) && WaitsOk()
      modifies this`waits
      ensures WaitsOk() && waits == Goto(old(waits), tp.name, p)
    {
      waits := Goto(waits, tp.name, p);
    }

    /** The end of trans_commit, and the abort at disconnection: the transaction is decided unless another
        thread has aborted it meanwhile, and a reference is dropped. */
    method Finish(tp: Transaction, own: Status, ghost others: seq<nat>, ghost held: seq<nat>)
      requires Has(tp) && Sound(others) && others[tp.name] > 0 && StatusOk() && WaitsOk()
      requires Heard(tp.name, waits.waitcnt, deps, held) && Covers(others, held)
      modifies this`status, this`waits, tp`status, tp`waitcnt, tp`sem
      modifies this`counts, this`ring, all`refcnt, all`next, all`prev, transList`next, transList`prev
      ensures Sound(others[tp.name := others[tp.name] - 1]) && StatusOk() && WaitsOk()
      ensures counts == Unref(old(counts), deps, tp.name)
      ensures if old(status[tp.name]) == Pending
              then status == old(status)[tp.name := own] && waits == Goto(Wake(old(waits), tp.name), tp.name, Done)
              else status == old(status) && waits == Goto(old(waits), tp.name, Done)
    {
      hide Sound, StatusOk, WaitsOk, Heard, Covers, Wake, Goto, Unref;
      DecideFacts(tp, others, held);
      Decide(tp, own, others, held);
      TransUnref(tp, others);
      MoveOn(tp, Done);
    }
  }

  lemma HeardAll(w: World, t: Tid)
    requires WorldInv(w) && t < |w.handles|
    ensures Heard(t, w.waits.waitcnt, w.core.deps, w.handles) && Covers(Others(w), w.handles)
    ensures Graph(w.counts, w.core.deps, Others(w))
  {
    if w.waits.waitcnt[t] > 0 {
      var h := Waiters(w.waits.phase, w.core.deps, t);
      if forall u | 0 <= u < |h| :: h[u] == 0 { SumZero(h); }
      var u :| 0 <= u < |h| && h[u] != 0;
      assert w.core.deps[u][w.waits.phase[u].at] in w.core.deps[u];
    }
  }

  ghost function Without(s: seq<Transaction>, j: nat): (r: seq<Transaction>)
    requires j < |s|
    ensures r == s[..j] + s[j + 1..]
    ensures |r| == |s| - 1 && forall i | 0 <= i < |r| :: r[i] == s[if i < j then i else i + 1]
  {
    s[..j] + s[j + 1..]
  }

  /** If anybody waits for `t` then somebody with a reference depends on it. */
  ghost predicate Heard(t: int, waitcnt: seq<nat>, deps: seq<seq<Tid>>, held: seq<nat>)
    requires 0 <= t < |waitcnt|
  {
    waitcnt[t] > 0 ==> exists u | 0 <= u < |held| && u < |deps| :: held[u] > 0 && t in deps[u]
  }

  ghost predicate Covers(others: seq<nat>, held: seq<nat>) {
    |held| == |others| && forall u | 0 <= u < |held| :: held[u] <= others[u]
  }

  /** Each of `ds` has a reference of its own to give back. */
  ghost predicate Owed(ds: seq<Tid>, bound: Tid, owed: seq<nat>) {
    NoRepeats(ds) && bound <= |owed| && forall d | d in ds :: d < bound && owed[d] > 0
  }

  lemma NothingOwed(counts: seq<nat>, deps: seq<seq<Tid>>, bound: Tid, owed: seq<nat>)
    requires DepsBelow(deps) && |counts| == |deps| && bound <= |counts|
    ensures UnrefAll(counts, deps, [], bound) == counts && Minus(owed, []) == owed
  {
  }

  lemma OwedStep(counts: seq<nat>, deps: seq<seq<Tid>>, ds: seq<Tid>, bound: Tid, owed: seq<nat>)
    requires DepsBelow(deps) && |counts| == |deps| == |owed| && bound <= |counts| && Owed(ds, bound, owed) && ds != []
    ensures ds[0] < bound && owed[ds[0]] > 0
    ensures forall d | d in ds[1..] :: d in ds
    ensures UnrefAll(counts, deps, ds, bound) == UnrefAll(Unref(counts, deps, ds[0]), deps, ds[1..], bound)
    ensures Owed(ds[1..], bound, owed[ds[0] := owed[ds[0]] - 1])
    ensures Minus(owed[ds[0] := owed[ds[0]] - 1], ds[1..]) == Minus(owed, ds)
  {
    assert ds[0] in ds && ds[0] !in ds[1..];
  }

  lemma UnrefStep(counts: seq<nat>, deps: seq<seq<Tid>>, others: seq<nat>, t: Tid)
    requires Graph(counts, deps, others) && t < |counts| && others[t] > 0
    ensures Graph(Unref(counts, deps, t), deps, others[t := others[t] - 1])
    ensures DepsBelow(deps) && Minus(Plus(others[t := others[t] - 1], deps[t]), deps[t]) == others[t := others[t] - 1]
    ensures counts[t] > 1 ==> Unref(counts, deps, t) == counts[t := counts[t] - 1]
    ensures counts[t] == 1 ==>
              && Unref(counts, deps, t) == UnrefAll(counts[t := 0], deps, deps[t], t)
              && Graph(counts[t := 0], deps, Plus(others[t := others[t] - 1], deps[t]))
  {
    UnrefBalanced(counts, deps, others, t);
    if counts[t] == 1 { FreeBalanced(counts, deps, others, t); }
    hide Balanced;
  }
}
