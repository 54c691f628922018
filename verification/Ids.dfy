/** Numeric ids: what trans_create hands out, and why comparing ids agrees with the order of creation. */
module Ids {
  import opened Types
  import opened VersionLists
  import opened Protocol
  import opened Invariant
  import opened Machine
  import opened Books

  ghost predicate HasOps(log: seq<Op>, t: Tid) {
    exists i | 0 <= i < |log| :: log[i].tid == t
  }

  /** The transactions whose ids still matter: the live ones, and the committed ones that took part in the
      serial order. */
  ghost predicate Tracked(w: World, t: Tid)
    requires WorldWf(w) && t < |w.ids|
  {
    w.counts[t] > 0 || (w.core.status[t] == Committed && HasOps(w.core.log, t))
  }

  /** Whatever was created after a tracked transaction has a greater id. */
  ghost predicate IdOrder(w: World)
    requires WorldWf(w)
  {
    forall a, b | 0 <= a < b < |w.ids| && Tracked(w, a) :: w.ids[a] < w.ids[b]
  }

  // ----- Comparing ids

  ghost predicate LiveOrder(ids: seq<nat>, counts: seq<nat>) {
    |ids| == |counts| && forall a, b | 0 <= a < b < |ids| && counts[a] > 0 :: ids[a] < ids[b]
  }

  ghost predicate CreatorsLive(vs: seq<Version>, counts: seq<nat>) {
    CreatorsBelow(vs, |counts|) && forall i | 0 <= i < |vs| :: counts[vs[i].creator] > 0
  }

  lemma {:induction false} MaxIdIsMax(vs: seq<Version>, ids: seq<nat>, counts: seq<nat>)
    requires LiveOrder(ids, counts) && CreatorsLive(vs, counts) && vs != []
    ensures MaxCreator(vs) < |ids| && MaxId(vs, ids) == ids[MaxCreator(vs)] && counts[MaxCreator(vs)] > 0
  {
    if |vs| > 1 {
      MaxIdIsMax(vs[1..], ids, counts);
    }
  }

  /** For live transactions the check by id and the replacement by id do what the order of creation says. */
  lemma IdsAgree(vs: seq<Version>, ids: seq<nat>, counts: seq<nat>, v: Version)
    requires LiveOrder(ids, counts) && CreatorsLive(vs, counts) && v.creator < |counts| && counts[v.creator] > 0
    ensures AdmitsId(vs, ids, v.creator) <==> Admits(vs, v.creator)
    ensures Sorted(vs) && Admits(vs, v.creator) ==> InstallId(vs, ids, v) == Install(vs, v)
  {
    if vs != [] {
      MaxIdIsMax(vs, ids, counts);
      if Sorted(vs) { LastIsMax(vs); }
    }
  }

  // ----- A committed transaction with operations keeps an heir alive

  lemma {:induction false} OpsOfSome(log: seq<Op>, i: nat)
    requires i < |log|
    ensures OpsOf(log, log[i].tid, log[i].key) != []
  {
    if i < |log| - 1 {
      OpsOfSome(log[..|log| - 1], i);
    }
  }

  lemma RetiredHasHeir(s: State, k: Key, t: Tid)
    requires Wf(s) && KeyInv(s, k) && Creates(Chain(s, k), t)
    ensures k in s.lists && exists i | 0 <= i < |s.lists[k]| :: t <= s.lists[k][i].creator
  {
    hide ChainExplained, ChainComplete, Ordered, Wf;
    var c, r, vs := Chain(s, k), At(s.retired, k), At(s.lists, k);
    var i :| 0 <= i < |c| && c[i].creator == t;
    if i < |r| {
      assert c[|r|] == vs[0];
      assert t <= vs[0].creator;
    } else {
      assert t <= vs[i - |r|].creator;
    }
  }

  lemma HeirAlive(w: World, t: Tid) returns (l: Tid)
    requires WorldWf(w) && Inv(w.core) && BooksOk(w) && t < |w.ids| && Tracked(w, t)
    ensures t <= l < |w.ids| && w.counts[l] > 0
  {
    if w.counts[t] > 0 {
      l := t;
    } else {
      var i :| 0 <= i < |w.core.log| && w.core.log[i].tid == t;
      var k := w.core.log[i].key;
      OpsOfSome(w.core.log, i);
      assert KeyInv(w.core, k);
      RetiredHasHeir(w.core, k, t);
      hide KeyInv;
      var j :| 0 <= j < |w.core.lists[k]| && t <= w.core.lists[k][j].creator;
      l := w.core.lists[k][j].creator;
      HeldByVersion(w.core.lists, w.entries, k, j);
      HeldIsLive(w, l);
    }
  }

  /** The id handed out next is greater than that of every tracked transaction. */
  lemma NextIdIsNew(w: World, t: Tid)
    requires WorldWf(w) && Inv(w.core) && BooksOk(w) && IdOrder(w) && t < |w.ids| && Tracked(w, t)
    ensures w.ids[t] < NextId(w.ids, w.counts)
  {
    var l := HeirAlive(w, t);
    NewestLiveInRange(w.counts);
    var newest := NewestLive(w.counts).value;
    hide Inv, BooksOk, Wf;
    assert Tracked(w, l);
    assert t < l ==> w.ids[t] < w.ids[l];
    assert l < newest ==> w.ids[l] < w.ids[newest];
  }

  lemma CreateIds(w: World)
    requires WorldWf(w) && Inv(w.core) && BooksOk(w) && IdOrder(w)
    ensures WorldWf(TransCreate(w)) && IdOrder(TransCreate(w))
  {
    var w' := TransCreate(w);
    forall a, b | 0 <= a < b < |w'.ids| && Tracked(w', a) ensures w'.ids[a] < w'.ids[b] {
      assert Tracked(w, a);
      if b == |w.ids| { NextIdIsNew(w, a); }
    }
  }

  /** Steps that resurrect nobody, and let only live transactions operate and commit, keep the order. */
  lemma IdsKept(w: World, w': World)
    requires WorldWf(w) && WorldWf(w') && IdOrder(w) && w'.ids == w.ids
    requires forall t | 0 <= t < |w.ids| && Tracked(w', t) :: Tracked(w, t)
    ensures IdOrder(w')
  {
  }

  lemma OrderOfLive(w: World)
    requires WorldWf(w) && IdOrder(w)
    ensures LiveOrder(w.ids, w.counts)
  {
    forall a, b | 0 <= a < b < |w.ids| && w.counts[a] > 0 ensures w.ids[a] < w.ids[b] {
      assert Tracked(w, a);
    }
  }
}
