/** Conservation of transaction references: every count is the number of versions that name the transaction
    as creator, of dependency nodes that point to it, and of references held by callers. */
module Books {
  import opened Types
  import opened Counting
  import opened VersionLists
  import opened Protocol
  import opened References
  import opened Machine

  // ----- Versions by creator

  function CountBy(vs: seq<Version>, x: Tid): nat {
    if vs == [] then 0 else (if vs[0].creator == x then 1 else 0) + CountBy(vs[1..], x)
  }

  lemma {:induction false} CountByAppend(a: seq<Version>, b: seq<Version>, x: Tid)
    ensures CountBy(a + b, x) == CountBy(a, x) + CountBy(b, x)
  {
    if a == [] {
      assert a + b == b;
    } else {
      assert (a + b)[1..] == a[1..] + b;
      CountByAppend(a[1..], b, x);
    }
  }

  lemma {:induction false} CountByPositive(vs: seq<Version>, i: nat)
    requires i < |vs|
    ensures CountBy(vs, vs[i].creator) > 0
  {
    if i > 0 {
      CountByPositive(vs[1..], i - 1);
    }
  }

  function PerEntry(lists: map<Key, seq<Version>>, entries: seq<Key>, x: Tid): seq<nat> {
    seq(|entries|, i requires 0 <= i < |entries| => CountBy(At(lists, entries[i]), x))
  }

  /** How many versions in the store name `x` as their creator. */
  function VersionRefs(lists: map<Key, seq<Version>>, entries: seq<Key>, x: Tid): nat {
    Sum(PerEntry(lists, entries, x))
  }

  ghost predicate EntriesOk(lists: map<Key, seq<Version>>, entries: seq<Key>) {
    && (forall i, j | 0 <= i < j < |entries| :: entries[i] != entries[j])
    && (forall k :: k in lists <==> k in entries)
  }

  lemma ListChange(lists: map<Key, seq<Version>>, entries: seq<Key>, k: Key, vs: seq<Version>, x: Tid)
    requires EntriesOk(lists, entries) && k in lists
    ensures EntriesOk(lists[k := vs], entries)
    ensures VersionRefs(lists[k := vs], entries, x) ==
            VersionRefs(lists, entries, x) - CountBy(lists[k], x) + CountBy(vs, x)
  {
    var i :| 0 <= i < |entries| && entries[i] == k;
    SumChange(PerEntry(lists, entries, x), PerEntry(lists[k := vs], entries, x), i);
  }

  lemma EntryAdded(lists: map<Key, seq<Version>>, entries: seq<Key>, k: Key, x: Tid)
    requires EntriesOk(lists, entries) && k !in lists
    ensures EntriesOk(lists[k := []], entries + [k])
    ensures VersionRefs(lists[k := []], entries + [k], x) == VersionRefs(lists, entries, x)
  {
    assert PerEntry(lists[k := []], entries + [k], x) == PerEntry(lists, entries, x) + [0];
    SumSnoc(PerEntry(lists, entries, x), 0);
  }

  lemma HeldByVersion(lists: map<Key, seq<Version>>, entries: seq<Key>, k: Key, i: nat)
    requires EntriesOk(lists, entries) && k in lists && i < |lists[k]|
    ensures VersionRefs(lists, entries, lists[k][i].creator) > 0
  {
    var j :| 0 <= j < |entries| && entries[j] == k;
    CountByPositive(lists[k], i);
    SumAtLeast(PerEntry(lists, entries, lists[k][i].creator), j);
  }

  // ----- The invariant

  /** The holders of each transaction other than dependency nodes. */
  function Holders(lists: map<Key, seq<Version>>, entries: seq<Key>, handles: seq<nat>): (r: seq<nat>)
    ensures |r| == |handles|
  {
    seq(|handles|, x requires 0 <= x < |handles| => VersionRefs(lists, entries, x) + handles[x])
  }

  function Others(w: World): (r: seq<nat>) {
    Holders(w.core.lists, w.entries, w.handles)
  }

  ghost predicate BooksOk(w: World)
    requires WorldWf(w)
  {
    EntriesOk(w.core.lists, w.entries) && Balanced(w.counts, w.core.deps, Others(w))
  }

  /** The reference that a commit will drop when it returns is still there. */
  ghost predicate Handled(w: World)
    requires WorldWf(w)
  {
    forall t | 0 <= t < |w.handles| && !(w.waits.phase[t].Idle? || w.waits.phase[t].Done?) :: w.handles[t] > 0
  }

  /** Whoever is held is live. */
  lemma HeldIsLive(w: World, t: Tid)
    requires WorldWf(w) && BooksOk(w) && t < |w.handles| && Others(w)[t] > 0
    ensures w.counts[t] > 0
  {
  }

  // ----- Dropping the creators of removed versions

  lemma {:induction false} DropCreatorsBalanced(counts: seq<nat>, deps: seq<seq<Tid>>, others: seq<nat>,
                                                vs: seq<Version>, rest: seq<nat>)
    requires DepsBelow(deps) && (forall u | 0 <= u < |deps| :: NoRepeats(deps[u]))
    requires Balanced(counts, deps, others) && CreatorsBelow(vs, |counts|)
    requires |rest| == |others| && forall x | 0 <= x < |others| :: others[x] == rest[x] + CountBy(vs, x)
    ensures Balanced(DropCreators(counts, deps, vs), deps, rest)
    decreases |vs|
  {
    if vs == [] {
      assert others == rest;
    } else {
      var c := vs[0].creator;
      UnrefBalanced(counts, deps, others, c);
      DropCreatorsBalanced(Unref(counts, deps, c), deps, others[c := others[c] - 1], vs[1..], rest);
    }
  }

  // ----- Referencing new dependencies

  lemma HoldersMore(counts: seq<nat>, deps: seq<seq<Tid>>, t: Tid, c: Tid, d: Tid)
    requires |counts| == |deps| && t < |deps| && c < |deps| && counts[t] > 0 && counts[c] > 0 && c !in deps[t]
    ensures Sum(DepHolders(Ref(counts, c), deps[t := [c] + deps[t]], d)) ==
            Sum(DepHolders(counts, deps, d)) + if d == c then 1 else 0
  {
    SumChange(DepHolders(counts, deps, d), DepHolders(Ref(counts, c), deps[t := [c] + deps[t]], d), t);
  }

  lemma AddDependencyBalanced(counts: seq<nat>, deps: seq<seq<Tid>>, others: seq<nat>, t: Tid, c: Tid)
    requires Balanced(counts, deps, others) && t < |deps| && c < |deps| && counts[t] > 0 && counts[c] > 0 &&
             c !in deps[t]
    ensures Balanced(Ref(counts, c), deps[t := [c] + deps[t]], others)
  {
    forall d | 0 <= d < |counts|
      ensures Ref(counts, c)[d] == others[d] + Sum(DepHolders(Ref(counts, c), deps[t := [c] + deps[t]], d))
    {
      HoldersMore(counts, deps, t, c, d);
    }
  }

  lemma {:induction false} RefDependenciesBalanced(counts: seq<nat>, deps: seq<seq<Tid>>, others: seq<nat>,
                                                   vs: seq<Version>, t: Tid, st: seq<Status>)
    requires Balanced(counts, deps, others) && |st| == |counts| && CreatorsBelow(vs, |st|)
    requires t < |counts| && counts[t] > 0
    requires forall i | 0 <= i < |vs| :: counts[vs[i].creator] > 0
    ensures Balanced(RefDependencies(counts, deps[t], vs, t, st), deps[t := AddDependencies(deps[t], vs, t, st)],
            others)
    decreases |vs|
  {
    if vs == [] {
      assert deps[t := deps[t]] == deps;
    } else {
      var c := vs[0].creator;
      if c != t && st[c] == Pending && c !in deps[t] {
        AddDependencyBalanced(counts, deps, others, t, c);
        hide DepHolders;
        var deps' := deps[t := [c] + deps[t]];
        RefDependenciesBalanced(Ref(counts, c), deps', others, vs[1..], t, st);
        assert deps'[t := AddDependencies(deps'[t], vs[1..], t, st)] ==
            deps[t := AddDependencies(deps'[t], vs[1..], t, st)];
      } else {
        RefDependenciesBalanced(counts, deps, others, vs[1..], t, st);
      }
    }
  }

  lemma RefBalanced(counts: seq<nat>, deps: seq<seq<Tid>>, others: seq<nat>, t: Tid)
    requires Balanced(counts, deps, others) && t < |counts| && counts[t] > 0
    ensures Balanced(Ref(counts, t), deps, others[t := others[t] + 1])
  {
    forall d | 0 <= d < |counts| ensures Ref(counts, t)[d] ==
        others[t := others[t] + 1][d] + Sum(DepHolders(Ref(counts, t), deps, d)) {
      HoldersSame(counts, Ref(counts, t), deps, d);
    }
  }

  lemma EnterBalanced(counts: seq<nat>, deps: seq<seq<Tid>>, others: seq<nat>)
    requires DepsBelow(deps) && Balanced(counts, deps, others)
    ensures Balanced(counts + [1], deps + [[]], others + [1])
  {
    forall d | 0 <= d < |counts| + 1
      ensures (counts + [1])[d] == (others + [1])[d] + Sum(DepHolders(counts + [1], deps + [[]], d))
    {
      var h := seq(|counts|, u requires 0 <= u < |counts| => if counts[u] > 0 && d in deps[u] then 1 else 0);
      assert DepHolders(counts + [1], deps + [[]], d) == h + [0];
      SumSnoc(h, 0);
      if d == |counts| { SumZero(h); } else { assert h == DepHolders(counts, deps, d); }
    }
  }

  // ----- The operations

  lemma NotYetCreator(lists: map<Key, seq<Version>>, entries: seq<Key>, n: nat)
    requires ListsInRange(lists, n)
    ensures VersionRefs(lists, entries, n) == 0
  {
    forall i | 0 <= i < |entries| ensures CountBy(At(lists, entries[i]), n) == 0 {
      NoneBy(At(lists, entries[i]), n);
    }
    SumZero(PerEntry(lists, entries, n));
  }

  lemma CreateBooks(w: World)
    requires WorldWf(w) && BooksOk(w)
    ensures WorldWf(TransCreate(w)) && BooksOk(TransCreate(w))
  {
    hide Balanced, VersionRefs, EntriesOk, NextId;
    var w' := TransCreate(w);
    NotYetCreator(w.core.lists, w.entries, |w.handles|);
    EnterBalanced(w.counts, w.core.deps, Others(w));
    assert Others(w') == Others(w) + [1];
  }

  lemma {:induction false} NoneBy(vs: seq<Version>, n: nat)
    requires CreatorsBelow(vs, n)
    ensures CountBy(vs, n) == 0
  {
    if vs != [] {
      NoneBy(vs[1..], n);
    }
  }

  /** Dropping a caller's reference. */
  lemma UnrefBooks(w: World, t: Tid)
    requires WorldWf(w) && BooksOk(w) && t < |w.handles| && w.handles[t] > 0
    ensures Balanced(Unref(w.counts, w.core.deps, t), w.core.deps,
            Others(w.(handles := w.handles[t := w.handles[t] - 1])))
  {
    hide Balanced, VersionRefs, EntriesOk, Unref;
    UnrefBalanced(w.counts, w.core.deps, Others(w), t);
    assert Others(w.(handles := w.handles[t := w.handles[t] - 1])) == Others(w)[t := Others(w)[t] - 1];
  }

  lemma RefBooks(w: World, t: Tid)
    requires WorldWf(w) && BooksOk(w) && t < |w.handles| && w.handles[t] > 0
    ensures Balanced(Ref(w.counts, t), w.core.deps, Others(w.(handles := w.handles[t := w.handles[t] + 1])))
    ensures w.counts[t] > 0
  {
    hide Balanced, VersionRefs, Wf;
    HeldIsLive(w, t);
    RefBalanced(w.counts, w.core.deps, Others(w), t);
    assert Others(w.(handles := w.handles[t := w.handles[t] + 1])) == Others(w)[t := Others(w)[t] + 1];
  }

  lemma CollectRefs(w: World, k: Key, x: Tid)
    requires WorldWf(w) && EntriesOk(w.core.lists, w.entries)
    requires CommittedFirst(At(w.core.lists, k), w.core.status)
    ensures var w' := GarbageCollect(w, k); var vs, st := At(w.core.lists, k), w.core.status;
            && EntriesOk(w'.core.lists, w'.entries)
            && VersionRefs(w.core.lists, w.entries, x) ==
               VersionRefs(w'.core.lists, w'.entries, x) + CountBy(Doomed(vs, st), x) + CountBy(Outdated(vs, st), x)
  {
    var lists, vs, st := w.core.lists, At(w.core.lists, k), w.core.status;
    CollectSplits(vs, st);
    hide Wf;
    var kept := Collected(vs, st);
    CountByAppend(Outdated(vs, st) + kept, Doomed(vs, st), x);
    CountByAppend(Outdated(vs, st), kept, x);
    if k in lists {
      ListChange(lists, w.entries, k, kept, x);
    } else {
      EntryAdded(lists, w.entries, k, x);
      assert kept == [];
    }
  }

  lemma CollectBooks(w: World, k: Key)
    requires WorldWf(w) && BooksOk(w) && CommittedFirst(At(w.core.lists, k), w.core.status)
    ensures WorldWf(GarbageCollect(w, k)) && BooksOk(GarbageCollect(w, k))
  {
    GarbageCollectWf(w, k);
    var w' := GarbageCollect(w, k);
    var vs, st, deps := At(w.core.lists, k), w.core.status, w.core.deps;
    var others, rest := Others(w), Others(w');
    var mid := seq(|rest|, x requires 0 <= x < |rest| => rest[x] + CountBy(Doomed(vs, st), x));
    forall x | 0 <= x < |rest| ensures others[x] == mid[x] + CountBy(Outdated(vs, st), x) {
      CollectRefs(w, k, x);
    }
    CollectRefs(w, k, 0);
    DropCreatorsBalanced(w.counts, deps, others, Outdated(vs, st), mid);
    DropCreatorsBalanced(DropCreators(w.counts, deps, Outdated(vs, st)), deps, mid, Doomed(vs, st), rest);
  }

  // ----- An admitted operation

  lemma {:induction false} CountByReplaceLast(vs: seq<Version>, v: Version, x: Tid)
    requires vs != [] && vs[|vs| - 1].creator == v.creator
    ensures CountBy(vs[..|vs| - 1] + [v], x) == CountBy(vs, x)
  {
    var n := |vs| - 1;
    assert vs == vs[..n] + [vs[n]];
    CountByAppend(vs[..n], [vs[n]], x);
    CountByAppend(vs[..n], [v], x);
    assert [v][1..] == [] && [vs[n]][1..] == [];
  }

  lemma InstallRefs(lists: map<Key, seq<Version>>, entries: seq<Key>, k: Key, v: Version, x: Tid)
    requires EntriesOk(lists, entries) && k in lists
    ensures VersionRefs(lists[k := Install(lists[k], v)], entries, x) ==
            VersionRefs(lists, entries, x) + if x == v.creator && |Install(lists[k], v)| > |lists[k]| then 1 else 0
  {
    var vs := lists[k];
    ListChange(lists, entries, k, Install(vs, v), x);
    if vs != [] && vs[|vs| - 1].creator == v.creator {
      CountByReplaceLast(vs, v, x);
    } else {
      CountByAppend(vs, [v], x);
      assert [v][1..] == [];
    }
  }

  lemma HoldersMove(lists: map<Key, seq<Version>>, lists': map<Key, seq<Version>>, entries: seq<Key>,
                    handles: seq<nat>, t: Tid, more: bool)
    requires t < |handles|
    requires forall x | 0 <= x < |handles| ::
            VersionRefs(lists', entries, x) == VersionRefs(lists, entries, x) + if x == t && more then 1 else 0
    ensures var before := Holders(lists, entries, handles);
            Holders(lists', entries, handles) == if more then before[t := before[t] + 1] else before
  {
    hide VersionRefs;
  }

  lemma InstallHolders(lists: map<Key, seq<Version>>, entries: seq<Key>, handles: seq<nat>, k: Key, v: Version)
    requires EntriesOk(lists, entries) && k in lists && v.creator < |handles|
    ensures EntriesOk(lists[k := Install(lists[k], v)], entries)
    ensures var before := Holders(lists, entries, handles);
            Holders(lists[k := Install(lists[k], v)], entries, handles) ==
            if |Install(lists[k], v)| == |lists[k]| then before else before[v.creator := before[v.creator] + 1]
  {
    InstallParts(lists[k], v);
    ListChange(lists, entries, k, Install(lists[k], v), 0);
    hide EntriesOk, VersionRefs, Holders, Install;
    var lists', more := lists[k := Install(lists[k], v)], |Install(lists[k], v)| > |lists[k]|;
    forall x | 0 <= x < |handles|
      ensures VersionRefs(lists', entries, x) == VersionRefs(lists, entries, x) + if x == v.creator &&
              more then 1 else 0
    {
      InstallRefs(lists, entries, k, v, x);
    }
    HoldersMove(lists, lists', entries, handles, v.creator, more);
  }

  /** The new version's reference, and the one that a replaced version gives back. */
  lemma CreatedBalanced(counts: seq<nat>, deps: seq<seq<Tid>>, others: seq<nat>, t: Tid, replaced: bool)
    requires DepsBelow(deps) && (forall u | 0 <= u < |deps| :: NoRepeats(deps[u]))
    requires Balanced(counts, deps, others) && t < |counts| && counts[t] > 0
    ensures var r := if replaced then Unref(Ref(counts, t), deps, t) else Ref(counts, t);
            && Balanced(r, deps, if replaced then others else others[t := others[t] + 1])
            && forall x | 0 <= x < |counts| :: counts[x] <= r[x]
  {
    hide NoRepeats, Unref, DepHolders;
    RefBalanced(counts, deps, others, t);
    BackAgain(counts, deps, t);
  }

  lemma InstallLive(w: World, t: Tid, k: Key, v: Version)
    requires WorldWf(w) && BooksOk(w) && t < |w.handles| && w.counts[t] > 0 && k in w.core.lists && v.creator == t
    ensures CreatorsBelow(Install(w.core.lists[k], v), |w.counts|)
    ensures forall i | 0 <= i < |Install(w.core.lists[k], v)| :: w.counts[Install(w.core.lists[k], v)[i].creator] > 0
  {
    var vs, vs' := w.core.lists[k], Install(w.core.lists[k], v);
    InstallParts(vs, v);
    forall i | 0 <= i < |vs'| ensures w.counts[vs'[i].creator] > 0 {
      if i < |vs'| - 1 {
        HeldByVersion(w.core.lists, w.entries, k, i);
        HeldIsLive(w, vs[i].creator);
      }
    }
  }

  /** The counts after an operation whose version joins `vs` as `vs'`. */
  function InstalledCounts(counts: seq<nat>, deps: seq<seq<Tid>>, vs: seq<Version>, vs': seq<Version>, t: Tid,
                           st: seq<Status>): (r: seq<nat>)
    requires DepsBelow(deps) && |counts| == |deps| == |st| && t < |counts| && CreatorsBelow(vs', |counts|)
  {
    RefDependencies(if |vs'| == |vs| then Unref(Ref(counts, t), deps, t) else Ref(counts, t), deps[t], vs', t, st)
  }

  lemma InstalledBalanced(counts: seq<nat>, deps: seq<seq<Tid>>, others: seq<nat>, vs: seq<Version>,
                          vs': seq<Version>, t: Tid, st: seq<Status>)
    requires DepsBelow(deps) && (forall u | 0 <= u < |deps| :: NoRepeats(deps[u]))
    requires Balanced(counts, deps, others) && |st| == |counts| && t < |counts| && counts[t] > 0
    requires CreatorsBelow(vs', |counts|) && forall i | 0 <= i < |vs'| :: counts[vs'[i].creator] > 0
    ensures Balanced(InstalledCounts(counts, deps, vs, vs', t, st), deps[t := AddDependencies(deps[t], vs', t, st)],
                     if |vs'| == |vs| then others else others[t := others[t] + 1])
  {
    CreatedBalanced(counts, deps, others, t, |vs'| == |vs|);
    var r := if |vs'| == |vs| then Unref(Ref(counts, t), deps, t) else Ref(counts, t);
    hide Balanced, Unref, Ref;
    RefDependenciesBalanced(r, deps, if |vs'| == |vs| then others else others[t := others[t] + 1], vs', t, st);
  }

  lemma InstallVersionCounts(w: World, t: Tid, k: Key, act: Action)
    requires WorldWf(w) && t < |w.handles| && k in w.core.lists
    requires InstallId(w.core.lists[k], w.ids, Version(t, act.value)) == Install(w.core.lists[k], Version(t, act.value))
    ensures InstallVersion(w, t, k, act).counts ==
            InstalledCounts(w.counts, w.core.deps, w.core.lists[k], Install(w.core.lists[k], Version(t, act.value)),
                t, w.core.status)
  {
    InstallParts(w.core.lists[k], Version(t, act.value));
  }

  lemma InstallBooks(w: World, t: Tid, k: Key, act: Action)
    requires WorldWf(w) && BooksOk(w) && t < |w.handles| && w.counts[t] > 0 && k in w.core.lists
    requires InstallId(w.core.lists[k], w.ids, Version(t, act.value)) == Install(w.core.lists[k], Version(t, act.value))
    ensures var w' := InstallVersion(w, t, k, act);
            EntriesOk(w'.core.lists, w'.entries) && Balanced(w'.counts, w'.core.deps, Others(w'))
  {
    hide Balanced, Holders, VersionRefs, EntriesOk, Unref, Ref, Install, InstalledCounts, AddDependencies,
         RefDependencies, InstallId, CreatorsBelow;
    var v := Version(t, act.value);
    InstallLive(w, t, k, v);
    InstallHolders(w.core.lists, w.entries, w.handles, k, v);
    InstallVersionCounts(w, t, k, act);
    InstalledBalanced(w.counts, w.core.deps, Others(w), w.core.lists[k], Install(w.core.lists[k], v), t, w.core.status);
  }
}
