/** What garbage collection, admission and installation do to one version list. */
module VersionLists {
  import opened Types

  ghost predicate CreatorsBelow(vs: seq<Version>, n: nat) {
    forall i | 0 <= i < |vs| :: vs[i].creator < n
  }

  ghost predicate Sorted(vs: seq<Version>) {
    forall i, j | 0 <= i < j < |vs| :: vs[i].creator < vs[j].creator
  }

  ghost predicate CommittedFirst(vs: seq<Version>, st: seq<Status>)
    requires CreatorsBelow(vs, |st|)
  {
    forall i, j | 0 <= i < j < |vs| && st[vs[j].creator] == Committed :: st[vs[i].creator] == Committed
  }

  ghost predicate NoneAborted(vs: seq<Version>, st: seq<Status>)
    requires CreatorsBelow(vs, |st|)
  {
    forall i | 0 <= i < |vs| :: st[vs[i].creator] != Aborted
  }

  ghost predicate AllCommitted(vs: seq<Version>, st: seq<Status>)
    requires CreatorsBelow(vs, |st|)
  {
    forall i | 0 <= i < |vs| :: st[vs[i].creator] == Committed
  }

  /** The position of the first aborted version, or the length of the list. */
  function FirstAborted(vs: seq<Version>, st: seq<Status>): (n: nat)
    requires CreatorsBelow(vs, |st|)
    ensures n <= |vs|
    ensures forall i | 0 <= i < n :: st[vs[i].creator] != Aborted
    ensures n < |vs| ==> st[vs[n].creator] == Aborted
  {
    if vs == [] || st[vs[0].creator] == Aborted then 0 else 1 + FirstAborted(vs[1..], st)
  }

  predicate HasCommitted(vs: seq<Version>, st: seq<Status>)
    requires CreatorsBelow(vs, |st|)
  {
    exists i | 0 <= i < |vs| :: st[vs[i].creator] == Committed
  }

  /** The list without the committed versions that a later committed version supersedes. */
  function KeepLatest(vs: seq<Version>, st: seq<Status>): (r: seq<Version>)
    requires CreatorsBelow(vs, |st|)
    ensures CreatorsBelow(r, |st|)
  {
    if vs == [] then []
    else if st[vs[0].creator] == Committed && HasCommitted(vs[1..], st) then KeepLatest(vs[1..], st)
    else [vs[0]] + KeepLatest(vs[1..], st)
  }

  /** The committed versions that a later committed version supersedes. */
  function Superseded(vs: seq<Version>, st: seq<Status>): (r: seq<Version>)
    requires CreatorsBelow(vs, |st|)
    ensures CreatorsBelow(r, |st|)
  {
    if vs == [] then []
    else if st[vs[0].creator] == Committed && HasCommitted(vs[1..], st) then [vs[0]] + Superseded(vs[1..], st)
    else Superseded(vs[1..], st)
  }

  /** The list that a garbage collection pass leaves. */
  function Collected(vs: seq<Version>, st: seq<Status>): (r: seq<Version>)
    requires CreatorsBelow(vs, |st|)
    ensures CreatorsBelow(r, |st|)
  {
    KeepLatest(vs[..FirstAborted(vs, st)], st)
  }

  /** The committed versions that the pass removes. */
  function Outdated(vs: seq<Version>, st: seq<Status>): (r: seq<Version>)
    requires CreatorsBelow(vs, |st|)
    ensures CreatorsBelow(r, |st|)
  {
    Superseded(vs[..FirstAborted(vs, st)], st)
  }

  /** The first aborted version and everything after it: removed by the pass, creators aborted. */
  function Doomed(vs: seq<Version>, st: seq<Status>): (r: seq<Version>)
    requires CreatorsBelow(vs, |st|)
    ensures CreatorsBelow(r, |st|)
  {
    vs[FirstAborted(vs, st)..]
  }

  /** The status of every transaction after the creators of `vs` have been aborted. */
  function AbortCreators(vs: seq<Version>, st: seq<Status>): (r: seq<Status>)
    requires CreatorsBelow(vs, |st|)
    ensures |r| == |st|
  {
    if vs == [] then st else AbortCreators(vs[1..], st[vs[0].creator := Aborted])
  }

  /** `t` created one of the versions. */
  predicate Creates(vs: seq<Version>, t: Tid) {
    exists i | 0 <= i < |vs| :: vs[i].creator == t
  }

  /** get_max_id, over names. */
  function MaxCreator(vs: seq<Version>): (m: Tid)
    requires vs != []
  {
    if |vs| == 1 then vs[0].creator
    else if MaxCreator(vs[1..]) < vs[0].creator then vs[0].creator
    else MaxCreator(vs[1..])
  }

  predicate Admits(vs: seq<Version>, t: Tid) {
    vs == [] || MaxCreator(vs) <= t
  }

  /** Replace the last version when `t` created it, append otherwise. */
  function Install(vs: seq<Version>, v: Version): (r: seq<Version>) {
    if vs != [] && vs[|vs| - 1].creator == v.creator then vs[..|vs| - 1] + [v] else vs + [v]
  }

  function LastValue(vs: seq<Version>): Value {
    if vs == [] then None else vs[|vs| - 1].value
  }

  function LastCreator(vs: seq<Version>): Option<Tid> {
    if vs == [] then None else Some(vs[|vs| - 1].creator)
  }

  /** add_earlier_dependency_list: pending creators other than `t` join its dependency list at the head,
      each at most once. */
  function AddDependencies(ds: seq<Tid>, vs: seq<Version>, t: Tid, st: seq<Status>): (r: seq<Tid>)
    requires CreatorsBelow(vs, |st|)
    decreases |vs|
  {
    if vs == [] then ds
    else
      var c := vs[0].creator;
      AddDependencies(if c != t && st[c] == Pending && c !in ds then [c] + ds else ds, vs[1..], t, st)
  }

  predicate NoRepeats(ds: seq<Tid>) {
    forall i, j | 0 <= i < j < |ds| :: ds[i] != ds[j]
  }

  // ----- Collection

  lemma {:induction false} KeepLatestSplits(vs: seq<Version>, st: seq<Status>)
    requires CreatorsBelow(vs, |st|) && CommittedFirst(vs, st)
    ensures vs == Superseded(vs, st) + KeepLatest(vs, st)
    ensures AllCommitted(Superseded(vs, st), st)
    ensures vs != [] ==> KeepLatest(vs, st) != []
    ensures forall i | 0 < i < |KeepLatest(vs, st)| :: st[KeepLatest(vs, st)[i].creator] != Committed
    ensures HasCommitted(vs, st) ==> st[KeepLatest(vs, st)[0].creator] == Committed
  {
    hide CommittedFirst, HasCommitted;
    if vs == [] {
      NothingCommitted(st);
    } else {
      CommittedRest(vs, st);
      if st[vs[0].creator] == Committed && HasCommitted(vs[1..], st) {
        KeepLatestSplits(vs[1..], st);
      } else {
        NothingSuperseded(vs[1..], st);
      }
    }
  }

  lemma NothingCommitted(st: seq<Status>)
    ensures !HasCommitted([], st)
  {
  }

  lemma CommittedRest(vs: seq<Version>, st: seq<Status>)
    requires CreatorsBelow(vs, |st|) && CommittedFirst(vs, st) && vs != []
    ensures CreatorsBelow(vs[1..], |st|) && CommittedFirst(vs[1..], st)
    ensures st[vs[0].creator] != Committed ==> !HasCommitted(vs[1..], st)
    ensures HasCommitted(vs, st) ==> st[vs[0].creator] == Committed || HasCommitted(vs[1..], st)
    ensures HasCommitted(vs[1..], st) ==> |vs| > 1
    ensures !HasCommitted(vs[1..], st) ==> forall i | 0 < i < |vs| :: st[vs[i].creator] != Committed
  {
    assert forall i | 0 < i < |vs| :: vs[i] == vs[1..][i - 1];
  }

  lemma {:induction false} NothingSuperseded(vs: seq<Version>, st: seq<Status>)
    requires CreatorsBelow(vs, |st|) && !HasCommitted(vs, st)
    ensures Superseded(vs, st) == [] && KeepLatest(vs, st) == vs
  {
    if vs == [] {
    } else {
      assert forall i | 1 <= i < |vs| :: vs[i] == vs[1..][i - 1];
      assert !HasCommitted(vs[1..], st);
      assert st[vs[0].creator] != Committed;
      NothingSuperseded(vs[1..], st);
    }
  }

  lemma {:induction false} MaxCreatorIsMax(vs: seq<Version>)
    requires vs != []
    ensures Creates(vs, MaxCreator(vs))
    ensures forall i | 0 <= i < |vs| :: vs[i].creator <= MaxCreator(vs)
  {
    if |vs| == 1 {
      assert vs[0].creator == MaxCreator(vs);
    } else {
      MaxCreatorIsMax(vs[1..]);
      var i :| 0 <= i < |vs[1..]| && vs[1..][i].creator == MaxCreator(vs[1..]);
      assert vs[i + 1].creator == MaxCreator(vs[1..]);
      assert vs[0].creator <= MaxCreator(vs);
      assert forall i | 1 <= i < |vs| :: vs[i] == vs[1..][i - 1];
    }
  }

  /** No version has a later creator. */
  predicate GreatEnough(vs: seq<Version>, t: Tid) {
    forall i | 0 <= i < |vs| :: vs[i].creator <= t
  }

  lemma AdmitsExactly(vs: seq<Version>, t: Tid)
    ensures Admits(vs, t) <==> GreatEnough(vs, t)
  {
    if vs != [] { MaxCreatorIsMax(vs); }
  }

  lemma {:induction false} CreatesRest(vs: seq<Version>, t: Tid)
    requires vs != []
    ensures Creates(vs, t) <==> vs[0].creator == t || Creates(vs[1..], t)
  {
    if Creates(vs[1..], t) {
      var i :| 0 <= i < |vs[1..]| && vs[1..][i].creator == t;
      assert vs[i + 1].creator == t;
    }
    if Creates(vs, t) && vs[0].creator != t {
      var i :| 0 <= i < |vs| && vs[i].creator == t;
      assert vs[1..][i - 1].creator == t;
    }
  }

  lemma {:induction false} AbortCreatorsAt(vs: seq<Version>, st: seq<Status>, t: Tid)
    requires CreatorsBelow(vs, |st|) && t < |st|
    ensures AbortCreators(vs, st)[t] == if Creates(vs, t) then Aborted else st[t]
    decreases |vs|
  {
    if vs != [] {
      CreatesRest(vs, t);
      AbortCreatorsAt(vs[1..], st[vs[0].creator := Aborted], t);
    }
  }

  lemma AbortCreatorsAll(vs: seq<Version>, st: seq<Status>)
    requires CreatorsBelow(vs, |st|)
    ensures forall i | 0 <= i < |vs| :: AbortCreators(vs, st)[vs[i].creator] == Aborted
  {
    forall i | 0 <= i < |vs| ensures AbortCreators(vs, st)[vs[i].creator] == Aborted {
      AbortCreatorsAt(vs, st, vs[i].creator);
    }
  }

  /** Exactly the pending creators other than `t` are added. */
  lemma {:induction false} AddDependenciesAdds(ds: seq<Tid>, vs: seq<Version>, t: Tid, st: seq<Status>, d: Tid)
    requires CreatorsBelow(vs, |st|)
    ensures d in AddDependencies(ds, vs, t, st) <==> d in ds || (Creates(vs, d) && d != t && st[d] == Pending)
    decreases |vs|
  {
    if vs != [] {
      var c := vs[0].creator;
      CreatesRest(vs, d);
      AddDependenciesAdds(if c != t && st[c] == Pending && c !in ds then [c] + ds else ds, vs[1..], t, st, d);
    }
  }

  lemma {:induction false} AddDependenciesDistinct(ds: seq<Tid>, vs: seq<Version>, t: Tid, st: seq<Status>)
    requires CreatorsBelow(vs, |st|) && NoRepeats(ds)
    ensures NoRepeats(AddDependencies(ds, vs, t, st))
    decreases |vs|
  {
    if vs != [] {
      var c := vs[0].creator;
      AddDependenciesDistinct(if c != t && st[c] == Pending && c !in ds then [c] + ds else ds, vs[1..], t, st);
    }
  }

  lemma FirstAbortedSplits(vs: seq<Version>, st: seq<Status>)
    requires CreatorsBelow(vs, |st|) && CommittedFirst(vs, st)
    ensures var n := FirstAborted(vs, st);
            && CommittedFirst(vs[..n], st)
            && (HasCommitted(vs, st) <==> HasCommitted(vs[..n], st))
            && (forall i | n <= i < |vs| :: st[vs[i].creator] != Committed)
  {
    var n := FirstAborted(vs, st);
    if i :| 0 <= i < |vs| && st[vs[i].creator] == Committed {
      assert st[vs[..n][i].creator] == Committed;
    }
  }

  /** A pass splits a list into the superseded versions, what it keeps and what it takes back, in order:
      at most one committed version, then pending ones, and committed ones only if there were any. */
  lemma CollectSplits(vs: seq<Version>, st: seq<Status>)
    requires CreatorsBelow(vs, |st|) && CommittedFirst(vs, st)
    ensures vs == Outdated(vs, st) + Collected(vs, st) + Doomed(vs, st)
    ensures AllCommitted(Outdated(vs, st), st)
    ensures NoneAborted(Collected(vs, st), st)
    ensures forall i | 0 < i < |Collected(vs, st)| :: st[Collected(vs, st)[i].creator] == Pending
    ensures HasCommitted(vs, st) <==> Collected(vs, st) != [] && st[Collected(vs, st)[0].creator] == Committed
    ensures Outdated(vs, st) != [] ==> HasCommitted(vs, st)
    ensures forall i | 0 <= i < |Doomed(vs, st)| :: st[Doomed(vs, st)[i].creator] != Committed
  {
    var n := FirstAborted(vs, st);
    FirstAbortedSplits(vs, st);
    KeepLatestFacts(vs[..n], st);
  }

  lemma KeepLatestFacts(p: seq<Version>, st: seq<Status>)
    requires CreatorsBelow(p, |st|) && CommittedFirst(p, st) && NoneAborted(p, st)
    ensures p == Superseded(p, st) + KeepLatest(p, st)
    ensures AllCommitted(Superseded(p, st), st) && NoneAborted(KeepLatest(p, st), st)
    ensures forall i | 0 < i < |KeepLatest(p, st)| :: st[KeepLatest(p, st)[i].creator] == Pending
    ensures HasCommitted(p, st) <==> KeepLatest(p, st) != [] && st[KeepLatest(p, st)[0].creator] == Committed
    ensures Superseded(p, st) != [] ==> HasCommitted(p, st)
  {
    hide Superseded, KeepLatest, CommittedFirst;
    KeepLatestSplits(p, st);
    var a, b := Superseded(p, st), KeepLatest(p, st);
    assert forall i | 0 <= i < |b| :: p[|a| + i] == b[i];
    assert forall i | 0 <= i < |a| :: p[i] == a[i];
    if a != [] { assert st[p[0].creator] == Committed; }
  }

  /** Aborting the creators taken back leaves those of the kept versions alone. */
  lemma KeptUnharmed(a: seq<Version>, b: seq<Version>, d: seq<Version>, st: seq<Status>)
    requires CreatorsBelow(b, |st|) && CreatorsBelow(d, |st|) && Sorted(a + b + d)
    ensures forall i | 0 <= i < |b| :: AbortCreators(d, st)[b[i].creator] == st[b[i].creator]
  {
    forall i | 0 <= i < |b| ensures AbortCreators(d, st)[b[i].creator] == st[b[i].creator] {
      AbortCreatorsAt(d, st, b[i].creator);
      forall j | 0 <= j < |d| ensures d[j].creator != b[i].creator {
        var c := a + b + d;
        assert c[|a| + i] == b[i] && c[|a| + |b| + j] == d[j];
      }
    }
  }

  // ----- Installation

  lemma LastIsMax(vs: seq<Version>)
    requires Sorted(vs) && vs != []
    ensures MaxCreator(vs) == vs[|vs| - 1].creator
  {
    MaxCreatorIsMax(vs);
  }

  lemma InstallParts(vs: seq<Version>, v: Version)
    ensures var r := Install(vs, v);
            && r != [] && r[|r| - 1] == v
            && (|r| == |vs| + 1 || (|r| == |vs| && vs[|vs| - 1].creator == v.creator))
            && (forall i | 0 <= i < |r| - 1 :: r[i] == vs[i])
  {
  }

  lemma InstallCreates(vs: seq<Version>, v: Version, d: Tid)
    ensures Creates(Install(vs, v), d) <==> d == v.creator || Creates(vs, d)
  {
    var r := Install(vs, v);
    InstallParts(vs, v);
    if Creates(vs, d) && d != v.creator {
      var i :| 0 <= i < |vs| && vs[i].creator == d;
      assert r[i].creator == d;
    }
    if d == v.creator { assert r[|r| - 1].creator == d; }
  }

  lemma InstallSorted(vs: seq<Version>, v: Version)
    requires Sorted(vs) && (vs == [] || vs[|vs| - 1].creator <= v.creator)
    ensures Sorted(Install(vs, v))
  {
    InstallParts(vs, v);
  }

  lemma SortedSuffix(a: seq<Version>, b: seq<Version>)
    requires Sorted(a + b)
    ensures Sorted(b)
  {
    forall i, j | 0 <= i < j < |b| ensures b[i].creator < b[j].creator {
      assert (a + b)[|a| + i] == b[i] && (a + b)[|a| + j] == b[j];
    }
  }
}
