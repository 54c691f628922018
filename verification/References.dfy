/** Reference counts of transactions: trans_ref, trans_unref and the frees that an unref sets off. */
module References {
  import opened Types
  import opened Counting
  import opened VersionLists
  import opened Protocol

  /** Drops one reference.  A count that reaches zero frees the transaction, which drops one reference for
      each node of its dependency list.  A freed transaction has count zero. */
  function Unref(counts: seq<nat>, deps: seq<seq<Tid>>, t: Tid): (r: seq<nat>)
    requires DepsBelow(deps) && |counts| == |deps| && t < |counts|
    ensures |r| == |counts|
    decreases 2 * t + 1, 0
  {
    if counts[t] == 0 then counts
    else
      var less := counts[t := counts[t] - 1];
      if less[t] == 0 then UnrefAll(less, deps, deps[t], t) else less
  }

  function UnrefAll(counts: seq<nat>, deps: seq<seq<Tid>>, ds: seq<Tid>, bound: Tid): (r: seq<nat>)
    requires DepsBelow(deps) && |counts| == |deps| && bound <= |counts|
    requires forall d | d in ds :: d < bound
    ensures |r| == |counts|
    decreases 2 * bound, |ds|
  {
    if ds == [] then counts
    else
      assert ds[0] in ds && forall d | d in ds[1..] :: d in ds;
      UnrefAll(Unref(counts, deps, ds[0]), deps, ds[1..], bound)
  }

  function Ref(counts: seq<nat>, t: Tid): (r: seq<nat>)
    requires t < |counts|
    ensures |r| == |counts|
  {
    counts[t := counts[t] + 1]
  }

  /** One unit for every live transaction whose dependency list has a node for `d`. */
  function DepHolders(counts: seq<nat>, deps: seq<seq<Tid>>, d: Tid): seq<nat>
    requires |counts| == |deps|
  {
    seq(|counts|, u requires 0 <= u < |counts| => if counts[u] > 0 && d in deps[u] then 1 else 0)
  }

  /** Every count is the number of its dependency nodes in live transactions plus the other holders. */
  ghost predicate Balanced(counts: seq<nat>, deps: seq<seq<Tid>>, others: seq<nat>) {
    && |counts| == |deps| == |others|
    && forall d | 0 <= d < |counts| :: counts[d] == others[d] + Sum(DepHolders(counts, deps, d))
  }

  function Minus(others: seq<nat>, ds: seq<Tid>): (r: seq<nat>)
    ensures |r| == |others|
  {
    seq(|others|, x requires 0 <= x < |others| => if x in ds && others[x] > 0 then others[x] - 1 else others[x])
  }

  function Plus(others: seq<nat>, ds: seq<Tid>): (r: seq<nat>)
    ensures |r| == |others|
  {
    seq(|others|, x requires 0 <= x < |others| => if x in ds then others[x] + 1 else others[x])
  }

  lemma HoldersSame(counts: seq<nat>, counts': seq<nat>, deps: seq<seq<Tid>>, d: Tid)
    requires |counts| == |counts'| == |deps|
    requires forall u | 0 <= u < |counts| :: counts[u] > 0 <==> counts'[u] > 0
    ensures DepHolders(counts', deps, d) == DepHolders(counts, deps, d)
  {
  }

  lemma HoldersFreed(counts: seq<nat>, deps: seq<seq<Tid>>, t: Tid, d: Tid)
    requires |counts| == |deps| && t < |counts| && counts[t] > 0
    ensures Sum(DepHolders(counts[t := 0], deps, d)) == Sum(DepHolders(counts, deps, d)) - if d in deps[t] then 1 else 0
  {
    SumChange(DepHolders(counts, deps, d), DepHolders(counts[t := 0], deps, d), t);
  }

  lemma DropBalanced(counts: seq<nat>, deps: seq<seq<Tid>>, others: seq<nat>, t: Tid)
    requires DepsBelow(deps) && Balanced(counts, deps, others) && t < |counts| && others[t] > 0 && counts[t] > 1
    ensures Balanced(counts[t := counts[t] - 1], deps, others[t := others[t] - 1])
  {
    var less := counts[t := counts[t] - 1];
    forall d | 0 <= d < |counts| ensures less[d] == others[t := others[t] - 1][d] + Sum(DepHolders(less, deps, d)) {
      HoldersSame(counts, less, deps, d);
    }
  }

  /** Freeing turns the nodes of the dependency list into references still to be dropped. */
  lemma FreeBalanced(counts: seq<nat>, deps: seq<seq<Tid>>, others: seq<nat>, t: Tid)
    requires DepsBelow(deps) && Balanced(counts, deps, others) && t < |counts| && others[t] > 0 && counts[t] == 1
    ensures Balanced(counts[t := 0], deps, Plus(others[t := others[t] - 1], deps[t]))
  {
    var less, rest := counts[t := 0], Plus(others[t := others[t] - 1], deps[t]);
    forall d | 0 <= d < |counts| ensures less[d] == rest[d] + Sum(DepHolders(less, deps, d)) {
      HoldersFreed(counts, deps, t, d);
    }
  }

  /** Dropping a reference keeps the books balanced, through every free that it sets off. */
  lemma {:induction false} UnrefBalanced(counts: seq<nat>, deps: seq<seq<Tid>>, others: seq<nat>, t: Tid)
    requires DepsBelow(deps) && (forall u | 0 <= u < |deps| :: NoRepeats(deps[u]))
    requires Balanced(counts, deps, others) && t < |counts| && others[t] > 0
    ensures Balanced(Unref(counts, deps, t), deps, others[t := others[t] - 1])
    decreases 2 * t + 1, 0
  {
    if counts[t] > 1 {
      DropBalanced(counts, deps, others, t);
    } else {
      FreeBalanced(counts, deps, others, t);
      var owed := Plus(others[t := others[t] - 1], deps[t]);
      UnrefAllBalanced(counts[t := 0], deps, owed, deps[t], t);
      assert Minus(owed, deps[t]) == others[t := others[t] - 1];
    }
  }

  lemma MinusFirst(others: seq<nat>, ds: seq<Tid>)
    requires ds != [] && NoRepeats(ds) && ds[0] < |others| && others[ds[0]] > 0
    ensures Minus(others, ds) == Minus(others[ds[0] := others[ds[0]] - 1], ds[1..])
  {
    assert forall x | x in ds[1..] :: x in ds;
  }

  lemma {:induction false} UnrefAllBalanced(counts: seq<nat>, deps: seq<seq<Tid>>, others: seq<nat>, ds: seq<Tid>,
                                            bound: Tid)
    requires DepsBelow(deps) && (forall u | 0 <= u < |deps| :: NoRepeats(deps[u]))
    requires Balanced(counts, deps, others) && bound <= |counts| && NoRepeats(ds)
    requires forall d | d in ds :: d < bound && others[d] > 0
    ensures Balanced(UnrefAll(counts, deps, ds, bound), deps, Minus(others, ds))
    decreases 2 * bound, |ds|
  {
    if ds == [] {
      assert Minus(others, ds) == others;
    } else {
      var d := ds[0];
      assert d in ds;
      UnrefBalanced(counts, deps, others, d);
      var rest := others[d := others[d] - 1];
      forall x | x in ds[1..] ensures x < bound && rest[x] > 0 {
        assert x in ds && x != d;
      }
      MinusFirst(others, ds);
      hide Balanced, Minus, DepsBelow;
      UnrefAllBalanced(Unref(counts, deps, d), deps, rest, ds[1..], bound);
    }
  }

  /** A reference taken and given back at once changes nothing. */
  lemma BackAgain(counts: seq<nat>, deps: seq<seq<Tid>>, t: Tid)
    requires DepsBelow(deps) && |counts| == |deps| && t < |counts| && counts[t] > 0
    ensures Unref(Ref(counts, t), deps, t) == counts
    ensures forall x | 0 <= x < |counts| && counts[x] > 0 :: Ref(counts, t)[x] > 0
  {
  }

  /** Freed transactions stay freed. */
  lemma {:induction false} UnrefShrinks(counts: seq<nat>, deps: seq<seq<Tid>>, t: Tid)
    requires DepsBelow(deps) && |counts| == |deps| && t < |counts|
    ensures forall x | 0 <= x < |counts| :: Unref(counts, deps, t)[x] <= counts[x]
    decreases 2 * t + 1, 0
  {
    if counts[t] == 1 {
      UnrefAllShrinks(counts[t := 0], deps, deps[t], t);
    }
  }

  lemma {:induction false} UnrefAllShrinks(counts: seq<nat>, deps: seq<seq<Tid>>, ds: seq<Tid>, bound: Tid)
    requires DepsBelow(deps) && |counts| == |deps| && bound <= |counts|
    requires forall d | d in ds :: d < bound
    ensures forall x | 0 <= x < |counts| :: UnrefAll(counts, deps, ds, bound)[x] <= counts[x]
    decreases 2 * bound, |ds|
  {
    if ds != [] {
      assert ds[0] in ds && forall d | d in ds[1..] :: d in ds;
      UnrefShrinks(counts, deps, ds[0]);
      UnrefAllShrinks(Unref(counts, deps, ds[0]), deps, ds[1..], bound);
    }
  }
}
