/**
 * Whether a transaction may spend shielded notes: nothing is spent twice, and
 * every anchor is one the view shows or one the transaction itself has made.
 */
module CoinsShielded {
  import opened Coins
  import opened CoinsCache
  import CoinsRun

  datatype JoinSplit = JoinSplit(nullifiers: seq<Hash>, anchor: Hash, commitments: seq<Hash>)

  datatype Spend = Spend(nullifier: Hash, anchor: Hash)

  /** The tree with a root; there is no other when roots do not collide. */
  ghost function TreeAt(params: Params, anchor: Hash): Tree {
    if t :| params.root(Sprout, t) == anchor then t else Tree([])
  }

  function Append(t: Tree, commitments: seq<Hash>): Tree {
    Tree(t.leaves + commitments)
  }

  /** The root after a joinsplit has added its commitments to the tree at its anchor. */
  ghost function RootAfter(params: Params, js: JoinSplit): Hash {
    params.root(Sprout, Append(TreeAt(params, js.anchor), js.commitments))
  }

  /** An anchor is shown, or is the root after an earlier joinsplit. */
  ghost predicate AnchorKnown(params: Params, v: View, js: seq<JoinSplit>, i: nat)
    requires i < |js|
  {
    v.anchor(Key(Sprout, js[i].anchor)) || exists j :: 0 <= j < i && RootAfter(params, js[j]) == js[i].anchor
  }

  ghost predicate AllUnspent(v: View, pool: ShieldedType, nullifiers: seq<Hash>) {
    forall i :: 0 <= i < |nullifiers| ==> !v.nullifier(Key(pool, nullifiers[i]))
  }

  ghost predicate JoinSplitFine(params: Params, v: View, js: seq<JoinSplit>, i: nat)
    requires i < |js|
  {
    AllUnspent(v, Sprout, js[i].nullifiers) && AnchorKnown(params, v, js, i)
  }

  ghost predicate SpendFine(v: View, s: Spend) {
    !v.nullifier(Key(Sapling, s.nullifier)) && v.anchor(Key(Sapling, s.anchor))
  }

  lemma TreeIsUnique(params: Params, t: Tree)
    requires params.CollisionFree()
    ensures TreeAt(params, params.root(Sprout, t)) == t
  {
  }

  /** What a transaction needs in order to spend its shielded notes. */
  ghost predicate Met(params: Params, v: View, js: seq<JoinSplit>, spends: seq<Spend>) {
    && (forall i :: 0 <= i < |js| ==> JoinSplitFine(params, v, js, i))
    && (forall i :: 0 <= i < |spends| ==> SpendFine(v, spends[i]))
  }

  /** What a transaction spends. */
  ghost predicate Spends(js: seq<JoinSplit>, spends: seq<Spend>, k: Key) {
    match k.pool
    case Sprout => exists i :: 0 <= i < |js| && k.hash in js[i].nullifiers
    case Sapling => exists i :: 0 <= i < |spends| && k.hash == spends[i].nullifier
  }

  /** Once the notes of a transaction are spent, no transaction can spend one of them again. */
  lemma NoDoubleSpend(params: Params, v: View, js: seq<JoinSplit>, spends: seq<Spend>, k: Key)
    requires Spends(js, spends, k) && v.nullifier(k)
    ensures !Met(params, v, js, spends)
  {
    match k.pool
    case Sprout =>
      var i :| 0 <= i < |js| && k.hash in js[i].nullifiers;
      assert !JoinSplitFine(params, v, js, i);
    case Sapling =>
      var i :| 0 <= i < |spends| && k.hash == spends[i].nullifier;
      assert !SpendFine(v, spends[i]);
  }

  /** Whether an operation may bring back a spent note: by saying so, or by dropping layers. */
  ghost predicate Unspends(op: CoinsRun.Op, k: Key) {
    op.Discard? || (op.SetNullifiers? && !op.spent && k in op.ks)
  }

  /** A spent note stays spent over every run that does not bring it back, on whatever layers. */
  lemma {:induction false} SpentStays(params: Params, ls: seq<Layer>, ops: seq<CoinsRun.Op>, k: Key)
    requires |ls| >= 2 && ls[0].view.nullifier(k) && forall i :: 0 <= i < |ops| ==> !Unspends(ops[i], k)
    ensures CoinsRun.ApplyAll(params, ls, ops)[0].view.nullifier(k)
    decreases |ops|
  {
    if ops != [] {
      SpentAfter(params, ls, ops[0], k);
      SpentStays(params, CoinsRun.Apply(params, ls, ops[0]), ops[1..], k);
    }
  }

  lemma SpentAfter(params: Params, ls: seq<Layer>, op: CoinsRun.Op, k: Key)
    requires |ls| >= 2 && ls[0].view.nullifier(k) && !Unspends(op, k)
    ensures CoinsRun.Apply(params, ls, op)[0].view.nullifier(k)
  {
    hide LoadBlock, LoadAnchor;
    if op.ReadBestBlock? || op.ReadBestAnchor? {
      CoinsRun.LoadsShowSame(ls, if op.ReadBestAnchor? then op.pool else Sprout);
    }
  }

  /** So no transaction can spend a note that an earlier one of the run has spent. */
  lemma NeverTwice(params: Params, ls: seq<Layer>, ks: seq<Key>, ops: seq<CoinsRun.Op>, js: seq<JoinSplit>,
                   spends: seq<Spend>, k: Key)
    requires |ls| >= 2 && k in ks && Spends(js, spends, k) && forall i :: 0 <= i < |ops| ==> !Unspends(ops[i], k)
    ensures !Met(params, CoinsRun.ApplyAll(params, ls, [CoinsRun.SetNullifiers(ks, true)] + ops)[0].view, js, spends)
  {
    hide Met, Spends, Unspends;
    var spent := CoinsRun.SetNullifiers(ks, true);
    CoinsRun.FirstStep(params, ls, spent, ops);
    SpentStays(params, CoinsRun.Apply(params, ls, spent), ops, k);
    NoDoubleSpend(params, CoinsRun.ApplyAll(params, ls, [spent] + ops)[0].view, js, spends, k);
  }

  /** The commitments of some of the joinsplits, one after another. */
  ghost function Commitments(js: seq<JoinSplit>, chain: seq<nat>): (r: seq<Hash>)
    requires forall k :: 0 <= k < |chain| ==> chain[k] < |js|
  {
    if chain == [] then [] else Commitments(js, chain[..|chain| - 1]) + js[chain[|chain| - 1]].commitments
  }

  ghost predicate Before(chain: seq<nat>, i: nat) {
    && (forall k :: 0 <= k < |chain| ==> chain[k] < i)
    && (forall k, l :: 0 <= k < l < |chain| ==> chain[k] < chain[l])
  }

  /**
   * The tree at an anchor is a tree that is shown, grown by the commitments of
   * joinsplits before it in the same transaction, in their order.
   */
  lemma {:induction false} TreesAreGrown(params: Params, v: View, js: seq<JoinSplit>, i: nat)
    returns (base: Hash, chain: seq<nat>)
    requires params.CollisionFree() && i < |js| && forall k :: 0 <= k <= i ==> AnchorKnown(params, v, js, k)
    ensures v.anchor(Key(Sprout, base)) && Before(chain, i)
    ensures TreeAt(params, js[i].anchor) == Append(TreeAt(params, base), Commitments(js, chain))
  {
    hide Params.CollisionFree, TreeAt;
    assert AnchorKnown(params, v, js, i);
    if v.anchor(Key(Sprout, js[i].anchor)) {
      base, chain := js[i].anchor, [];
      assert TreeAt(params, base).leaves + [] == TreeAt(params, base).leaves;
    } else {
      var j :| 0 <= j < i && RootAfter(params, js[j]) == js[i].anchor;
      base, chain := TreesAreGrown(params, v, js, j);
      TreeIsUnique(params, Append(TreeAt(params, js[j].anchor), js[j].commitments));
      var more := chain + [j];
      assert more[..|more| - 1] == chain;
      var tree, grown, last := TreeAt(params, base), Commitments(js, chain), js[j].commitments;
      assert (tree.leaves + grown) + last == tree.leaves + (grown + last);
      chain := more;
    }
  }

  /** What the requirements are for: nothing a transaction spends is spent, and it builds on known trees alone. */
  ghost predicate Allowed(params: Params, v: View, js: seq<JoinSplit>, spends: seq<Spend>) {
    && (forall k: Key :: Spends(js, spends, k) ==> !v.nullifier(k))
    && (forall i :: 0 <= i < |spends| ==> v.anchor(Key(Sapling, spends[i].anchor)))
    && (forall i :: 0 <= i < |js| ==> AnchorKnown(params, v, js, i))
  }

  lemma MetIsAllowed(params: Params, v: View, js: seq<JoinSplit>, spends: seq<Spend>)
    ensures Met(params, v, js, spends) <==> Allowed(params, v, js, spends)
  {
    hide AnchorKnown;
    if Met(params, v, js, spends) {
      forall k: Key | Spends(js, spends, k)
        ensures !v.nullifier(k)
      {
        if v.nullifier(k) {
          NoDoubleSpend(params, v, js, spends, k);
        }
      }
      forall i | 0 <= i < |spends|
        ensures v.anchor(Key(Sapling, spends[i].anchor))
      {
        assert SpendFine(v, spends[i]);
      }
      forall i | 0 <= i < |js|
        ensures AnchorKnown(params, v, js, i)
      {
        assert JoinSplitFine(params, v, js, i);
      }
    }
    if Allowed(params, v, js, spends) {
      forall i | 0 <= i < |js|
        ensures JoinSplitFine(params, v, js, i)
      {
        assert forall n :: 0 <= n < |js[i].nullifiers| ==> Spends(js, spends, Key(Sprout, js[i].nullifiers[n]));
      }
      forall i | 0 <= i < |spends|
        ensures SpendFine(v, spends[i])
      {
        assert Spends(js, spends, Key(Sapling, spends[i].nullifier));
      }
    }
  }

  /** The trees made so far, by their roots. */
  ghost predicate Intermediate(params: Params, js: seq<JoinSplit>, n: nat, trees: map<Hash, Tree>)
    requires n <= |js|
  {
    && (forall r :: r in trees ==> params.root(Sprout, trees[r]) == r)
    && (forall r :: r in trees <==> exists j :: 0 <= j < n && RootAfter(params, js[j]) == r)
  }

  method NoneSpent(cache: CoinsViewCache, nullifiers: seq<Hash>) returns (fine: bool)
    requires cache.Valid()
    modifies cache.Repr
    ensures cache.Valid() && cache.view == old(cache.view) && cache.open == old(cache.open)
    ensures cache.Lower() == old(cache.Lower())
    ensures fine <==> AllUnspent(cache.view, Sprout, nullifiers)
  {
    hide CoinsViewCache.Valid;
    for i := 0 to |nullifiers|
      invariant cache.Valid() && cache.view == old(cache.view) && cache.open == old(cache.open)
      invariant cache.Lower() == old(cache.Lower())
      invariant forall j :: 0 <= j < i ==> !cache.view.nullifier(Key(Sprout, nullifiers[j]))
    {
      var spent := cache.GetNullifier(Key(Sprout, nullifiers[i]));
      if spent {
        return false;
      }
    }
    return true;
  }

  /** The tree at the anchor of a joinsplit, from the transaction itself or from the view. */
  method FindTree(cache: CoinsViewCache, js: seq<JoinSplit>, i: nat, trees: map<Hash, Tree>)
    returns (found: bool, tree: Tree)
    requires cache.Valid() && i < |js| && Intermediate(cache.params, js, i, trees)
    modifies cache.Repr
    ensures cache.Valid() && cache.view == old(cache.view) && cache.open == old(cache.open)
    ensures cache.Lower() == old(cache.Lower())
    ensures found <==> AnchorKnown(cache.params, cache.view, js, i)
    ensures found ==> cache.params.root(Sprout, tree) == js[i].anchor
  {
    hide CoinsViewCache.Valid, RootAfter;
    if js[i].anchor in trees {
      return true, trees[js[i].anchor];
    }
    found, tree := cache.GetAnchorAt(Key(Sprout, js[i].anchor));
  }

  lemma OneMoreTree(params: Params, js: seq<JoinSplit>, i: nat, trees: map<Hash, Tree>, tree: Tree)
    requires params.CollisionFree() && i < |js| && Intermediate(params, js, i, trees)
    requires params.root(Sprout, tree) == js[i].anchor
    ensures var next := Append(tree, js[i].commitments);
            var r := params.root(Sprout, next);
            Intermediate(params, js, i + 1, if r in trees then trees else trees[r := next])
  {
    TreeIsUnique(params, tree);
    assert RootAfter(params, js[i]) == params.root(Sprout, Append(tree, js[i].commitments));
  }

  /** True exactly when no nullifier is spent and every anchor is known where it is used. */
  method HaveShieldedRequirements(cache: CoinsViewCache, js: seq<JoinSplit>, spends: seq<Spend>) returns (have: bool)
    requires cache.Valid() && cache.params.CollisionFree()
    modifies cache.Repr
    ensures cache.Valid() && cache.view == old(cache.view) && cache.open == old(cache.open)
    ensures cache.Lower() == old(cache.Lower())
    ensures have <==> Met(cache.params, cache.view, js, spends)
  {
    hide CoinsViewCache.Valid, Params.CollisionFree, Intermediate, AnchorKnown, AllUnspent;
    var intermediates: map<Hash, Tree> := map[];
    NoTrees(cache.params, js);
    for i := 0 to |js|
      invariant cache.Valid() && cache.view == old(cache.view) && cache.open == old(cache.open)
      invariant cache.Lower() == old(cache.Lower()) && Intermediate(cache.params, js, i, intermediates)
      invariant forall j :: 0 <= j < i ==> JoinSplitFine(cache.params, cache.view, js, j)
    {
      var fine := NoneSpent(cache, js[i].nullifiers);
      if !fine {
        assert !JoinSplitFine(cache.params, cache.view, js, i);
        return false;
      }
      var found, tree := FindTree(cache, js, i, intermediates);
      if !found {
        assert !JoinSplitFine(cache.params, cache.view, js, i);
        return false;
      }
      OneMoreTree(cache.params, js, i, intermediates, tree);
      tree := Append(tree, js[i].commitments);
      var root := cache.params.root(Sprout, tree);
      if root !in intermediates {
        intermediates := intermediates[root := tree];
      }
    }
    have := HaveSpends(cache, spends);
  }

  lemma NoTrees(params: Params, js: seq<JoinSplit>)
    ensures Intermediate(params, js, 0, map[])
  {
  }

  method HaveSpends(cache: CoinsViewCache, spends: seq<Spend>) returns (have: bool)
    requires cache.Valid()
    modifies cache.Repr
    ensures cache.Valid() && cache.view == old(cache.view) && cache.open == old(cache.open)
    ensures cache.Lower() == old(cache.Lower())
    ensures have <==> forall i :: 0 <= i < |spends| ==> SpendFine(cache.view, spends[i])
  {
    hide CoinsViewCache.Valid;
    for i := 0 to |spends|
      invariant cache.Valid() && cache.view == old(cache.view) && cache.open == old(cache.open)
      invariant cache.Lower() == old(cache.Lower())
      invariant forall j :: 0 <= j < i ==> SpendFine(cache.view, spends[j])
    {
      var spent := cache.GetNullifier(Key(Sapling, spends[i].nullifier));
      if spent {
        return false;
      }
      var found, _ := cache.GetAnchorAt(Key(Sapling, spends[i].anchor));
      if !found {
        return false;
      }
    }
    return true;
  }
}
