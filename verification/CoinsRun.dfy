/**
 * Whole runs over a stack of caches.  A stack is meant to behave like a list of
 * independent layers, each with all it shows: a new layer is a copy of the top
 * one, flushing copies the top over the next, and a layer that is dropped takes
 * its changes with it.  However layers are stacked, read through, modified,
 * flushed and dropped, every layer shows what the same operations do to that
 * list.  Only the hashes of the best block and anchors are more than copied: a
 * layer keeps a null hash until it reads or sets one.
 */
module CoinsRun {
  import opened Common
  import opened Coins
  import opened CoinsCache

  datatype Op =
    | ReadCoins(t: Hash)
    | ReadAnchor(k: Key)
    | ReadNullifier(k: Key)
    | ReadBestBlock
    | ReadBestAnchor(pool: ShieldedType)
    | Forget(t: Hash)
    | Modify(t: Hash, c: Coins)
    | Create(t: Hash, c: Coins)
    | SetNullifiers(ks: seq<Key>, spent: bool)
    | PushAnchor(pool: ShieldedType, tree: Tree)
    | PopAnchor(pool: ShieldedType, newrt: Hash)
    | SetBestBlock(h: Hash)
    | Stack
    | Flush
    | Unstack
    | Discard

  predicate Layering(op: Op) {
    op.Stack? || op.Flush? || op.Unstack? || op.Discard?
  }

  // --------------------------------------------------------------- a list of layers

  ghost function ReplaceAnchor(l: Layer, below: View, pool: ShieldedType, k: Key, entered: bool, h: Hash): Layer {
    if h == l.view.best.At(pool) then l.(hashAnchor := l.hashAnchor.With(pool, h))
    else
      Layer(l.view.(anchor := Put(l.view.anchor, k, entered),
                    best := l.view.best.With(pool, Loaded(h, below.best.At(pool)))),
            l.hashBlock, l.hashAnchor.With(pool, h))
  }

  /** What an operation means for the top layer, given what the next one shows. */
  ghost function ApplyTop(params: Params, l: Layer, below: View, op: Op): Layer {
    var v := l.view;
    match op
    case Modify(t, c) => l.(view := v.WithCoins(t, Tidy(Live(Some(c)))))
    case Create(t, c) => l.(view := v.WithCoins(t, Tidy(Live(Some(c)))))
    case SetNullifiers(ks, spent) =>
      l.(view := v.(nullifier := (k: Key) => if k in ks then spent else v.nullifier(k)))
    case PushAnchor(pool, tree) =>
      var rt := params.root(pool, tree);
      ReplaceAnchor(l, below, pool, Key(pool, rt), true, rt)
    case PopAnchor(pool, newrt) => ReplaceAnchor(l, below, pool, Key(pool, v.best.At(pool)), false, newrt)
    case SetBestBlock(h) => Layer(v.(bestBlock := Loaded(h, below.bestBlock)), h, l.hashAnchor)
    case _ => l
  }

  /** What the other layers keep when the top one reads its best block or an anchor. */
  ghost function Lowered(ls: seq<Layer>, op: Op): (r: seq<Layer>)
    requires |ls| >= 2
    ensures |r| == |ls| - 1
  {
    match op
    case PushAnchor(pool, _) => LoadAnchor(ls, pool)[1..]
    case PopAnchor(pool, _) => LoadAnchor(ls, pool)[1..]
    case _ => ls[1..]
  }

  /** What lies below the layer that a flush writes to; the database itself, if it writes there. */
  ghost function Under(ls: seq<Layer>): View
    requires |ls| >= 2
  {
    if |ls| == 2 then ls[1].view else ls[2].view
  }

  /**
   * What the top and the next layer show after a flush: the top's coins, anchors
   * and nullifiers, with the empty tree always an anchor of the database, and the
   * top's hashes, with those it has not loaded looked up below the next layer.
   */
  ghost function FlushedView(params: Params, ls: seq<Layer>): View
    requires |ls| >= 2
  {
    var t := ls[0];
    View(t.view.coins,
         (k: Key) => t.view.anchor(k) || (|ls| == 2 && k.hash == params.EmptyRoot(k.pool)),
         t.view.nullifier,
         Loaded(t.hashBlock, Under(ls).bestBlock), LoadedBest(t.hashAnchor, Under(ls).best))
  }

  ghost function Flushed(params: Params, ls: seq<Layer>): (r: seq<Layer>)
    requires |ls| >= 2
    ensures |r| == |ls|
  {
    var t, v := ls[0], FlushedView(params, ls);
    var next :=
      if |ls| == 2 then Layer(v, Loaded(t.hashBlock, ls[1].hashBlock), LoadedBest(t.hashAnchor, ls[1].hashAnchor))
      else Layer(v, t.hashBlock, t.hashAnchor);
    [t.(view := v), next] + ls[2..]
  }

  /**
   * What an operation means for a list of layers, the top first and the database
   * last.  `Unstack` flushes the top layer and drops it, `Discard` just drops it;
   * the layer on the database stays.
   */
  ghost function Apply(params: Params, ls: seq<Layer>, op: Op): (r: seq<Layer>)
    requires |ls| >= 2
    ensures |r| >= 2
  {
    match op
    case ReadBestBlock => LoadBlock(ls)
    case ReadBestAnchor(pool) => LoadAnchor(ls, pool)
    case Stack => [Layer(ls[0].view, NULL_HASH, NoBest)] + ls
    case Flush => Flushed(params, ls)
    case Unstack => if |ls| == 2 then Flushed(params, ls) else Flushed(params, ls)[1..]
    case Discard => if |ls| == 2 then ls else ls[1..]
    case _ => [ApplyTop(params, ls[0], ls[1].view, op)] + Lowered(ls, op)
  }

  /**
   * What callers promise: a created transaction has no unspent output on top or
   * one layer below, and anchors that are popped exist.
   */
  ghost predicate Legal(ls: seq<Layer>, op: Op)
    requires |ls| >= 2
  {
    var v := ls[0].view;
    match op
    case Create(t, c) => v.coins(t) == None && Live(ls[1].view.coins(t)) == None
    case PopAnchor(pool, newrt) => newrt != v.best.At(pool) ==> v.anchor(Key(pool, v.best.At(pool)))
    case _ => true
  }

  ghost function ApplyAll(params: Params, ls: seq<Layer>, ops: seq<Op>): (r: seq<Layer>)
    requires |ls| >= 2
    ensures |r| >= 2
    decreases |ops|
  {
    if ops == [] then ls else ApplyAll(params, Apply(params, ls, ops[0]), ops[1..])
  }

  ghost predicate AllLegal(params: Params, ls: seq<Layer>, ops: seq<Op>)
    requires |ls| >= 2
    decreases |ops|
  {
    ops == [] || (Legal(ls, ops[0]) && AllLegal(params, Apply(params, ls, ops[0]), ops[1..]))
  }

  // ------------------------------------------------------------- what layers show

  /** Two views show the same. */
  ghost predicate Same(v: View, w: View) {
    && (forall t :: v.coins(t) == w.coins(t))
    && (forall k :: v.anchor(k) == w.anchor(k))
    && (forall k :: v.nullifier(k) == w.nullifier(k))
    && v.bestBlock == w.bestBlock && v.best == w.best
  }

  ghost predicate SameLayer(a: Layer, b: Layer) {
    Same(a.view, b.view) && a.hashBlock == b.hashBlock && a.hashAnchor == b.hashAnchor
  }

  ghost predicate AllSame(ls: seq<Layer>, ms: seq<Layer>) {
    |ls| == |ms| && forall i :: 0 <= i < |ls| ==> SameLayer(ls[i], ms[i])
  }

  lemma AllSameSelf(ls: seq<Layer>)
    ensures AllSame(ls, ls)
  {
  }

  lemma AllSameTrans(ls: seq<Layer>, ms: seq<Layer>, ns: seq<Layer>)
    requires AllSame(ls, ms) && AllSame(ms, ns)
    ensures AllSame(ls, ns)
  {
    hide SameLayer;
    forall i | 0 <= i < |ls| ensures SameLayer(ls[i], ns[i]) {
      SameLayerTrans(ls[i], ms[i], ns[i]);
    }
  }

  lemma SameLayerTrans(a: Layer, b: Layer, c: Layer)
    requires SameLayer(a, b) && SameLayer(b, c)
    ensures SameLayer(a, c)
  {
  }

  lemma SameParts(a: Layer, b: Layer)
    requires SameLayer(a, b)
    ensures a.hashBlock == b.hashBlock && a.hashAnchor == b.hashAnchor
    ensures a.view.bestBlock == b.view.bestBlock && a.view.best == b.view.best
    ensures SameLayer(a.(hashBlock := a.view.bestBlock), b.(hashBlock := b.view.bestBlock))
    ensures forall best :: SameLayer(a.(hashAnchor := best), b.(hashAnchor := best))
  {
  }

  lemma AllSameTail(ls: seq<Layer>, ms: seq<Layer>)
    requires AllSame(ls, ms) && ls != []
    ensures AllSame(ls[1..], ms[1..]) && SameLayer(ls[0], ms[0])
  {
  }

  lemma AllSameJoin(a: Layer, b: Layer, ls: seq<Layer>, ms: seq<Layer>)
    requires SameLayer(a, b) && AllSame(ls, ms)
    ensures AllSame([a] + ls, [b] + ms)
  {
  }

  lemma {:induction false} LoadsRespectSame(ls: seq<Layer>, ms: seq<Layer>, ty: ShieldedType)
    requires AllSame(ls, ms)
    ensures AllSame(LoadBlock(ls), LoadBlock(ms)) && AllSame(LoadAnchor(ls, ty), LoadAnchor(ms, ty))
    decreases |ls|
  {
    hide SameLayer, AllSame;
    SameLength(ls, ms);
    if |ls| > 1 {
      AllSameTail(ls, ms);
      SameParts(ls[0], ms[0]);
      LoadsRespectSame(ls[1..], ms[1..], ty);
      AllSameJoin(ls[0].(hashBlock := ls[0].view.bestBlock), ms[0].(hashBlock := ms[0].view.bestBlock),
                  LoadBlock(ls[1..]), LoadBlock(ms[1..]));
      var best := ls[0].hashAnchor.With(ty, ls[0].view.best.At(ty));
      AllSameJoin(ls[0].(hashAnchor := best), ms[0].(hashAnchor := best),
                  LoadAnchor(ls[1..], ty), LoadAnchor(ms[1..], ty));
    }
  }

  lemma SameLength(ls: seq<Layer>, ms: seq<Layer>)
    requires AllSame(ls, ms)
    ensures |ls| == |ms|
  {
  }

  lemma TopRespectsSame(params: Params, a: Layer, b: Layer, v: View, w: View, op: Op)
    requires SameLayer(a, b) && Same(v, w)
    ensures SameLayer(ApplyTop(params, a, v, op), ApplyTop(params, b, w, op))
  {
  }

  lemma FlushRespectsSame(params: Params, ls: seq<Layer>, ms: seq<Layer>)
    requires |ls| >= 2 && AllSame(ls, ms)
    ensures AllSame(Flushed(params, ls), Flushed(params, ms))
  {
    var v, w := FlushedView(params, ls), FlushedView(params, ms);
    assert SameLayer(ls[0], ms[0]) && SameLayer(ls[1], ms[1]) && (|ls| > 2 ==> SameLayer(ls[2], ms[2]));
    assert Same(v, w);
  }

  lemma LegalRespectsSame(ls: seq<Layer>, ms: seq<Layer>, op: Op)
    requires |ls| >= 2 && |ms| >= 2 && Same(ls[0].view, ms[0].view) && Same(ls[1].view, ms[1].view)
    ensures Legal(ls, op) == Legal(ms, op)
  {
  }

  lemma ApplyRespectsSame(params: Params, ls: seq<Layer>, ms: seq<Layer>, op: Op)
    requires |ls| >= 2 && AllSame(ls, ms)
    ensures AllSame(Apply(params, ls, op), Apply(params, ms, op)) && Legal(ls, op) == Legal(ms, op)
  {
    hide SameLayer, AllSame, ApplyTop, Legal, Flushed, LoadBlock, LoadAnchor, Lowered;
    SameLength(ls, ms);
    FirstTwo(ls, ms);
    LegalRespectsSame(ls, ms, op);
    FlushRespectsSame(params, ls, ms);
    match op
    case ReadBestBlock => LoadsRespectSame(ls, ms, Sprout);
    case ReadBestAnchor(pool) => LoadsRespectSame(ls, ms, pool);
    case Stack => AllSameJoin(Layer(ls[0].view, NULL_HASH, NoBest), Layer(ms[0].view, NULL_HASH, NoBest), ls, ms);
    case Flush =>
    case Unstack => AllSameTail(Flushed(params, ls), Flushed(params, ms));
    case Discard => AllSameTail(ls, ms);
    case _ =>
      TopRespectsSame(params, ls[0], ms[0], ls[1].view, ms[1].view, op);
      LoweredRespectsSame(ls, ms, op);
      AllSameJoin(ApplyTop(params, ls[0], ls[1].view, op), ApplyTop(params, ms[0], ms[1].view, op),
                  Lowered(ls, op), Lowered(ms, op));
  }

  lemma FirstTwo(ls: seq<Layer>, ms: seq<Layer>)
    requires |ls| >= 2 && AllSame(ls, ms)
    ensures |ms| == |ls| && SameLayer(ls[0], ms[0]) && Same(ls[0].view, ms[0].view) && Same(ls[1].view, ms[1].view)
    ensures SameLayer(Layer(ls[0].view, NULL_HASH, NoBest), Layer(ms[0].view, NULL_HASH, NoBest))
  {
    assert SameLayer(ls[0], ms[0]) && SameLayer(ls[1], ms[1]);
  }

  lemma LoweredRespectsSame(ls: seq<Layer>, ms: seq<Layer>, op: Op)
    requires |ls| == |ms| >= 2 && AllSame(ls, ms)
    ensures AllSame(Lowered(ls, op), Lowered(ms, op))
  {
    hide SameLayer, AllSame, LoadBlock, LoadAnchor;
    AllSameTail(ls, ms);
    if op.PushAnchor? || op.PopAnchor? {
      LoadsRespectSame(ls, ms, op.pool);
      AllSameTail(LoadAnchor(ls, op.pool), LoadAnchor(ms, op.pool));
    }
  }

  /** A run depends on nothing but what the layers show and have loaded. */
  lemma {:induction false} RunRespectsSame(params: Params, ls: seq<Layer>, ms: seq<Layer>, ops: seq<Op>)
    requires |ls| >= 2 && AllSame(ls, ms)
    ensures |ms| >= 2 && AllSame(ApplyAll(params, ls, ops), ApplyAll(params, ms, ops))
    ensures AllLegal(params, ls, ops) == AllLegal(params, ms, ops)
    decreases |ops|
  {
    hide SameLayer, AllSame, Legal, Apply;
    SameLength(ls, ms);
    if ops != [] {
      ApplyRespectsSame(params, ls, ms, ops[0]);
      RunRespectsSame(params, Apply(params, ls, ops[0]), Apply(params, ms, ops[0]), ops[1..]);
    }
  }

  // -------------------------------------------------------------- what runs mean

  ghost predicate EmptyShown(params: Params, v: View) {
    forall pool :: v.anchor(Key(pool, params.EmptyRoot(pool)))
  }

  /** A hash shows the same after a flush: it is loaded, or the next layer shows what lies below it. */
  predicate HashKept(h: Hash, next: Hash, under: Hash) {
    h != NULL_HASH || next == under
  }

  /**
   * A flush changes nothing that the top shows exactly when its best block and
   * anchors are loaded, or the next layer has nothing of its own there, and, on
   * the database, the empty trees are anchors already.
   */
  lemma FlushShowsSame(params: Params, ls: seq<Layer>)
    requires |ls| >= 2 && Tied(ls[0], ls[1].view)
    ensures Same(FlushedView(params, ls), ls[0].view) <==>
              && HashKept(ls[0].hashBlock, ls[1].view.bestBlock, Under(ls).bestBlock)
              && HashKept(ls[0].hashAnchor.sprout, ls[1].view.best.sprout, Under(ls).best.sprout)
              && HashKept(ls[0].hashAnchor.sapling, ls[1].view.best.sapling, Under(ls).best.sapling)
              && (|ls| == 2 ==> EmptyShown(params, ls[0].view))
  {
    var v, w := FlushedView(params, ls), ls[0].view;
    if |ls| == 2 && EmptyShown(params, w) {
      forall k: Key ensures v.anchor(k) == w.anchor(k) {
        assert k == Key(k.pool, k.hash);
      }
    }
    if |ls| == 2 && Same(v, w) {
      forall pool ensures w.anchor(Key(pool, params.EmptyRoot(pool))) {
        assert v.anchor(Key(pool, params.EmptyRoot(pool)));
      }
    }
  }

  /** The best block and anchors a layer shows are its own, or else those below it. */
  ghost predicate Tied(l: Layer, below: View) {
    l.view.bestBlock == Loaded(l.hashBlock, below.bestBlock) && l.view.best == LoadedBest(l.hashAnchor, below.best)
  }

  /** What an operation means for a single flat view: reading and layering mean nothing. */
  ghost function ApplyFlat(params: Params, v: View, op: Op): View {
    ApplyTop(params, Layer(v, NULL_HASH, NoBest), v, op).view
  }

  ghost function ApplyAllFlat(params: Params, v: View, ops: seq<Op>): View
    decreases |ops|
  {
    if ops == [] then v else ApplyAllFlat(params, ApplyFlat(params, v, ops[0]), ops[1..])
  }

  /** No null hash is set, and no flush changes what the top shows. */
  ghost predicate Quiet(params: Params, ls: seq<Layer>, op: Op)
    requires |ls| >= 2
  {
    match op
    case PushAnchor(pool, tree) => params.root(pool, tree) != NULL_HASH
    case PopAnchor(_, newrt) => newrt != NULL_HASH
    case SetBestBlock(h) => h != NULL_HASH
    case Flush => Same(FlushedView(params, ls), ls[0].view)
    case Unstack => Same(FlushedView(params, ls), ls[0].view)
    case Discard => false
    case _ => true
  }

  ghost predicate AllQuiet(params: Params, ls: seq<Layer>, ops: seq<Op>)
    requires |ls| >= 2
    decreases |ops|
  {
    ops == [] || (Quiet(params, ls, ops[0]) && AllQuiet(params, Apply(params, ls, ops[0]), ops[1..]))
  }

  lemma TopIsFlat(params: Params, ls: seq<Layer>, v: View, op: Op)
    requires |ls| >= 2 && Quiet(params, ls, op) && Same(ls[0].view, v)
    ensures Same(Apply(params, ls, op)[0].view, ApplyFlat(params, v, op))
  {
  }

  /** In quiet runs layers are invisible: the top shows what the operations do to one flat view. */
  lemma {:induction false} LayersAreInvisible(params: Params, ls: seq<Layer>, v: View, ops: seq<Op>)
    requires |ls| >= 2 && AllQuiet(params, ls, ops) && Same(ls[0].view, v)
    ensures Same(ApplyAll(params, ls, ops)[0].view, ApplyAllFlat(params, v, ops))
    decreases |ops|
  {
    hide Same, ApplyFlat, Apply, Quiet;
    if ops != [] {
      TopIsFlat(params, ls, v, ops[0]);
      LayersAreInvisible(params, Apply(params, ls, ops[0]), ApplyFlat(params, v, ops[0]), ops[1..]);
    }
  }

  /** What a list of layers shows. */
  function Shown(ls: seq<Layer>): (r: seq<View>)
    ensures |r| == |ls| && forall i :: 0 <= i < |r| ==> r[i] == ls[i].view
  {
    seq(|ls|, i requires 0 <= i < |ls| => ls[i].view)
  }

  lemma {:induction false} LoadsShowSame(ls: seq<Layer>, ty: ShieldedType)
    ensures Shown(LoadBlock(ls)) == Shown(ls) && Shown(LoadAnchor(ls, ty)) == Shown(ls)
    decreases |ls|
  {
    if |ls| > 1 {
      var l, m := LoadBlock(ls), LoadAnchor(ls, ty);
      LoadsShowSame(ls[1..], ty);
      forall i | 0 <= i < |ls| ensures l[i].view == ls[i].view && m[i].view == ls[i].view {
        if i > 0 {
          assert Shown(LoadBlock(ls[1..]))[i - 1] == Shown(ls[1..])[i - 1];
          assert Shown(LoadAnchor(ls[1..], ty))[i - 1] == Shown(ls[1..])[i - 1];
        }
      }
    }
  }

  lemma ShownTail(ls: seq<Layer>)
    requires ls != []
    ensures Shown(ls[1..]) == Shown(ls)[1..]
  {
  }

  lemma TopOnly(params: Params, ls: seq<Layer>, op: Op)
    requires |ls| >= 2 && !Layering(op)
    ensures var r := Apply(params, ls, op); |r| == |ls| && Shown(r)[1..] == Shown(ls)[1..]
  {
    hide LoadBlock, LoadAnchor, ApplyTop;
    var r := Apply(params, ls, op);
    if op.ReadBestBlock? {
      LoadsShowSame(ls, Sprout);
    } else if op.ReadBestAnchor? {
      LoadsShowSame(ls, op.pool);
    } else {
      if op.PushAnchor? || op.PopAnchor? {
        LoadsShowSame(ls, op.pool);
        ShownTail(LoadAnchor(ls, op.pool));
      }
      ShownTail(ls);
      ShownTail(r);
      assert r[1..] == Lowered(ls, op);
    }
  }

  /** Operations on the top layer leave what every layer below shows. */
  lemma {:induction false} BelowUntouched(params: Params, ls: seq<Layer>, ops: seq<Op>)
    requires |ls| >= 2 && forall i :: 0 <= i < |ops| ==> !Layering(ops[i])
    ensures var r := ApplyAll(params, ls, ops); |r| == |ls| && Shown(r)[1..] == Shown(ls)[1..]
    decreases |ops|
  {
    hide Apply, Layering;
    if ops != [] {
      TopOnly(params, ls, ops[0]);
      BelowUntouched(params, Apply(params, ls, ops[0]), ops[1..]);
    }
  }

  lemma {:induction false} RunJoins(params: Params, ls: seq<Layer>, ops: seq<Op>, more: seq<Op>)
    requires |ls| >= 2
    ensures ApplyAll(params, ls, ops + more) == ApplyAll(params, ApplyAll(params, ls, ops), more)
    decreases |ops|
  {
    hide Apply;
    if ops == [] {
      assert ops + more == more;
    } else {
      assert (ops + more)[0] == ops[0] && (ops + more)[1..] == ops[1..] + more;
      RunJoins(params, Apply(params, ls, ops[0]), ops[1..], more);
    }
  }

  lemma FirstStep(params: Params, ls: seq<Layer>, op: Op, rest: seq<Op>)
    requires |ls| >= 2
    ensures ApplyAll(params, ls, [op] + rest) == ApplyAll(params, Apply(params, ls, op), rest)
    ensures AllLegal(params, ls, [op] + rest) <==> Legal(ls, op) && AllLegal(params, Apply(params, ls, op), rest)
  {
    assert ([op] + rest)[1..] == rest;
  }

  lemma NothingToDo(params: Params, ls: seq<Layer>)
    requires |ls| >= 2
    ensures ApplyAll(params, ls, []) == ls && AllLegal(params, ls, [])
  {
  }

  /** A layer that is stacked, changed at will and discarded leaves no trace in what is shown. */
  lemma DiscardUndoes(params: Params, ls: seq<Layer>, ops: seq<Op>)
    requires |ls| >= 2 && forall i :: 0 <= i < |ops| ==> !Layering(ops[i])
    ensures Shown(ApplyAll(params, ls, [Stack] + ops + [Discard])) == Shown(ls)
  {
    hide ApplyAll, AllLegal, Layering;
    var stacked := Apply(params, ls, Stack);
    assert [Stack] + ops + [Discard] == [Stack] + (ops + [Discard]);
    FirstStep(params, ls, Stack, ops + [Discard]);
    RunJoins(params, stacked, ops, [Discard]);
    BelowUntouched(params, stacked, ops);
    var end := ApplyAll(params, stacked, ops);
    assert [Discard] == [Discard] + [];
    FirstStep(params, end, Discard, []);
    NothingToDo(params, Apply(params, end, Discard));
    assert stacked[1..] == ls;
    ShownTail(stacked);
    ShownTail(end);
  }

  /**
   * A reorganisation: a transaction that was spent to nothing in one layer can
   * be created anew in the next, whatever it was before.
   */
  lemma ReconnectIsLegal(params: Params, ls: seq<Layer>, t: Hash, spent: Coins, c: Coins)
    requires |ls| >= 2 && spent.IsPruned()
    ensures AllLegal(params, ls, [Stack, Modify(t, spent), Unstack, Stack, Create(t, c)])
    ensures var v := ApplyAll(params, ls, [Stack, Modify(t, spent), Unstack, Stack, Create(t, c)])[0].view;
            v.coins(t) == Tidy(Live(Some(c))) && forall u :: u != t ==> v.coins(u) == ls[0].view.coins(u)
  {
    hide ApplyAll, AllLegal, Apply;
    var connect := [Create(t, c)];
    var stack := [Stack] + connect;
    var unstack := [Unstack] + stack;
    var disconnect := [Modify(t, spent)] + unstack;
    assert [Stack] + disconnect == [Stack, Modify(t, spent), Unstack, Stack, Create(t, c)];
    assert connect == [Create(t, c)] + [];
    FirstStep(params, ls, Stack, disconnect);
    var stacked := Apply(params, ls, Stack);
    FirstStep(params, stacked, Modify(t, spent), unstack);
    var changed := Apply(params, stacked, Modify(t, spent));
    FirstStep(params, changed, Unstack, stack);
    var flushed := Apply(params, changed, Unstack);
    FirstStep(params, flushed, Stack, connect);
    var again := Apply(params, flushed, Stack);
    FirstStep(params, again, Create(t, c), []);
    NothingToDo(params, Apply(params, again, Create(t, c)));
    ClearedTwice(params, ls, t, spent);
    Created(params, again, t, c);
  }

  lemma ClearedTwice(params: Params, ls: seq<Layer>, t: Hash, spent: Coins)
    requires |ls| >= 2 && spent.IsPruned()
    ensures var changed := Apply(params, Apply(params, ls, Stack), Modify(t, spent));
            var again := Apply(params, Apply(params, changed, Unstack), Stack);
            again[0].view.coins == again[1].view.coins == Put<Hash, Option<Coins>>(ls[0].view.coins, t, None)
  {
  }

  lemma Created(params: Params, ls: seq<Layer>, t: Hash, c: Coins)
    requires |ls| >= 2
    ensures Apply(params, ls, Create(t, c))[0].view.coins ==
              Put<Hash, Option<Coins>>(ls[0].view.coins, t, Tidy(Live(Some(c))))
  {
  }

  /** Coins that say of a transaction what `c` says: the same but for spent outputs at the end. */
  ghost predicate Says(d: Option<Coins>, c: Coins) {
    if forall n :: 0 <= n < |c.vout| ==> c.vout[n].nValue == -1 then d == None
    else
      && d.Some? && d.value.fCoinBase == c.fCoinBase && d.value.nHeight == c.nHeight && d.value.nVersion == c.nVersion
      && d.value.vout <= c.vout && d.value.IsClean()
      && forall n: nat :: n < |c.vout| && c.vout[n].nValue != -1 ==> n < |d.value.vout| && d.value.vout[n] == c.vout[n]
  }

  /** What is written is what is shown, and nothing else changes: not in any layer, nor on any flush. */
  lemma WrittenIsShown(params: Params, ls: seq<Layer>, t: Hash, c: Coins, op: Op)
    requires |ls| >= 2 && (op == Modify(t, c) || op == Create(t, c))
    ensures var r := Apply(params, ls, op);
            && |r| == |ls| && r[1..] == ls[1..] && Says(r[0].view.coins(t), c)
            && (forall u :: u != t ==> r[0].view.coins(u) == ls[0].view.coins(u))
            && r[0].view == ls[0].view.(coins := r[0].view.coins)
            && Says(Apply(params, r, Flush)[0].view.coins(t), c) && Says(Apply(params, r, Flush)[1].view.coins(t), c)
  {
    hide Says, Tidy, Live;
    TidySays(c);
  }

  lemma TidySays(c: Coins)
    ensures Says(Tidy(Live(Some(c))), c)
  {
  }

  ghost predicate Unspent(v: View, t: Hash, n: nat) {
    v.coins(t).Some? && v.coins(t).value.IsAvailable(n)
  }

  /** An output that is spent is gone, and every other one of its transaction stays as it is. */
  lemma SpentOnce(params: Params, ls: seq<Layer>, t: Hash, c: Coins, n: nat)
    requires |ls| >= 2 && ls[0].view.coins(t) == Some(c) && n < |c.vout|
    ensures var r := Apply(params, ls, Modify(t, c.(vout := c.vout[n := TxOut(-1, [])])))[0].view;
            && !Unspent(r, t, n)
            && (forall m: nat :: m != n ==> (Unspent(r, t, m) <==> Unspent(ls[0].view, t, m)))
            && forall m: nat :: Unspent(r, t, m) ==> m < |c.vout| && r.coins(t).value.vout[m] == c.vout[m]
  {
    var spent := c.(vout := c.vout[n := TxOut(-1, [])]);
    WrittenIsShown(params, ls, t, spent, Modify(t, spent));
    assert forall m: nat :: m != n ==> (spent.IsAvailable(m) <==> c.IsAvailable(m));
  }

  /** Unstacking passes on what the top showed and leaves the layers below the next alone; discarding just drops it. */
  lemma UnstackPassesOn(params: Params, ls: seq<Layer>)
    requires |ls| >= 3
    ensures var r := Apply(params, ls, Unstack);
            && |r| == |ls| - 1 && r[1..] == ls[2..]
            && r[0].view.coins == ls[0].view.coins && r[0].view.nullifier == ls[0].view.nullifier
            && forall k :: r[0].view.anchor(k) == ls[0].view.anchor(k)
    ensures Apply(params, ls, Discard) == ls[1..]
  {
  }

  /** Reading the best block or an anchor loads it, so that a flush passes on what was shown. */
  lemma ReadIsLoaded(params: Params, ls: seq<Layer>, pool: ShieldedType)
    requires |ls| >= 2
    ensures var r := Apply(params, ls, ReadBestBlock)[0];
            r == ls[0].(hashBlock := if ls[0].hashBlock == NULL_HASH then ls[0].view.bestBlock else ls[0].hashBlock)
    ensures var r, h := Apply(params, ls, ReadBestAnchor(pool))[0], ls[0].hashAnchor;
            && r.view == ls[0].view && r.hashBlock == ls[0].hashBlock
            && r.hashAnchor.At(pool) == (if h.At(pool) == NULL_HASH then ls[0].view.best.At(pool) else h.At(pool))
            && forall other :: other != pool ==> r.hashAnchor.At(other) == h.At(other)
  {
  }

  /** A best block that is set is shown and, once flushed, shown below; a null one shows what lies below. */
  lemma BestBlockIsShown(params: Params, ls: seq<Layer>, h: Hash)
    requires |ls| >= 2
    ensures var r := Apply(params, ls, SetBestBlock(h));
            && |r| == |ls| && r[1..] == ls[1..] && r[0].hashBlock == h && r[0].hashAnchor == ls[0].hashAnchor
            && r[0].view == ls[0].view.(bestBlock := r[0].view.bestBlock)
            && r[0].view.bestBlock == (if h == NULL_HASH then ls[1].view.bestBlock else h)
            && (h != NULL_HASH ==> Apply(params, r, Flush)[1].view.bestBlock == h)
  {
  }

  /** Setting nullifiers changes these alone, and taking back what was not set before leaves no trace. */
  lemma UnspendUndoes(params: Params, ls: seq<Layer>, ks: seq<Key>, spent: bool)
    requires |ls| >= 2
    ensures var v, w := ls[0].view, Apply(params, ls, SetNullifiers(ks, spent))[0].view;
            w == v.(nullifier := w.nullifier) && forall k :: w.nullifier(k) == if k in ks then spent else v.nullifier(k)
    ensures (forall k :: k in ks ==> ls[0].view.nullifier(k) == !spent) ==>
              var r := Apply(params, Apply(params, ls, SetNullifiers(ks, spent)), SetNullifiers(ks, !spent));
              r[1..] == ls[1..] && Same(r[0].view, ls[0].view)
  {
  }

  /** What the anchors of a pool become, with nothing else on show touched. */
  ghost predicate OnlyAnchors(v: View, w: View, pool: ShieldedType) {
    && w.coins == v.coins && w.nullifier == v.nullifier && w.bestBlock == v.bestBlock
    && (pool == Sprout ==> w.best.sapling == v.best.sapling) && (pool == Sapling ==> w.best.sprout == v.best.sprout)
    && forall k: Key :: k.pool != pool ==> w.anchor(k) == v.anchor(k)
  }

  /** A pushed tree is shown and best; popping back to the best before it takes it away again, and nothing else. */
  lemma PopUndoesPush(params: Params, ls: seq<Layer>, pool: ShieldedType, tree: Tree)
    requires |ls| >= 2 && params.root(pool, tree) != NULL_HASH && ls[0].view.best.At(pool) != NULL_HASH
    ensures var rt, v := params.root(pool, tree), ls[0].view;
            var w := Apply(params, ls, PushAnchor(pool, tree))[0].view;
            && OnlyAnchors(v, w, pool) && w.best.At(pool) == rt
            && Apply(params, ls, PushAnchor(pool, tree))[0].hashAnchor == ls[0].hashAnchor.With(pool, rt)
            && (rt == v.best.At(pool) ==> w == v)
            && (rt != v.best.At(pool) ==> forall k :: w.anchor(k) <==> v.anchor(k) || k == Key(pool, rt))
    ensures var rt, v := params.root(pool, tree), ls[0].view;
            var pushed := Apply(params, ls, PushAnchor(pool, tree));
            var w := Apply(params, pushed, PopAnchor(pool, v.best.At(pool)))[0].view;
            && OnlyAnchors(v, w, pool) && w.best == v.best
            && (rt != v.best.At(pool) ==> forall k :: w.anchor(k) <==> v.anchor(k) && k != Key(pool, rt))
  {
  }

  // -------------------------------------------------------------- one operation

  /** Reading and forgetting show nothing new, in any number of layers. */
  method ReadStep(top: CoinsViewCache, op: Op)
    requires op.ReadCoins? || op.ReadAnchor? || op.ReadNullifier? || op.ReadBestBlock? || op.ReadBestAnchor? ||
             op.Forget?
    requires top.Valid() && !top.hasModifier
    modifies top.Repr
    ensures top.Valid() && !top.hasModifier && top.Layers() == Apply(top.params, old(top.Layers()), op)
  {
    hide CoinsViewCache.Valid, LoadBlock, LoadAnchor;
    match op
    case ReadCoins(t) => var _, _ := top.GetCoins(t);
    case ReadAnchor(k) => var _, _ := top.GetAnchorAt(k);
    case ReadNullifier(k) => var _ := top.GetNullifier(k);
    case ReadBestBlock => var _ := top.GetBestBlock();
    case ReadBestAnchor(pool) => var _ := top.GetBestAnchor(pool);
    case Forget(t) => top.Uncache(t);
  }

  method ModifyStep(top: CoinsViewCache, t: Hash, c: Coins)
    requires top.Valid() && !top.hasModifier
    modifies top.Repr
    ensures top.Valid() && !top.hasModifier && top.Lower() == old(top.Lower())
    ensures SameLayer(top.Top(), old(top.Top()).(view := old(top.view).WithCoins(t, Tidy(Live(Some(c))))))
  {
    hide CoinsViewCache.Valid, Tidy, Live;
    var m := top.ModifyCoins(t);
    top.Write(m, c);
    top.Close(m);
  }

  method CreateStep(top: CoinsViewCache, t: Hash, c: Coins)
    requires top.Valid() && !top.hasModifier && top.view.coins(t) == None && Live(top.Below().coins(t)) == None
    modifies top.Repr
    ensures top.Valid() && !top.hasModifier && top.Lower() == old(top.Lower())
    ensures SameLayer(top.Top(), old(top.Top()).(view := old(top.view).WithCoins(t, Tidy(Live(Some(c))))))
  {
    hide CoinsViewCache.Valid, Tidy;
    var m := top.ModifyNewCoins(t);
    top.Write(m, c);
    top.Close(m);
  }

  method NullifierStep(top: CoinsViewCache, ks: seq<Key>, spent: bool)
    requires top.Valid() && !top.hasModifier
    modifies top.Repr
    ensures top.Valid() && !top.hasModifier && top.Lower() == old(top.Lower())
    ensures SameLayer(top.Top(), ApplyTop(top.params, old(top.Top()), old(top.Below()), SetNullifiers(ks, spent)))
  {
    hide CoinsViewCache.Valid;
    top.SetNullifiers(ks, spent);
  }

  method BestStep(top: CoinsViewCache, op: Op)
    requires op.PushAnchor? || op.PopAnchor? || op.SetBestBlock?
    requires top.Valid() && !top.hasModifier && top.params.CollisionFree() && Legal(top.Layers(), op)
    modifies top.Repr
    ensures top.Valid() && !top.hasModifier && top.Lower() == Lowered(old(top.Layers()), op)
    ensures SameLayer(top.Top(), ApplyTop(top.params, old(top.Top()), old(top.Below()), op))
  {
    hide CoinsViewCache.Valid, LoadAnchor;
    LoadedBelow(top.Layers(), Sprout);
    LoadedBelow(top.Layers(), Sapling);
    match op
    case PushAnchor(pool, tree) => top.PushAnchor(pool, tree);
    case PopAnchor(pool, newrt) => top.PopAnchor(newrt, pool);
    case SetBestBlock(h) => top.SetBestBlock(h);
  }

  lemma LoadedBelow(ls: seq<Layer>, ty: ShieldedType)
    requires |ls| >= 2
    ensures LoadAnchor(ls, ty)[1].view == ls[1].view
  {
    LoadsShowSame(ls, ty);
    assert Shown(LoadAnchor(ls, ty))[1] == Shown(ls)[1];
  }

  /** Any change to the top layer. */
  method TopStep(top: CoinsViewCache, op: Op)
    requires !Layering(op)
    requires top.Valid() && !top.hasModifier && top.params.CollisionFree() && Legal(top.Layers(), op)
    modifies top.Repr
    ensures top.Valid() && !top.hasModifier
    ensures AllSame(top.Layers(), Apply(top.params, old(top.Layers()), op))
  {
    hide CoinsViewCache.Valid, SameLayer, Params.CollisionFree, AllSame, LoadBlock, LoadAnchor;
    ghost var ls := top.Layers();
    if op.Modify? {
      ModifyStep(top, op.t, op.c);
    } else if op.Create? {
      CreateStep(top, op.t, op.c);
    } else if op.SetNullifiers? {
      NullifierStep(top, op.ks, op.spent);
    } else if op.PushAnchor? || op.PopAnchor? || op.SetBestBlock? {
      BestStep(top, op);
    } else {
      ReadStep(top, op);
      AllSameSelf(top.Layers());
      return;
    }
    AllSameSelf(top.Lower());
    AllSameJoin(top.Top(), ApplyTop(top.params, ls[0], ls[1].view, op), top.Lower(), Lowered(ls, op));
  }

  /** Flushing as it is, with whatever hashes are loaded. */
  method FlushStep(top: CoinsViewCache)
    requires top.Valid() && !top.hasModifier
    modifies top.Repr
    ensures top.Valid() && !top.hasModifier
    ensures AllSame(top.Layers(), Flushed(top.params, old(top.Layers())))
  {
    hide CoinsViewCache.Valid, Loaded, LoadedBest;
    ghost var ls := top.Layers();
    UnderIs(top);
    top.Flush();
    FlushIs(top.params, ls, top.Layers());
  }

  lemma UnderIs(top: CoinsViewCache)
    requires top.Valid()
    ensures Under(top.Layers()) == top.Unloaded()
  {
    hide CoinsViewCache.Valid;
    assert top.Layers()[2..] == top.Lower()[1..];
  }

  lemma FlushIs(params: Params, ls: seq<Layer>, ms: seq<Layer>)
    requires |ls| == |ms| >= 2 && ms[1..][1..] == ls[1..][1..] && Same(ms[0].view, FlushedView(params, ls))
    requires ms[1].view == ms[0].view && ms[0].hashBlock == ls[0].hashBlock && ms[0].hashAnchor == ls[0].hashAnchor
    requires ms[1].hashBlock == if |ls| > 2 then ls[0].hashBlock else Loaded(ls[0].hashBlock, ls[1].hashBlock)
    requires ms[1].hashAnchor == if |ls| > 2 then ls[0].hashAnchor else LoadedBest(ls[0].hashAnchor, ls[1].hashAnchor)
    ensures AllSame(ms, Flushed(params, ls))
  {
    hide Same, FlushedView, Loaded, LoadedBest;
    var fs := Flushed(params, ls);
    assert ms[2..] == ls[2..] by {
      assert ms[1..][1..] == ms[2..] && ls[1..][1..] == ls[2..];
    }
    AllSameSelf(ms);
    forall i | 2 <= i < |ms| ensures SameLayer(ms[i], fs[i]) {
      assert ms[i] == ms[2..][i - 2] && fs[i] == ls[2..][i - 2];
      assert SameLayer(ms[i], ms[i]);
    }
  }

  method StackStep(top: CoinsViewCache) returns (top': CoinsViewCache)
    requires top.Valid() && !top.hasModifier
    ensures top'.Valid() && !top'.hasModifier && top'.params == top.params && fresh(top'.Repr - top.Repr)
    ensures top'.Layers() == [Layer(top.view, NULL_HASH, NoBest)] + top.Layers()
  {
    hide CoinsViewCache.Valid;
    top' := new CoinsViewCache.OverCache(top);
  }

  /** Drops the top layer, unless it is the one on the database. */
  method PopStep(top: CoinsViewCache) returns (top': CoinsViewCache)
    requires top.Valid() && !top.hasModifier
    ensures top'.Valid() && !top'.hasModifier && top'.params == top.params && top'.Repr <= top.Repr
    ensures top'.Layers() == if |top.Layers()| == 2 then top.Layers() else top.Layers()[1..]
  {
    hide CoinsViewCache.Valid;
    top.ValidIsTied();
    top' := if top.base.OnCache? then top.base.cache else top;
  }

  method UnstackStep(top: CoinsViewCache) returns (top': CoinsViewCache)
    requires top.Valid() && !top.hasModifier
    modifies top.Repr
    ensures top'.Valid() && !top'.hasModifier && top'.params == top.params && top'.Repr <= top.Repr
    ensures AllSame(top'.Layers(), Apply(top.params, old(top.Layers()), Unstack))
  {
    hide CoinsViewCache.Valid, AllSame, Flushed;
    ghost var ls := top.Layers();
    FlushStep(top);
    SameLength(top.Layers(), Flushed(top.params, ls));
    AllSameTail(top.Layers(), Flushed(top.params, ls));
    top' := PopStep(top);
  }

  /** Stacks a new layer, flushes the top one, or goes back to its parent with or without flushing it. */
  method LayerStep(top: CoinsViewCache, op: Op) returns (top': CoinsViewCache)
    requires Layering(op)
    requires top.Valid() && !top.hasModifier
    modifies top.Repr
    ensures top'.Valid() && !top'.hasModifier && top'.params == top.params && fresh(top'.Repr - top.Repr)
    ensures AllSame(top'.Layers(), Apply(top.params, old(top.Layers()), op))
  {
    hide CoinsViewCache.Valid, AllSame, Flushed;
    ghost var ls := top.Layers();
    AllSameSelf(Apply(top.params, ls, op));
    top' := top;
    if op.Stack? {
      top' := StackStep(top);
    } else if op.Discard? {
      top' := PopStep(top);
    } else if op.Flush? {
      FlushStep(top);
    } else {
      top' := UnstackStep(top);
    }
  }

  /** One operation on a stack does to its layers what it does to a list of layers. */
  method Step(top: CoinsViewCache, op: Op) returns (top': CoinsViewCache)
    requires top.Valid() && !top.hasModifier && top.params.CollisionFree() && Legal(top.Layers(), op)
    modifies top.Repr
    ensures top'.Valid() && !top'.hasModifier && top'.params == top.params && fresh(top'.Repr - top.Repr)
    ensures AllSame(top'.Layers(), Apply(top.params, old(top.Layers()), op))
  {
    hide CoinsViewCache.Valid, Legal, Apply, AllSame;
    top' := top;
    if Layering(op) {
      top' := LayerStep(top, op);
    } else {
      TopStep(top, op);
    }
  }

  /** Any legal run does to the layers of a stack what it does to a list of layers. */
  method Run(top: CoinsViewCache, ops: seq<Op>) returns (top': CoinsViewCache)
    requires top.Valid() && !top.hasModifier && top.params.CollisionFree() && AllLegal(top.params, top.Layers(), ops)
    modifies top.Repr
    ensures top'.Valid() && !top'.hasModifier && top'.params == top.params && fresh(top'.Repr - top.Repr)
    ensures AllSame(top'.Layers(), ApplyAll(top.params, old(top.Layers()), ops))
    decreases |ops|
  {
    hide CoinsViewCache.Valid, Legal, Apply, AllSame, Params.CollisionFree;
    top' := top;
    if ops == [] {
      AllSameSelf(top.Layers());
    } else {
      ghost var ls := Apply(top.params, top.Layers(), ops[0]);
      var next := Step(top, ops[0]);
      RunRespectsSame(top.params, next.Layers(), ls, ops[1..]);
      ghost var ms := next.Layers();
      top' := Run(next, ops[1..]);
      AllSameTrans(top'.Layers(), ApplyAll(top.params, ms, ops[1..]), ApplyAll(top.params, ls, ops[1..]));
    }
  }

  // ------------------------------------------------------------ down to the database

  /** What a database shows for a view: the empty trees are always anchors of it. */
  ghost predicate SameButEmpty(params: Params, v: View, w: View) {
    && (forall t :: v.coins(t) == w.coins(t))
    && (forall k :: v.anchor(k) <==> w.anchor(k) || k.hash == params.EmptyRoot(k.pool))
    && (forall k :: v.nullifier(k) == w.nullifier(k))
    && v.bestBlock == w.bestBlock && v.best == w.best
  }

  /** Nothing but showing the empty trees may change, and that changes exactly when they were not shown. */
  lemma EmptyMakesTheDifference(params: Params, v: View, w: View)
    requires SameButEmpty(params, v, w)
    ensures Same(v, w) <==> EmptyShown(params, w)
  {
    if EmptyShown(params, w) {
      forall k: Key ensures v.anchor(k) == w.anchor(k) {
        assert k == Key(k.pool, k.hash);
      }
    }
    if Same(v, w) {
      forall pool ensures w.anchor(Key(pool, params.EmptyRoot(pool))) {
        assert v.anchor(Key(pool, params.EmptyRoot(pool)));
      }
    }
  }

  /** Flushing a cache that has read its best block and anchors. */
  method ReadAndFlush(top: CoinsViewCache)
    requires top.Valid() && !top.hasModifier
    modifies top.Repr
    ensures top.Valid() && !top.hasModifier && top.view == top.Below()
    ensures if top.base.OnCache? then Same(top.view, old(top.view))
            else SameButEmpty(top.params, top.view, old(top.view))
  {
    hide CoinsViewCache.Valid, LoadBlock, LoadAnchor;
    var _ := top.GetBestBlock();
    var _ := top.GetBestAnchor(Sprout);
    var _ := top.GetBestAnchor(Sapling);
    top.NullBelow();
    top.Flush();
  }

  /** Flushing layer after layer leaves the database itself showing what the top showed. */
  method FlushAll(top: CoinsViewCache) returns (db: CoinsDB)
    requires top.Valid() && !top.hasModifier
    modifies top.Repr
    ensures db in top.Repr && db.Valid() && SameButEmpty(top.params, db.view, old(top.view))
    ensures forall t :: Get(db.coins, t) == old(top.view).coins(t)
    decreases top.Repr
  {
    hide CoinsViewCache.Valid, CoinsViewCache.Tied, CoinsDB.Valid, Same, SameButEmpty;
    ghost var v := top.view;
    ReadAndFlush(top);
    top.ValidIsTied();
    ghost var w := top.view;
    match top.base {
      case OnDB(d) => db := d;
      case OnCache(c) =>
        db := FlushAll(c);
        SameThenEmpty(top.params, db.view, w, v);
    }
    StoredIsShown(top.params, db, v);
  }

  lemma SameThenEmpty(params: Params, u: View, v: View, w: View)
    requires SameButEmpty(params, u, v) && Same(v, w)
    ensures SameButEmpty(params, u, w)
  {
  }

  lemma StoredIsShown(params: Params, db: CoinsDB, v: View)
    requires db.Valid() && SameButEmpty(params, db.view, v)
    ensures forall t :: Get(db.coins, t) == v.coins(t)
  {
    forall t ensures Get(db.coins, t) == v.coins(t) {
      assert db.view.coins(t) == v.coins(t);
    }
  }

  /**
   * A layer that has not read its best block makes its parent forget the one it
   * had set: after the flush both show the database's again.
   */
  method FlushForgets(db: CoinsDB, h: Hash) returns (parent: CoinsViewCache, child: CoinsViewCache)
    requires db.Valid() && h != NULL_HASH && h != db.view.bestBlock
    ensures child.Valid() && child.base == OnCache(parent) && parent.base == OnDB(db)
    ensures child.view.bestBlock == parent.view.bestBlock == db.view.bestBlock != h
  {
    hide CoinsViewCache.Tied, CoinsViewCache.ParentValid;
    parent := new CoinsViewCache.OverDB(db);
    parent.SetBestBlock(h);
    child := new CoinsViewCache.OverCache(parent);
    assert child.view.bestBlock == h;
    child.Flush();
  }
}
