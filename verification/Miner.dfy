/** Block assembly: filling a block from the mempool by score. */
module Miner {
  import opened Common

  type TxId = nat

  datatype JoinSplit = JoinSplit(vpubOld: int, vpubNew: int)

  datatype Tx = Tx(size: nat, sigOps: nat, fee: int, modifiedFee: int, isFinal: bool, isExpired: bool,
                   valueBalance: int, joinSplits: seq<JoinSplit>)

  /** The mempool: its entries by falling score, and the unconfirmed parents of each. */
  datatype Mempool = Mempool(txs: map<TxId, Tx>, byScore: seq<TxId>, parents: map<TxId, set<TxId>>) {
    ghost predicate Valid() {
      && parents.Keys == txs.Keys
      && (forall i :: 0 <= i < |byScore| ==> byScore[i] in txs)
      && (forall i, j :: 0 <= i < j < |byScore| ==> byScore[i] != byScore[j])
      && (forall t :: t in txs ==> t in byScore)
      && (forall t :: t in txs ==> parents[t] <= txs.Keys && t !in parents[t])
    }

    function Children(t: TxId): (r: set<TxId>)
      ensures forall c :: c in r <==> c in parents && t in parents[c]
    {
      set c | c in parents && t in parents[c]
    }
  }

  const MAX_BLOCK_SIGOPS := 20_000
  const DEFAULT_FEE := 1_000
  const COINBASE_SIZE := 1_000
  const COINBASE_SIGOPS := 100

  // --------------------------------------------------------------------------- sums

  function SumOver(f: Tx -> int, pool: Mempool, v: seq<TxId>): int
    requires forall i :: 0 <= i < |v| ==> v[i] in pool.txs
  {
    if v == [] then 0 else SumOver(f, pool, v[..|v| - 1]) + f(pool.txs[v[|v| - 1]])
  }

  function SizeOf(t: Tx): int {
    t.size
  }

  function SigOpsOf(t: Tx): int {
    t.sigOps
  }

  function FeeOf(t: Tx): int {
    t.fee
  }

  function JoinSplitSum(js: seq<JoinSplit>): int {
    if js == [] then 0 else JoinSplitSum(js[..|js| - 1]) + js[|js| - 1].vpubOld - js[|js| - 1].vpubNew
  }

  /** What a transaction moves into the Sprout pool. */
  function SproutDelta(t: Tx): int {
    JoinSplitSum(t.joinSplits)
  }

  /** What a transaction moves into the Sapling pool. */
  function SaplingDelta(t: Tx): int {
    -t.valueBalance
  }

  lemma SumMore(f: Tx -> int, pool: Mempool, v: seq<TxId>, t: TxId)
    requires (forall i :: 0 <= i < |v| ==> v[i] in pool.txs) && t in pool.txs
    ensures SumOver(f, pool, v + [t]) == SumOver(f, pool, v) + f(pool.txs[t])
  {
    assert (v + [t])[..|v + [t]| - 1] == v;
  }

  /** What one more transaction adds to the totals of a block. */
  lemma TotalsMore(pool: Mempool, v: seq<TxId>, t: TxId)
    requires (forall i :: 0 <= i < |v| ==> v[i] in pool.txs) && t in pool.txs
    ensures SumOver(SizeOf, pool, v + [t]) == SumOver(SizeOf, pool, v) + pool.txs[t].size
    ensures SumOver(SigOpsOf, pool, v + [t]) == SumOver(SigOpsOf, pool, v) + pool.txs[t].sigOps
    ensures SumOver(FeeOf, pool, v + [t]) == SumOver(FeeOf, pool, v) + pool.txs[t].fee
  {
    hide SumOver;
    SumMore(SizeOf, pool, v, t);
    SumMore(SigOpsOf, pool, v, t);
    SumMore(FeeOf, pool, v, t);
  }

  // ------------------------------------------------------------- what pools are asked for

  /** What some transactions take out of the Sapling pool. */
  function TakenFromSapling(pool: Mempool, v: seq<TxId>): int
    requires forall i :: 0 <= i < |v| ==> v[i] in pool.txs
  {
    if v == [] then 0 else TakenFromSapling(pool, v[..|v| - 1]) + pool.txs[v[|v| - 1]].valueBalance
  }

  function JoinSplitsOf(pool: Mempool, v: seq<TxId>): seq<JoinSplit>
    requires forall i :: 0 <= i < |v| ==> v[i] in pool.txs
  {
    if v == [] then [] else JoinSplitsOf(pool, v[..|v| - 1]) + pool.txs[v[|v| - 1]].joinSplits
  }

  function PaidIn(js: seq<JoinSplit>): int {
    if js == [] then 0 else PaidIn(js[..|js| - 1]) + js[|js| - 1].vpubOld
  }

  function PaidOut(js: seq<JoinSplit>): int {
    if js == [] then 0 else PaidOut(js[..|js| - 1]) + js[|js| - 1].vpubNew
  }

  /** What some transactions take out of the Sprout pool: all they get less all they pay. */
  function TakenFromSprout(pool: Mempool, v: seq<TxId>): int
    requires forall i :: 0 <= i < |v| ==> v[i] in pool.txs
  {
    PaidOut(JoinSplitsOf(pool, v)) - PaidIn(JoinSplitsOf(pool, v))
  }

  lemma {:induction false} PaidJoins(a: seq<JoinSplit>, b: seq<JoinSplit>)
    ensures PaidIn(a + b) == PaidIn(a) + PaidIn(b) && PaidOut(a + b) == PaidOut(a) + PaidOut(b)
    ensures JoinSplitSum(b) == PaidIn(b) - PaidOut(b)
    decreases |b|
  {
    if b == [] {
      assert a + b == a;
    } else {
      PaidJoins(a, b[..|b| - 1]);
      assert (a + b)[..|a + b| - 1] == a + b[..|b| - 1];
    }
  }

  /** The deltas that are tracked are what is taken, with the sign turned. */
  lemma {:induction false} DeltasAreTakings(pool: Mempool, v: seq<TxId>)
    requires forall i :: 0 <= i < |v| ==> v[i] in pool.txs
    ensures SumOver(SaplingDelta, pool, v) == -TakenFromSapling(pool, v)
    ensures SumOver(SproutDelta, pool, v) == -TakenFromSprout(pool, v)
  {
    if v != [] {
      DeltasAreTakings(pool, v[..|v| - 1]);
      PaidJoins(JoinSplitsOf(pool, v[..|v| - 1]), pool.txs[v[|v| - 1]].joinSplits);
    }
  }

  /** The pools have what is taken from them. */
  predicate PoolsSuffice(pool: Mempool, v: seq<TxId>, sprout: int, sapling: int)
    requires forall i :: 0 <= i < |v| ==> v[i] in pool.txs
  {
    TakenFromSprout(pool, v) <= sprout && TakenFromSapling(pool, v) <= sapling
  }

  // --------------------------------------------------------------------- good blocks

  /** Each transaction once, every unconfirmed parent before its children. */
  ghost predicate Ordered(pool: Mempool, v: seq<TxId>) {
    && (forall i :: 0 <= i < |v| ==> v[i] in pool.txs && v[i] in pool.parents && pool.parents[v[i]] <= set x <- v[..i])
    && (forall i, j :: 0 <= i < j < |v| ==> v[i] != v[j])
  }

  lemma OrderedMore(pool: Mempool, v: seq<TxId>, t: TxId)
    requires Ordered(pool, v) && t in pool.txs && t in pool.parents && t !in v && pool.parents[t] <= set x <- v
    ensures Ordered(pool, v + [t])
  {
    var w := v + [t];
    forall i | 0 <= i < |w| ensures pool.parents[w[i]] <= set x <- w[..i] {
      assert w[..i] == if i < |v| then v[..i] else v;
    }
  }

  /** No prefix of the block takes more out of a shielded pool than is in it. */
  ghost predicate Turnstile(pool: Mempool, v: seq<TxId>, sprout: int, sapling: int)
    requires forall i :: 0 <= i < |v| ==> v[i] in pool.txs
  {
    forall k :: 1 <= k <= |v| ==>
      sprout + SumOver(SproutDelta, pool, v[..k]) >= 0 && sapling + SumOver(SaplingDelta, pool, v[..k]) >= 0
  }

  lemma TurnstileMore(pool: Mempool, v: seq<TxId>, t: TxId, sprout: int, sapling: int)
    requires (forall i :: 0 <= i < |v| ==> v[i] in pool.txs) && t in pool.txs && Turnstile(pool, v, sprout, sapling)
    requires sprout + SumOver(SproutDelta, pool, v) + SproutDelta(pool.txs[t]) >= 0
    requires sapling + SumOver(SaplingDelta, pool, v) + SaplingDelta(pool.txs[t]) >= 0
    ensures Turnstile(pool, v + [t], sprout, sapling)
  {
    hide SumOver;
    SumMore(SproutDelta, pool, v, t);
    SumMore(SaplingDelta, pool, v, t);
    forall k | 1 <= k <= |v| ensures (v + [t])[..k] == v[..k] {
    }
    assert (v + [t])[..|v| + 1] == v + [t];
  }

  /** No prefix of a block takes more than there is, exactly when the turnstile says so. */
  lemma TurnstileIsCover(pool: Mempool, v: seq<TxId>, sprout: int, sapling: int)
    requires forall i :: 0 <= i < |v| ==> v[i] in pool.txs
    ensures Turnstile(pool, v, sprout, sapling) <==>
              forall k :: 1 <= k <= |v| ==> PoolsSuffice(pool, v[..k], sprout, sapling)
  {
    hide SumOver, TakenFromSapling, TakenFromSprout;
    forall k | 1 <= k <= |v|
      ensures PoolsSuffice(pool, v[..k], sprout, sapling) <==>
                sprout + SumOver(SproutDelta, pool, v[..k]) >= 0 && sapling + SumOver(SaplingDelta, pool, v[..k]) >= 0
    {
      DeltasAreTakings(pool, v[..k]);
    }
  }

  /** The fee for a size at a rate per thousand bytes, never rounded down to nothing. */
  function FeeAt(perK: nat, size: nat): nat {
    if perK * size / 1000 == 0 && perK > 0 then perK else perK * size / 1000
  }

  /** A fee below both the relay fee for the size, rounded down but not to nothing, and the default fee. */
  predicate LowFee(tx: Tx, perK: nat) {
    && tx.modifiedFee < 1_000
    && (if perK * tx.size >= 1_000 then 1_000 * (tx.modifiedFee + 1) <= perK * tx.size else tx.modifiedFee < perK)
  }

  lemma LowFeeIs(tx: Tx, perK: nat)
    ensures LowFee(tx, perK) <==> tx.modifiedFee < FeeAt(perK, tx.size) && tx.modifiedFee < DEFAULT_FEE
  {
    var n := perK * tx.size;
    assert n / 1000 == 0 <==> n < 1000;
  }

  // -------------------------------------------------------------------- the assembler

  class BlockAssembler {
    const pool: Mempool
    const nBlockMaxSize: nat
    const nBlockMinSize: nat
    const minRelayPerK: nat
    const zip209: bool

    var vtx: seq<TxId>
    var nBlockSize: nat
    var nBlockTx: nat
    var nBlockSigOps: nat
    var nFees: int
    var inBlock: set<TxId>
    var sproutValue: int
    var saplingValue: int
    const monitoringPoolBalances: bool
    var lastFewTxs: nat
    var blockFinished: bool
    /** The shielded pools before the block. */
    ghost const sprout0: int
    ghost const sapling0: int

    /** The block is in order, and size, operations and fees are exact sums within the limits. */
    ghost predicate Core()
      reads this
    {
      && pool.Valid() && nBlockMaxSize >= 1000 && Ordered(pool, vtx) && inBlock == (set x <- vtx) && nBlockTx == |vtx|
      && nBlockSize == COINBASE_SIZE + SumOver(SizeOf, pool, vtx)
      && nBlockSigOps == COINBASE_SIGOPS + SumOver(SigOpsOf, pool, vtx)
      && nFees == SumOver(FeeOf, pool, vtx)
      && (vtx != [] ==> nBlockSize < nBlockMaxSize && nBlockSigOps < MAX_BLOCK_SIGOPS)
      && (forall t <- vtx :: pool.txs[t].isFinal && !pool.txs[t].isExpired)
    }

    /** The tracked pool values are those after `v`, and no prefix of it overdraws a pool. */
    ghost predicate Balanced(v: seq<TxId>)
      requires forall i :: 0 <= i < |v| ==> v[i] in pool.txs
      reads this
    {
      zip209 && monitoringPoolBalances ==>
        && sproutValue == sprout0 + SumOver(SproutDelta, pool, v)
        && saplingValue == sapling0 + SumOver(SaplingDelta, pool, v)
        && Turnstile(pool, v, sprout0, sapling0)
    }

    ghost predicate Valid()
      reads this
    {
      Core() && Balanced(vtx)
    }

    /** A transaction can no longer be part of the block, whatever is added to it. */
    ghost predicate Unfit(t: TxId)
      requires t in pool.txs
      reads this
    {
      var tx := pool.txs[t];
      nBlockSize + tx.size >= nBlockMaxSize || nBlockSigOps + tx.sigOps >= MAX_BLOCK_SIGOPS || !tx.isFinal ||
        tx.isExpired
    }

    predicate TooLarge(t: TxId)
      requires t in pool.txs
      reads this
    {
      nBlockSize + pool.txs[t].size >= nBlockMaxSize
    }

    /** Hardly any space is left, or enough was tried to fill it. */
    predicate NearlyFull()
      reads this
    {
      nBlockSize > nBlockMaxSize - 100 || lastFewTxs > 50
    }

    /** A transaction has too many signature operations, and so has any other. */
    predicate OutOfSigOps(t: TxId)
      requires t in pool.txs
      reads this
    {
      nBlockSigOps + pool.txs[t].sigOps >= MAX_BLOCK_SIGOPS && nBlockSigOps > MAX_BLOCK_SIGOPS - 2
    }

    /** A transaction would take more out of a pool than is in it now. */
    ghost predicate Overdraws(t: TxId)
      requires t in pool.txs
      reads this
    {
      && zip209 && monitoringPoolBalances
      && (sproutValue + SproutDelta(pool.txs[t]) < 0 || saplingValue + SaplingDelta(pool.txs[t]) < 0)
    }

    /** An assembler for a mempool and the configured sizes, ready for a block on top of these pool values. */
    constructor (mempool: Mempool, maxSize: nat, minSize: nat, perK: nat, zip: bool, sprout: Option<int>,
                 sapling: Option<int>)
      requires mempool.Valid()
      ensures Valid() && vtx == [] && !blockFinished && pool == mempool && zip209 == zip
      ensures nBlockMaxSize == Max(1000, Min(1_999_000, maxSize)) && nBlockMinSize == Min(nBlockMaxSize, minSize)
      ensures minRelayPerK == perK && lastFewTxs == 0
      ensures nBlockSize == 1_000 && nBlockSigOps == 100 && nBlockTx == 0 && nFees == 0
      ensures monitoringPoolBalances == (zip ==> sprout.Some? && sapling.Some?)
      ensures zip && sprout.Some? && sapling.Some? ==> sprout0 == sprout.value && sapling0 == sapling.value
    {
      pool, minRelayPerK, zip209 := mempool, perK, zip;
      var max := Max(1000, Min(1_999_000, maxSize));
      nBlockMaxSize, nBlockMinSize := max, Min(max, minSize);
      vtx, inBlock, nBlockSize, nBlockSigOps, nBlockTx, nFees := [], {}, COINBASE_SIZE, COINBASE_SIGOPS, 0, 0;
      var sproutNow := if zip && sprout.Some? then sprout.value else 0;
      var saplingNow := if zip && sapling.Some? then sapling.value else 0;
      sproutValue, saplingValue, sprout0, sapling0 := sproutNow, saplingNow, sproutNow, saplingNow;
      monitoringPoolBalances := zip ==> sprout.Some? && sapling.Some?;
      lastFewTxs, blockFinished := 0, false;
    }

    method IsStillDependent(t: TxId) returns (r: bool)
      requires t in pool.parents
      ensures r <==> !(pool.parents[t] <= inBlock)
    {
      var left := pool.parents[t];
      while left != {}
        invariant left <= pool.parents[t] && pool.parents[t] - left <= inBlock
        decreases left
      {
        var parent :| parent in left;
        if parent !in inBlock {
          return true;
        }
        left := left - {parent};
      }
      r := false;
    }

    /** What the pools would hold after a transaction. */
    method PoolsAfter(t: TxId) returns (sprout: int, sapling: int)
      requires t in pool.txs
      ensures sprout == sproutValue + SproutDelta(pool.txs[t]) && sapling == saplingValue + SaplingDelta(pool.txs[t])
    {
      sprout, sapling := sproutValue, saplingValue;
      sapling := sapling + -pool.txs[t].valueBalance;
      var js := pool.txs[t].joinSplits;
      for i := 0 to |js|
        invariant sprout == sproutValue + JoinSplitSum(js[..i])
      {
        assert js[..i + 1][..i] == js[..i];
        sprout := sprout + js[i].vpubOld;
        sprout := sprout - js[i].vpubNew;
      }
      assert js[..|js|] == js;
    }

    /** Whether a transaction fits; if so the pool values already account for it. */
    method TestForBlock(t: TxId) returns (ok: bool)
      requires Valid() && t in pool.txs
      modifies this`lastFewTxs, this`blockFinished, this`sproutValue, this`saplingValue
      ensures Core() && (ok ==> !Unfit(t) && Balanced(vtx + [t]))
      ensures !ok ==> Balanced(vtx) && (Unfit(t) || Overdraws(t))
      ensures blockFinished == (old(blockFinished) || (TooLarge(t) && old(NearlyFull())) ||
                                (!TooLarge(t) && OutOfSigOps(t)))
      ensures lastFewTxs == old(lastFewTxs) + if TooLarge(t) && !old(NearlyFull()) && nBlockSize > nBlockMaxSize - 1000
              then 1 else 0
      ensures TooLarge(t) || OutOfSigOps(t) ==> !ok
      ensures AllIn(pool, vtx + [t])
      ensures ok <==>
                && !Unfit(t)
                && (zip209 && monitoringPoolBalances ==> PoolsSuffice(pool, vtx + [t], sprout0, sapling0))
    {
      hide SumOver, Turnstile, Ordered, JoinSplitSum, PoolsSuffice;
      FieldsDecide(t);
      var tx := pool.txs[t];
      if nBlockSize + tx.size >= nBlockMaxSize {
        if nBlockSize > nBlockMaxSize - 100 || lastFewTxs > 50 {
          blockFinished := true;
          return false;
        }
        if nBlockSize > nBlockMaxSize - 1000 {
          lastFewTxs := lastFewTxs + 1;
        }
        return false;
      }
      if nBlockSigOps + tx.sigOps >= MAX_BLOCK_SIGOPS {
        if nBlockSigOps > MAX_BLOCK_SIGOPS - 2 {
          blockFinished := true;
          return false;
        }
        return false;
      }
      if !tx.isFinal {
        return false;
      }
      if tx.isExpired {
        return false;
      }
      if zip209 && monitoringPoolBalances {
        var sprout, sapling := PoolsAfter(t);
        if sprout < 0 {
          return false;
        }
        if sapling < 0 {
          return false;
        }
        InPool(pool, vtx);
        TurnstileMore(pool, vtx, t, sprout0, sapling0);
        SumMore(SproutDelta, pool, vtx, t);
        SumMore(SaplingDelta, pool, vtx, t);
        sproutValue := sprout;
        saplingValue := sapling;
      }
      ok := true;
    }

    /** Whether a transaction overdraws a pool, in terms of what the block and it take. */
    lemma FieldsDecide(t: TxId)
      requires Valid() && t in pool.txs
      ensures AllIn(pool, vtx + [t])
      ensures zip209 && monitoringPoolBalances ==>
                (Overdraws(t) <==> !PoolsSuffice(pool, vtx + [t], sprout0, sapling0))
    {
      hide SumOver, Turnstile, Ordered, PoolsSuffice, SproutDelta, SaplingDelta;
      InPool(pool, vtx);
      OverdrawingIsTaking(TheRules(), vtx, t);
    }

    method AddToBlock(t: TxId)
      requires Core() && t in pool.txs && t !in inBlock && pool.parents[t] <= inBlock && !Unfit(t) &&
               Balanced(vtx + [t])
      modifies this`vtx, this`nBlockSize, this`nBlockTx, this`nBlockSigOps, this`nFees, this`inBlock
      ensures Valid() && vtx == old(vtx) + [t] && inBlock == old(inBlock) + {t}
      ensures nBlockSize >= old(nBlockSize) && nBlockSigOps >= old(nBlockSigOps)
    {
      hide SumOver, Turnstile, Ordered;
      InPool(pool, vtx);
      OrderedMore(pool, vtx, t);
      TotalsMore(pool, vtx, t);
      vtx := vtx + [t];
      nBlockSize := nBlockSize + pool.txs[t].size;
      nBlockTx := nBlockTx + 1;
      nBlockSigOps := nBlockSigOps + pool.txs[t].sigOps;
      nFees := nFees + pool.txs[t].fee;
      inBlock := inBlock + {t};
    }

    /** The postponed transaction with the highest score. */
    method Top(cleared: set<TxId>) returns (t: TxId)
      requires pool.Valid() && cleared != {} && cleared <= pool.txs.Keys
      ensures t in cleared
      ensures exists i :: 0 <= i < |pool.byScore| && pool.byScore[i] == t && forall j :: 0 <= j < i ==>
                pool.byScore[j] !in cleared
    {
      ghost var some :| some in cleared;
      assert some in pool.byScore;
      var i := 0;
      while pool.byScore[i] !in cleared
        invariant 0 <= i < |pool.byScore| && forall j :: 0 <= j < i ==> pool.byScore[j] !in cleared
        invariant exists j :: i <= j < |pool.byScore| && pool.byScore[j] == some
        decreases |pool.byScore| - i
      {
        i := i + 1;
      }
      t := pool.byScore[i];
    }

    /** Moves the children of a new member of the block from waiting to cleared. */
    method ClearChildren(t: TxId, waiting: set<TxId>, cleared: set<TxId>) returns (w: set<TxId>, c: set<TxId>)
      ensures w == waiting - pool.Children(t) && c == cleared + (waiting * pool.Children(t))
    {
      w, c := waiting, cleared;
      var left := pool.Children(t);
      while left != {}
        invariant left <= pool.Children(t)
        invariant w == waiting - (pool.Children(t) - left) && c == cleared + (waiting * (pool.Children(t) - left))
        decreases left
      {
        var child :| child in left;
        if child in w {
          c := c + {child};
          w := w - {child};
        }
        left := left - {child};
      }
    }

    /** Whether the fee is too low for a block that is large enough already. */
    predicate FeeTooLow(t: TxId)
      requires t in pool.txs
      reads this
    {
      var tx := pool.txs[t];
      tx.modifiedFee < FeeAt(minRelayPerK, tx.size) && tx.modifiedFee < DEFAULT_FEE && nBlockSize >= nBlockMinSize
    }

    ghost function Filling(): Fill
      reads this
    {
      Fill(inBlock, nBlockSize, nBlockSigOps, nBlockMaxSize)
    }

    /** What decides about the transactions of this block. */
    ghost function TheRules(): Rules {
      Rules(pool, nBlockMaxSize, zip209 && monitoringPoolBalances, sprout0, sapling0)
    }

    /** The best transaction that could be added pays too little. */
    ghost predicate PaysTooLittle(t: TxId)
      requires Core()
      reads this
    {
      && t in pool.txs && t !in inBlock && !Misses(pool, inBlock, t)
      && LowFee(pool.txs[t], minRelayPerK) && nBlockSize >= nBlockMinSize
      && AheadPassed(TheRules(), vtx, t)
    }

    /** The transactions that are too large for what is left of the block. */
    ghost function LeftOut(): set<TxId>
      reads this
    {
      set t | t in pool.txs && t !in inBlock && TooLarge(t)
    }

    /**
     * Fills the block by score. Whenever a transaction is added, every one with
     * a higher score is in the block, misses a parent there, no longer fits, or
     * was turned away for overdrawing a pool after some part of the block. The
     * filling stops when this holds of all transactions, when the best one left
     * pays too little, or when the block is finished: hardly any space is left,
     * more than 50 were tried for the rest of it, or no more signature operations
     * can be had.
     */
    method AddScoreTxs()
      requires Valid()
      modifies this
      ensures Valid() && old(vtx) <= vtx
      ensures Greedy(TheRules(), vtx, |old(vtx)|)
      ensures vtx != [] ==> nBlockSize < nBlockMaxSize && nBlockSigOps < 20_000
      ensures zip209 && monitoringPoolBalances ==>
                forall k :: 1 <= k <= |vtx| ==> PoolsSuffice(pool, vtx[..k], sprout0, sapling0)
      ensures blockFinished || (exists t :: PaysTooLittle(t)) || forall t :: t in pool.txs ==>
                Passed(TheRules(), vtx, t)
      ensures blockFinished ==> old(blockFinished) || NearlyFull() || nBlockSigOps > MAX_BLOCK_SIGOPS - 2
      ensures old(lastFewTxs) <= lastFewTxs <= old(lastFewTxs) + |LeftOut()|
      ensures lastFewTxs > old(lastFewTxs) ==> nBlockSize > nBlockMaxSize - 1000
    {
      hide Core, Balanced, Progress, Greedy, AheadPassed, Passed, Mempool.Valid, AllIn, Misses, FeeTooLow, LeftOut,
        NearlyFull;
      var mi := 0;
      var waiting: set<TxId>, cleared: set<TxId> := {}, {};
      ghost var turned: set<TxId>, late: set<TxId> := {}, {};
      CoreFill();
      Start(TheRules(), vtx);
      while !blockFinished && (mi < |pool.byScore| || cleared != {})
        invariant Valid() && old(vtx) <= vtx && mi <= |pool.byScore|
        invariant Progress(TheRules(), vtx, mi, Rest(waiting, cleared, turned, late), None, |old(vtx)|)
        invariant lastFewTxs == old(lastFewTxs) + |late|
        invariant blockFinished ==> old(blockFinished) || NearlyFull() || nBlockSigOps > MAX_BLOCK_SIGOPS - 2
        decreases |pool.byScore| - mi, |pool.txs.Keys - inBlock|, |cleared|
      {
        CoreFill();
        var t;
        t, mi, cleared := NextTx(mi, cleared, Rest(waiting, cleared, turned, late), |old(vtx)|);
        ghost var r := Rest(waiting, cleared, turned, late);
        if t in inBlock {
          Settle(TheRules(), vtx, mi, r, t, |old(vtx)|);
          continue;
        }
        var dependent := IsStillDependent(t);
        Dependent(t, dependent);
        if dependent {
          Postpone(TheRules(), vtx, mi, r, t, |old(vtx)|);
          waiting := waiting + {t};
          continue;
        }
        if FeeTooLow(t) {
          FeeIsLow(t);
          Closing(mi, r, Some(t), |old(vtx)|);
          assert PaysTooLittle(t);
          WithinLimits();
          return;
        }
        Shrinks(pool.txs.Keys, inBlock, t);
        waiting, cleared, turned, late := TryAdd(t, mi, waiting, cleared, turned, late, |old(vtx)|);
      }
      Closing(mi, Rest(waiting, cleared, turned, late), None, |old(vtx)|);
      WithinLimits();
    }

    /** The best cleared transaction, or else the next by score. */
    method NextTx(mi: nat, cleared: set<TxId>, ghost r: Rest, ghost start: nat)
      returns (t: TxId, mi': nat, cleared': set<TxId>)
      requires Core() && (mi < |pool.byScore| || cleared != {}) && mi <= |pool.byScore| && r.cleared == cleared
      requires Progress(TheRules(), vtx, mi, r, None, start)
      ensures t in pool.txs && t in pool.parents && mi' <= |pool.byScore|
      ensures Progress(TheRules(), vtx, mi', r.(cleared := cleared'), Some(t), start)
      ensures AheadPassed(TheRules(), vtx, t)
      ensures if cleared == {} then mi' == mi + 1 && cleared' == {}
              else mi' == mi && t in cleared && cleared' == cleared - {t}
    {
      hide Core, Progress, Mempool.Valid, AheadPassed, Misses;
      CoreFill();
      mi', cleared' := mi, cleared;
      if cleared == {} {
        ReadNext(TheRules(), vtx, mi, r, start);
        t := pool.byScore[mi];
        mi' := mi + 1;
      } else {
        ClearedInPool(TheRules(), vtx, mi, r, None, start);
        t := Top(cleared);
        TakeTop(TheRules(), vtx, mi, r, t, start);
        cleared' := cleared - {t};
      }
    }

    /** Adds a transaction with all its parents in the block, if it fits, and clears its children. */
    method TryAdd(t: TxId, mi: nat, waiting: set<TxId>, cleared: set<TxId>, ghost turned: set<TxId>,
                  ghost late: set<TxId>,
                  ghost start: nat)
      returns (w: set<TxId>, c: set<TxId>, ghost away: set<TxId>, ghost late': set<TxId>)
      requires Valid() && t in pool.txs && t in pool.parents && t !in inBlock && pool.parents[t] <= inBlock
      requires AheadPassed(TheRules(), vtx, t)
      requires Progress(TheRules(), vtx, mi, Rest(waiting, cleared, turned, late), Some(t), start)
      modifies this
      ensures Valid() && old(vtx) <= vtx
      ensures Progress(TheRules(), vtx, mi, Rest(w, c, away, late'), None, start)
      ensures lastFewTxs - old(lastFewTxs) == |late'| - |late|
      ensures blockFinished ==> old(blockFinished) || NearlyFull() || nBlockSigOps > MAX_BLOCK_SIGOPS - 2
      ensures if t in inBlock then inBlock == old(inBlock) + {t} else inBlock == old(inBlock) && c == cleared
    {
      hide Core, Balanced, Progress, AheadPassed, AllIn, Mempool.Valid, OverdrawsAt;
      ghost var r := Rest(waiting, cleared, turned, late);
      away, late' := turned, late;
      w, c := waiting, cleared;
      CoreFill();
      var ok := TestForBlock(t);
      if ok {
        Added(TheRules(), vtx, mi, r, t, start);
        AddToBlock(t);
        w, c := ClearChildren(t, waiting, cleared);
      } else if lastFewTxs > old(lastFewTxs) {
        late' := late + {t};
        LateToo(TheRules(), vtx, mi, r, t, start);
      } else if Unfit(t) {
        DoesNotFit(TheRules(), vtx, mi, r, t, start);
      } else {
        away := turned + {t};
        OverdrawnNow(t);
        TurnAway(TheRules(), vtx, mi, r, t, start);
      }
    }

    lemma FeeIsLow(t: TxId)
      requires t in pool.txs
      ensures FeeTooLow(t) <==> LowFee(pool.txs[t], minRelayPerK) && nBlockSize >= nBlockMinSize
    {
      LowFeeIs(pool.txs[t], minRelayPerK);
    }

    /** What the totals of a block are bounded by. */
    lemma WithinLimits()
      requires Valid()
      ensures AllIn(pool, vtx) && (vtx != [] ==> nBlockSize < nBlockMaxSize && nBlockSigOps < 20_000)
      ensures zip209 && monitoringPoolBalances ==>
                forall k :: 1 <= k <= |vtx| ==> PoolsSuffice(pool, vtx[..k], sprout0, sapling0)
    {
      hide SumOver, Ordered, Turnstile;
      InPool(pool, vtx);
      TurnstileIsCover(pool, vtx, sprout0, sapling0);
    }

    /** A transaction fits if and only if the block with it stays under both limits, in final transactions alone. */
    lemma UnfitIs(t: TxId)
      requires Core() && t in pool.txs
      ensures AllIn(pool, vtx + [t])
      ensures !Unfit(t) <==>
                && 1_000 + SumOver(SizeOf, pool, vtx + [t]) < nBlockMaxSize
                && 100 + SumOver(SigOpsOf, pool, vtx + [t]) < 20_000
                && forall u <- vtx + [t] :: pool.txs[u].isFinal && !pool.txs[u].isExpired
    {
      hide SumOver, Ordered;
      InPool(pool, vtx);
      TotalsMore(pool, vtx, t);
      assert t in vtx + [t];
    }

    /** A block is finished when nothing that needs a signature or a hundred bytes fits, or after fifty late tries. */
    lemma FinishedIs(t: TxId)
      requires t in pool.txs
      ensures NearlyFull() <==> nBlockSize + 100 > nBlockMaxSize || lastFewTxs >= 51
      ensures NearlyFull() && lastFewTxs <= 50 ==> forall u <- pool.txs :: pool.txs[u].size >= 100 ==> Unfit(u)
      ensures TooLarge(t) || OutOfSigOps(t) ==> Unfit(t)
      ensures !TooLarge(t) && Unfit(t) && pool.txs[t].isFinal && !pool.txs[t].isExpired ==>
                (OutOfSigOps(t) <==> nBlockSigOps + 1 >= 20_000)
      ensures OutOfSigOps(t) ==> forall u <- pool.txs :: pool.txs[u].sigOps >= 1 ==> Unfit(u)
    {
    }

    lemma CoreFill()
      requires Core()
      ensures pool.Valid() && AllIn(pool, vtx) && FillOf(TheRules(), vtx) == Filling()
      ensures pool.parents.Keys == pool.txs.Keys && forall i :: 0 <= i < |pool.byScore| ==> pool.byScore[i] in pool.txs
    {
    }

    lemma Dependent(t: TxId, dependent: bool)
      requires t in pool.parents && (dependent <==> !(pool.parents[t] <= inBlock))
      ensures dependent <==> Misses(pool, inBlock, t)
    {
    }

    lemma OverdrawnNow(t: TxId)
      requires Valid() && t in pool.txs && Overdraws(t)
      ensures AllIn(pool, vtx) && TheRules().tracked && OverdrawsAt(TheRules(), vtx, t)
    {
      hide SumOver, Ordered, Turnstile, SproutDelta, SaplingDelta;
      CoreFill();
    }

    /** What the state of the filling says about the block once it ends. */
    lemma Closing(mi: nat, r: Rest, hand: Option<TxId>, start: nat)
      requires Core() && Progress(TheRules(), vtx, mi, r, hand, start)
      ensures AllIn(pool, vtx) && Greedy(TheRules(), vtx, start)
      ensures |r.late| <= |LeftOut()| && (r.late != {} ==> nBlockSize > nBlockMaxSize - 1000)
      ensures mi == |pool.byScore| && r.cleared == {} && hand == None ==> forall t :: t in pool.txs ==>
                Passed(TheRules(), vtx, t)
    {
      hide Core, Mempool.Valid, Accounted, Placed, AllWait, AllOverdrew, Greedy, Passed;
      CoreFill();
      assert r.late <= LeftOut();
      SubsetSize(r.late, LeftOut());
      if mi == |pool.byScore| && r.cleared == {} && hand == None {
        AllRead(TheRules(), vtx, r);
      }
    }
  }

  lemma SubsetSize(a: set<TxId>, b: set<TxId>)
    requires a <= b
    ensures |a| <= |b|
  {
    assert b == a + (b - a);
  }

  // ------------------------------------------------------------------- greedy filling

  /** A transaction overdraws a pool when more would be taken than there was before the block. */
  lemma OverdrawingIsTaking(r: Rules, v: seq<TxId>, t: TxId)
    requires AllIn(r.pool, v) && t in r.pool.txs
    ensures AllIn(r.pool, v + [t]) && (OverdrawsAt(r, v, t) <==> !PoolsSuffice(r.pool, v + [t], r.sprout, r.sapling))
  {
    hide SumOver, TakenFromSapling, TakenFromSprout, SproutDelta, SaplingDelta;
    DeltasAreTakings(r.pool, v + [t]);
    SumMore(SproutDelta, r.pool, v, t);
    SumMore(SaplingDelta, r.pool, v, t);
  }

  /** What decides about the transactions of a block. */
  datatype Rules = Rules(pool: Mempool, maxSize: int, tracked: bool, sprout: int, sapling: int)

  ghost predicate AllIn(pool: Mempool, v: seq<TxId>) {
    forall i :: 0 <= i < |v| ==> v[i] in pool.txs
  }

  ghost function FillOf(r: Rules, v: seq<TxId>): Fill
    requires AllIn(r.pool, v)
  {
    Fill((set x <- v), COINBASE_SIZE + SumOver(SizeOf, r.pool, v), COINBASE_SIGOPS + SumOver(SigOpsOf, r.pool, v),
         r.maxSize)
  }

  /** After some of the block, a transaction would take more out of a pool than is in it. */
  ghost predicate OverdrawsAt(r: Rules, v: seq<TxId>, t: TxId)
    requires AllIn(r.pool, v) && t in r.pool.txs
  {
    || r.sprout + SumOver(SproutDelta, r.pool, v) + SproutDelta(r.pool.txs[t]) < 0
    || r.sapling + SumOver(SaplingDelta, r.pool, v) + SaplingDelta(r.pool.txs[t]) < 0
  }

  ghost predicate Overdrew(r: Rules, v: seq<TxId>, t: TxId)
    requires AllIn(r.pool, v) && t in r.pool.txs
  {
    r.tracked && exists k :: 0 <= k <= |v| && OverdrawsAt(r, v[..k], t)
  }

  ghost predicate AllOverdrew(r: Rules, v: seq<TxId>, turned: set<TxId>)
    requires AllIn(r.pool, v)
  {
    forall t <- turned :: t in r.pool.txs && Overdrew(r, v, t)
  }

  /** There is a reason not to add a transaction after a block. */
  ghost predicate Passed(r: Rules, v: seq<TxId>, t: TxId)
    requires AllIn(r.pool, v) && t in r.pool.txs
  {
    t in v || Misses(r.pool, (set x <- v), t) || FillOf(r, v).Unfit(r.pool.txs[t]) || Overdrew(r, v, t)
  }

  /** There is one for every transaction with a higher score than this. */
  ghost predicate AheadPassed(r: Rules, v: seq<TxId>, t: TxId)
    requires AllIn(r.pool, v)
  {
    forall i, j :: 0 <= i < j < |r.pool.byScore| && r.pool.byScore[j] == t ==>
      r.pool.byScore[i] in r.pool.txs && Passed(r, v, r.pool.byScore[i])
  }

  /** From some place on, each member of a block was the best that could be added. */
  ghost predicate Greedy(r: Rules, v: seq<TxId>, start: nat)
    requires AllIn(r.pool, v)
  {
    forall k :: start <= k < |v| ==> AheadPassed(r, v[..k], v[k])
  }

  lemma GreedyMore(r: Rules, v: seq<TxId>, start: nat, t: TxId)
    requires AllIn(r.pool, v) && t in r.pool.txs && Greedy(r, v, start) && AheadPassed(r, v, t)
    ensures AllIn(r.pool, v + [t]) && Greedy(r, v + [t], start)
  {
    hide AheadPassed;
    var w := v + [t];
    forall k | start <= k < |w| ensures AheadPassed(r, w[..k], w[k]) {
      assert w[..k] == if k < |v| then v[..k] else v;
    }
  }

  lemma OverdrewMore(r: Rules, v: seq<TxId>, t: TxId, turned: set<TxId>)
    requires AllIn(r.pool, v) && AllIn(r.pool, v + [t]) && AllOverdrew(r, v, turned)
    ensures AllOverdrew(r, v + [t], turned)
  {
    hide OverdrawsAt;
    var w := v + [t];
    forall u | u in turned ensures Overdrew(r, w, u) {
      var k :| 0 <= k <= |v| && OverdrawsAt(r, v[..k], u);
      assert w[..k] == v[..k];
    }
  }

  /** The first of those in hand, cleared or not yet read. */
  ghost predicate Foremost(pool: Mempool, t: TxId, mi: nat, cleared: set<TxId>) {
    mi <= |pool.byScore| && exists j :: 0 <= j < mi && IsBest(pool, t, j, cleared)
  }

  ghost predicate IsBest(pool: Mempool, t: TxId, j: nat, cleared: set<TxId>) {
    j < |pool.byScore| && pool.byScore[j] == t && forall i :: 0 <= i < j ==> pool.byScore[i] !in cleared
  }

  lemma NextIsForemost(pool: Mempool, mi: nat)
    requires mi < |pool.byScore|
    ensures Foremost(pool, pool.byScore[mi], mi + 1, {})
  {
    assert IsBest(pool, pool.byScore[mi], mi, {});
  }

  lemma TopIsForemost(pool: Mempool, mi: nat, r: Rest, t: TxId)
    requires pool.Valid() && Placed(pool, mi, r, None) && t in r.cleared
    requires exists i :: 0 <= i < |pool.byScore| && pool.byScore[i] == t && forall j :: 0 <= j < i ==>
               pool.byScore[j] !in r.cleared
    ensures Foremost(pool, t, mi, r.cleared - {t})
  {
    var i :| 0 <= i < |pool.byScore| && pool.byScore[i] == t && forall j :: 0 <= j < i ==>
        pool.byScore[j] !in r.cleared;
    assert t in Read(pool, mi);
    var k :| 0 <= k < mi && pool.byScore[..mi][k] == t;
    assert pool.byScore[k] == t;
    assert i == k;
    assert IsBest(pool, t, i, r.cleared - {t});
  }

  lemma AllAhead(rules: Rules, v: seq<TxId>, mi: nat, r: Rest, t: TxId)
    requires rules.pool.Valid() && AllIn(rules.pool, v)
    requires Accounted(rules.pool, FillOf(rules, v), mi, r, Some(t)) && Foremost(rules.pool, t, mi, r.cleared)
    requires AllWait(rules.pool, (set x <- v), r.waiting) && AllOverdrew(rules, v, r.turned)
    ensures AheadPassed(rules, v, t)
  {
    hide Overdrew, SumOver, Misses;
    var pool := rules.pool;
    var best :| 0 <= best < mi && IsBest(pool, t, best, r.cleared);
    forall i, j | 0 <= i < j < |pool.byScore| && pool.byScore[j] == t ensures Passed(rules, v, pool.byScore[i]) {
      assert j == best;
      assert pool.byScore[..mi][i] == pool.byScore[i];
      assert pool.byScore[i] in Read(pool, mi);
      assert pool.byScore[i] !in r.cleared;
    }
  }

  // ------------------------------------------------------- what becomes of transactions

  /** How full a block is. */
  datatype Fill = Fill(inBlock: set<TxId>, size: int, sigOps: int, maxSize: int) {
    predicate Unfit(tx: Tx) {
      size + tx.size >= maxSize || sigOps + tx.sigOps >= MAX_BLOCK_SIGOPS || !tx.isFinal || tx.isExpired
    }
  }

  ghost predicate Misses(pool: Mempool, inBlock: set<TxId>, t: TxId) {
    t in pool.parents && !(pool.parents[t] <= inBlock)
  }

  /** Every postponed transaction still misses a parent. */
  ghost predicate AllWait(pool: Mempool, inBlock: set<TxId>, waiting: set<TxId>) {
    forall t <- waiting :: Misses(pool, inBlock, t)
  }

  /**
   * The transactions that were read: those that wait, are cleared, or were turned
   * away, and those that were tried late and found too large.
   */
  datatype Rest = Rest(waiting: set<TxId>, cleared: set<TxId>, turned: set<TxId>, late: set<TxId>) {
    predicate Has(t: TxId) {
      t in waiting || t in cleared || t in turned
    }
  }

  /** Everything read so far is in the block, unfit, in hand, or among the rest. */
  ghost predicate Accounted(pool: Mempool, f: Fill, mi: nat, r: Rest, hand: Option<TxId>) {
    && mi <= |pool.byScore|
    && forall t <- Read(pool, mi) ::
         t in f.inBlock || r.Has(t) || hand == Some(t) || (t in pool.txs && f.Unfit(pool.txs[t]))
  }

  function Hand(hand: Option<TxId>): set<TxId> {
    if hand.Some? then {hand.value} else {}
  }

  /** No transaction is handled in two ways, and all of them were read. */
  ghost predicate Placed(pool: Mempool, mi: nat, r: Rest, hand: Option<TxId>) {
    && mi <= |pool.byScore|
    && r.waiting + r.cleared + r.late + Hand(hand) <= Read(pool, mi)
    && r.waiting !! r.cleared && r.waiting !! r.late && r.cleared !! r.late
    && Hand(hand) !! (r.waiting + r.cleared + r.late)
  }

  /** The late ones are too large for the little that is left of the block. */
  ghost predicate Late(pool: Mempool, f: Fill, late: set<TxId>) {
    && (forall t <- late :: t in pool.txs && t !in f.inBlock && f.size + pool.txs[t].size >= f.maxSize)
    && (late != {} ==> f.size > f.maxSize - 1000)
  }

  /** The members of a prefix of the score order. */
  function Read(pool: Mempool, mi: nat): set<TxId>
    requires mi <= |pool.byScore|
  {
    set x <- pool.byScore[..mi]
  }

  lemma Shrinks(all: set<TxId>, inBlock: set<TxId>, t: TxId)
    requires t in all && t !in inBlock
    ensures |all - (inBlock + {t})| < |all - inBlock|
  {
    assert all - (inBlock + {t}) == (all - inBlock) - {t};
  }

  lemma ReadMore(pool: Mempool, f: Fill, mi: nat, r: Rest)
    requires mi < |pool.byScore| && Accounted(pool, f, mi, r, None) && Placed(pool, mi, r, None) && pool.Valid()
    ensures Accounted(pool, f, mi + 1, r, Some(pool.byScore[mi])) && Placed(pool, mi + 1, r, Some(pool.byScore[mi]))
  {
    assert pool.byScore[..mi + 1] == pool.byScore[..mi] + [pool.byScore[mi]];
    var t := pool.byScore[mi];
    assert Read(pool, mi + 1) == Read(pool, mi) + {t};
  }

  /** Taking a transaction out of the cleared ones. */
  lemma Taken(pool: Mempool, f: Fill, mi: nat, r: Rest, t: TxId)
    requires Accounted(pool, f, mi, r, None) && Placed(pool, mi, r, None) && t in r.cleared
    ensures Accounted(pool, f, mi, r.(cleared := r.cleared - {t}), Some(t))
    ensures Placed(pool, mi, r.(cleared := r.cleared - {t}), Some(t))
  {
  }

  /** The transaction in hand is settled, or joins those that wait or were turned away. */
  lemma PutDown(pool: Mempool, f: Fill, mi: nat, r: Rest, t: TxId)
    requires Accounted(pool, f, mi, r, Some(t))
    ensures t in f.inBlock || (t in pool.txs && f.Unfit(pool.txs[t])) ==> Accounted(pool, f, mi, r, None)
    ensures Accounted(pool, f, mi, r.(waiting := r.waiting + {t}), None) &&
            Accounted(pool, f, mi, r.(turned := r.turned + {t}), None)
  {
  }

  lemma PutAside(pool: Mempool, mi: nat, r: Rest, t: TxId)
    requires Placed(pool, mi, r, Some(t))
    ensures Placed(pool, mi, r, None) && Placed(pool, mi, r.(turned := r.turned + {t}), None)
    ensures Placed(pool, mi, r.(waiting := r.waiting + {t}), None)
  {
  }

  /** The transaction in hand does not fit into the little that is left. */
  lemma LateMore(pool: Mempool, f: Fill, mi: nat, r: Rest, t: TxId)
    requires Placed(pool, mi, r, Some(t)) && Late(pool, f, r.late) && Accounted(pool, f, mi, r, Some(t))
    requires t in pool.txs && t !in f.inBlock && f.size + pool.txs[t].size >= f.maxSize && f.size > f.maxSize - 1000
    ensures Placed(pool, mi, r.(late := r.late + {t}), None) && Late(pool, f, r.late + {t}) &&
            |r.late + {t}| == |r.late| + 1
    ensures Accounted(pool, f, mi, r.(late := r.late + {t}), None)
  {
  }

  /** Clearing some of those that wait. */
  lemma Cleared(pool: Mempool, f: Fill, mi: nat, r: Rest, c: set<TxId>)
    requires Accounted(pool, f, mi, r, None) && Placed(pool, mi, r, None)
    ensures var cleared := r.(waiting := r.waiting - c, cleared := r.cleared + (r.waiting * c));
            Accounted(pool, f, mi, cleared, None) && Placed(pool, mi, cleared, None)
  {
  }

  /** What does not fit will not fit into a fuller block. */
  lemma Grows(pool: Mempool, f: Fill, g: Fill, mi: nat, r: Rest, hand: Option<TxId>)
    requires Accounted(pool, f, mi, r, hand)
    requires f.inBlock <= g.inBlock && f.size <= g.size && f.sigOps <= g.sigOps && f.maxSize == g.maxSize
    ensures Accounted(pool, g, mi, r, hand)
  {
  }

  lemma LateStays(pool: Mempool, f: Fill, g: Fill, mi: nat, r: Rest, t: TxId)
    requires Late(pool, f, r.late) && Placed(pool, mi, r, Some(t))
    requires g.inBlock == f.inBlock + {t} && f.size <= g.size && f.maxSize == g.maxSize
    ensures Late(pool, g, r.late)
  {
  }

  lemma WaitsToo(pool: Mempool, inBlock: set<TxId>, waiting: set<TxId>, t: TxId)
    requires AllWait(pool, inBlock, waiting) && Misses(pool, inBlock, t)
    ensures AllWait(pool, inBlock, waiting + {t})
  {
  }

  /** Those that do not wait for a new member of the block still wait. */
  lemma StillWaiting(pool: Mempool, inBlock: set<TxId>, t: TxId, waiting: set<TxId>)
    requires AllWait(pool, inBlock, waiting)
    ensures AllWait(pool, inBlock + {t}, waiting - pool.Children(t))
  {
    forall c | c in waiting - pool.Children(t) ensures Misses(pool, inBlock + {t}, c) {
      var p :| p in pool.parents[c] && p !in inBlock;
      assert p in pool.parents[c] && p !in inBlock + {t};
    }
  }

  lemma AllRead(rules: Rules, v: seq<TxId>, r: Rest)
    requires rules.pool.Valid() && AllIn(rules.pool, v) && r.cleared == {}
    requires Accounted(rules.pool, FillOf(rules, v), |rules.pool.byScore|, r, None)
    requires AllWait(rules.pool, (set x <- v), r.waiting) && AllOverdrew(rules, v, r.turned)
    ensures forall t :: t in rules.pool.txs ==> Passed(rules, v, t)
  {
    hide Overdrew, SumOver, Misses;
    var pool := rules.pool;
    assert pool.byScore[..|pool.byScore|] == pool.byScore;
    forall t | t in pool.txs ensures Passed(rules, v, t) {
      assert t in Read(pool, |pool.byScore|);
    }
  }

  lemma InPool(pool: Mempool, v: seq<TxId>)
    requires Ordered(pool, v)
    ensures forall i :: 0 <= i < |v| ==> v[i] in pool.txs
  {
  }

  // ----------------------------------------------------------- the state of the filling

  /** How far the filling is: what was read and what became of it, with one transaction in hand. */
  ghost predicate Progress(rules: Rules, v: seq<TxId>, mi: nat, r: Rest, hand: Option<TxId>, start: nat) {
    && AllIn(rules.pool, v) && Greedy(rules, v, start)
    && Accounted(rules.pool, FillOf(rules, v), mi, r, hand) && Placed(rules.pool, mi, r, hand)
    && Late(rules.pool, FillOf(rules, v), r.late)
    && AllWait(rules.pool, FillOf(rules, v).inBlock, r.waiting) && AllOverdrew(rules, v, r.turned)
  }

  lemma Start(rules: Rules, v: seq<TxId>)
    requires AllIn(rules.pool, v)
    ensures Progress(rules, v, 0, Rest({}, {}, {}, {}), None, |v|)
  {
  }

  lemma ReadNext(rules: Rules, v: seq<TxId>, mi: nat, r: Rest, start: nat)
    requires rules.pool.Valid() && mi < |rules.pool.byScore| && Progress(rules, v, mi, r, None, start) &&
             r.cleared == {}
    ensures Progress(rules, v, mi + 1, r, Some(rules.pool.byScore[mi]), start) &&
            AheadPassed(rules, v, rules.pool.byScore[mi])
  {
    hide Mempool.Valid, Greedy, Accounted, Placed, Late, AllWait, AllOverdrew, AheadPassed, Foremost;
    ReadMore(rules.pool, FillOf(rules, v), mi, r);
    NextIsForemost(rules.pool, mi);
    AllAhead(rules, v, mi + 1, r, rules.pool.byScore[mi]);
  }

  lemma TakeTop(rules: Rules, v: seq<TxId>, mi: nat, r: Rest, t: TxId, start: nat)
    requires rules.pool.Valid() && Progress(rules, v, mi, r, None, start) && t in r.cleared
    requires exists i :: 0 <= i < |rules.pool.byScore| && rules.pool.byScore[i] == t &&
               forall j :: 0 <= j < i ==> rules.pool.byScore[j] !in r.cleared
    ensures Progress(rules, v, mi, r.(cleared := r.cleared - {t}), Some(t), start) && AheadPassed(rules, v, t)
  {
    hide Mempool.Valid, Greedy, Accounted, Placed, Late, AllWait, AllOverdrew, AheadPassed, Foremost;
    Taken(rules.pool, FillOf(rules, v), mi, r, t);
    TopIsForemost(rules.pool, mi, r, t);
    AllAhead(rules, v, mi, r.(cleared := r.cleared - {t}), t);
  }

  lemma ClearedInPool(rules: Rules, v: seq<TxId>, mi: nat, r: Rest, hand: Option<TxId>, start: nat)
    requires rules.pool.Valid() && Progress(rules, v, mi, r, hand, start)
    ensures r.cleared <= rules.pool.txs.Keys
  {
    forall t | t in r.cleared ensures t in rules.pool.txs {
      assert t in Read(rules.pool, mi);
    }
  }

  lemma Settle(rules: Rules, v: seq<TxId>, mi: nat, r: Rest, t: TxId, start: nat)
    requires Progress(rules, v, mi, r, Some(t), start) && t in FillOf(rules, v).inBlock
    ensures Progress(rules, v, mi, r, None, start)
  {
    hide Greedy, Accounted, Placed, Late, AllWait, AllOverdrew;
    PutDown(rules.pool, FillOf(rules, v), mi, r, t);
    PutAside(rules.pool, mi, r, t);
  }

  lemma Postpone(rules: Rules, v: seq<TxId>, mi: nat, r: Rest, t: TxId, start: nat)
    requires Progress(rules, v, mi, r, Some(t), start) && Misses(rules.pool, FillOf(rules, v).inBlock, t)
    ensures Progress(rules, v, mi, r.(waiting := r.waiting + {t}), None, start)
  {
    hide Greedy, Accounted, Placed, Late, AllWait, AllOverdrew, Misses;
    PutDown(rules.pool, FillOf(rules, v), mi, r, t);
    PutAside(rules.pool, mi, r, t);
    WaitsToo(rules.pool, FillOf(rules, v).inBlock, r.waiting, t);
  }

  lemma DoesNotFit(rules: Rules, v: seq<TxId>, mi: nat, r: Rest, t: TxId, start: nat)
    requires Progress(rules, v, mi, r, Some(t), start) && t in rules.pool.txs &&
             FillOf(rules, v).Unfit(rules.pool.txs[t])
    ensures Progress(rules, v, mi, r, None, start)
  {
    hide Greedy, Accounted, Placed, Late, AllWait, AllOverdrew;
    PutDown(rules.pool, FillOf(rules, v), mi, r, t);
    PutAside(rules.pool, mi, r, t);
  }

  lemma LateToo(rules: Rules, v: seq<TxId>, mi: nat, r: Rest, t: TxId, start: nat)
    requires Progress(rules, v, mi, r, Some(t), start) && t in rules.pool.txs && t !in FillOf(rules, v).inBlock
    requires FillOf(rules, v).size + rules.pool.txs[t].size >= rules.maxSize &&
             FillOf(rules, v).size > rules.maxSize - 1000
    ensures Progress(rules, v, mi, r.(late := r.late + {t}), None, start) && |r.late + {t}| == |r.late| + 1
  {
    hide Greedy, Accounted, Placed, Late, AllWait, AllOverdrew;
    LateMore(rules.pool, FillOf(rules, v), mi, r, t);
  }

  lemma TurnAway(rules: Rules, v: seq<TxId>, mi: nat, r: Rest, t: TxId, start: nat)
    requires Progress(rules, v, mi, r, Some(t), start) && t in rules.pool.txs && rules.tracked &&
             OverdrawsAt(rules, v, t)
    ensures Progress(rules, v, mi, r.(turned := r.turned + {t}), None, start)
  {
    hide Greedy, Accounted, Placed, Late, AllWait, OverdrawsAt;
    PutDown(rules.pool, FillOf(rules, v), mi, r, t);
    PutAside(rules.pool, mi, r, t);
    assert v[..|v|] == v;
    assert Overdrew(rules, v, t);
  }

  lemma Added(rules: Rules, v: seq<TxId>, mi: nat, r: Rest, t: TxId, start: nat)
    requires Progress(rules, v, mi, r, Some(t), start) && t in rules.pool.txs && AheadPassed(rules, v, t)
    ensures var c := rules.pool.Children(t);
            Progress(rules, v + [t], mi, r.(waiting := r.waiting - c, cleared := r.cleared + (r.waiting * c)), None,
                     start)
  {
    hide Greedy, Accounted, Placed, Late, AllWait, AllOverdrew, AheadPassed, SumOver;
    var pool, w, f := rules.pool, v + [t], FillOf(rules, v);
    GreedyMore(rules, v, start, t);
    OverdrewMore(rules, v, t, r.turned);
    SumMore(SizeOf, pool, v, t);
    SumMore(SigOpsOf, pool, v, t);
    var g := FillOf(rules, w);
    assert g.inBlock == f.inBlock + {t};
    Grows(pool, f, g, mi, r, Some(t));
    LateStays(pool, f, g, mi, r, t);
    PutDown(pool, g, mi, r, t);
    PutAside(pool, mi, r, t);
    Cleared(pool, g, mi, r, pool.Children(t));
    StillWaiting(pool, f.inBlock, t, r.waiting);
  }
}
