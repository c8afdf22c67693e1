/**
 * How many flag bits a partial Merkle tree stores for its hashes.  A full binary
 * tree would need one bit less than twice the hashes; an inner node with a single
 * child costs one more.
 */
module MerkleSize {
  import opened Powers
  import opened MerkleTree
  import opened MerkleProof
  import opened PartialMerkle

  /** The inner nodes on the way to a match that have a single child. */
  function OnlyChildren(wanted: seq<bool>, h: nat, pos: nat): nat {
    if h == 0 || !ParentOfMatch(wanted, h, pos) then 0
    else if 2 * pos + 1 < Width(|wanted|, h - 1)
    then OnlyChildren(wanted, h - 1, 2 * pos) + OnlyChildren(wanted, h - 1, 2 * pos + 1)
    else 1 + OnlyChildren(wanted, h - 1, 2 * pos)
  }

  /** Twice the hashes less one, and one bit more for every single child. */
  lemma {:induction false} BitsAreCounted(H: PairHash, ids: seq<Hash>, wanted: seq<bool>, h: nat, pos: nat)
    requires |ids| == |wanted| && pos < Width(|ids|, h)
    ensures |Bits(wanted, h, pos)| == 2 * |Hashes(H, ids, wanted, h, pos)| - 1 + OnlyChildren(wanted, h, pos)
    decreases h
  {
    hide Width, ParentOfMatch, CalcHash;
    if h > 0 && ParentOfMatch(wanted, h, pos) {
      Stored(H, ids, wanted, h, pos);
      BitsAreCounted(H, ids, wanted, h - 1, 2 * pos);
      if 2 * pos + 1 < Width(|ids|, h - 1) {
        BitsAreCounted(H, ids, wanted, h - 1, 2 * pos + 1);
      }
    }
  }

  // ------------------------------------------------------- where single children are

  /** The last node of a level has one child exactly when the level below is odd. */
  lemma WidthHalves(n: nat, h: nat)
    requires h > 0 && n > 0
    ensures Width(n, h) > 0 && Width(n, h - 1) in {2 * Width(n, h) - 1, 2 * Width(n, h)}
  {
    hide Width, First;
    WidthIsCeiling(n, h, 0);
    FirstOfAll(h);
    Split(n, h, Width(n, h) - 1);
    Split(n, h, Width(n, h));
  }

  lemma FirstOfAll(h: nat)
    ensures First(h, 0) == 0
  {
  }

  /** Nodes with a right neighbour have two children, all the way down. */
  lemma {:induction false} InnerNodesArePaired(wanted: seq<bool>, h: nat, pos: nat)
    requires pos + 1 < Width(|wanted|, h)
    ensures OnlyChildren(wanted, h, pos) == 0
    decreases h
  {
    hide Width, ParentOfMatch;
    if h > 0 {
      Split(|wanted|, h, pos + 1);
      InnerNodesArePaired(wanted, h - 1, 2 * pos);
      InnerNodesArePaired(wanted, h - 1, 2 * pos + 1);
    }
  }

  function LastNode(n: nat, h: nat): int {
    Width(n, h) - 1
  }

  /** The last node of a level has one child and a match below it. */
  predicate Lonely(wanted: seq<bool>, h: nat)
    requires h > 0 && wanted != []
  {
    WidthHalves(|wanted|, h);
    Width(|wanted|, h - 1) % 2 == 1 && ParentOfMatch(wanted, h, LastNode(|wanted|, h))
  }

  /** A match below the last node of a level is below the last node of the next. */
  lemma MatchAbove(wanted: seq<bool>, h: nat)
    requires h > 0 && wanted != []
    ensures LastNode(|wanted|, h - 1) >= 0 && LastNode(|wanted|, h) >= 0
    ensures ParentOfMatch(wanted, h - 1, LastNode(|wanted|, h - 1)) ==> ParentOfMatch(wanted, h, LastNode(|wanted|, h))
  {
    hide Width, First;
    var n := |wanted|;
    WidthHalves(n, h);
    Split(n, h, LastNode(n, h));
    WidthIsCeiling(n, h, Width(n, h));
  }

  lemma {:induction false} NoMatchBelow(wanted: seq<bool>, h: nat, k: nat)
    requires wanted != [] && k <= h && LastNode(|wanted|, h) >= 0 && LastNode(|wanted|, k) >= 0
    requires !ParentOfMatch(wanted, h, LastNode(|wanted|, h))
    ensures !ParentOfMatch(wanted, k, LastNode(|wanted|, k))
    decreases h
  {
    hide Width, ParentOfMatch;
    if k < h {
      MatchAbove(wanted, h);
      NoMatchBelow(wanted, h - 1, k);
    }
  }

  lemma {:induction false} LonelyOnSpine(wanted: seq<bool>, h: nat)
    requires wanted != [] && LastNode(|wanted|, h) >= 0
    ensures OnlyChildren(wanted, h, LastNode(|wanted|, h)) == 0 <==> forall k :: 1 <= k <= h ==> !Lonely(wanted, k)
    decreases h
  {
    hide Width, ParentOfMatch;
    var n, pos := |wanted|, LastNode(|wanted|, h);
    if h > 0 {
      if ParentOfMatch(wanted, h, pos) {
        WidthHalves(n, h);
        LonelyOnSpine(wanted, h - 1);
        if 2 * pos + 1 < Width(n, h - 1) {
          InnerNodesArePaired(wanted, h - 1, 2 * pos);
        }
        assert Lonely(wanted, h) <==> Width(n, h - 1) == 2 * pos + 1;
      } else {
        forall k | 1 <= k <= h ensures !Lonely(wanted, k) {
          WidthHalves(n, k);
          NoMatchBelow(wanted, h, k);
        }
      }
    }
  }

  // ------------------------------------------------------------------- the whole tree

  /**
   * The flag bits are fewer than twice the hashes exactly when no level of odd
   * width has a match below the node above its last one.
   */
  lemma FlagBitBound(H: PairHash, ids: seq<Hash>, wanted: seq<bool>)
    requires |ids| == |wanted| > 0
    ensures |StoredBits(wanted)| <= 2 * |StoredHashes(H, ids, wanted)| - 1 <==>
              forall k :: 1 <= k <= Height(|wanted|) ==> !Lonely(wanted, k)
    ensures |StoredBits(wanted)| >= 2 * |StoredHashes(H, ids, wanted)| - 1
  {
    hide Width, Bits, Hashes, OnlyChildren, Lonely;
    RootCovers(|ids|);
    RootIsLast(|ids|);
    BitsAreCounted(H, ids, wanted, Height(|ids|), 0);
    LonelyOnSpine(wanted, Height(|ids|));
  }

  lemma RootIsLast(n: nat)
    requires n > 0
    ensures LastNode(n, Height(n)) == 0
  {
    RootCovers(n);
  }

  lemma ShapeOfFive()
    ensures Width(5, 0) == 5 && Width(5, 1) == 3 && Width(5, 2) == 2 && Width(5, 3) == 1 && Height(5) == 3
  {
    assert Pow2(0) == 1 && Pow2(1) == 2 && Pow2(2) == 4 && Pow2(3) == 8;
    assert Height(5, 3) == 3;
    assert Height(5, 2) == 3;
    assert Height(5, 1) == 3;
  }

  function LastOfFive(): seq<bool> {
    [false, false, false, false, true]
  }

  lemma MatchesOfFive()
    ensures ParentOfMatch(LastOfFive(), 3, 0) && ParentOfMatch(LastOfFive(), 2, 1) && ParentOfMatch(LastOfFive(), 1, 2)
    ensures !ParentOfMatch(LastOfFive(), 2, 0)
  {
    assert Pow2(0) == 1 && Pow2(1) == 2 && Pow2(2) == 4 && Pow2(3) == 8;
    assert LastOfFive()[4];
  }

  /** Five transactions and a match at the end: five bits for two hashes. */
  lemma FiveTransactions(H: PairHash, ids: seq<Hash>)
    requires |ids| == 5
    ensures |StoredBits(LastOfFive())| == 5 && |StoredHashes(H, ids, LastOfFive())| == 2
  {
    hide Width, Height, ParentOfMatch, CalcHash, Hashes, Bits, LastOfFive;
    var wanted := LastOfFive();
    assert |wanted| == 5 by { FiveLong(); }
    ShapeOfFive();
    MatchesOfFive();
    Stored(H, ids, wanted, 3, 0);
    OneHash(H, ids, wanted, 2, 0);
    Stored(H, ids, wanted, 2, 1);
    Stored(H, ids, wanted, 1, 2);
    OneHash(H, ids, wanted, 0, 4);
  }

  lemma FiveLong()
    ensures |LastOfFive()| == 5
  {
  }
}
