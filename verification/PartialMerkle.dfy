/**
 * The partial Merkle tree object: building it from a block, packing its bits
 * into bytes, and extracting the matches; then what an extraction proves.
 */
module PartialMerkle {
  import opened Common
  import opened Powers
  import opened Bits8
  import opened MerkleTree
  import opened MerkleProof

  const MAX_BLOCK_SIZE := 2_000_000
  const MIN_TX_SIZE := 60

  // ------------------------------------------------------------------ packed bits

  /** The bytes hold the bits, eight to a byte, and zeros after them. */
  ghost predicate Holds(bytes: seq<bv8>, bits: seq<bool>, done: nat) {
    && |bytes| == (|bits| + 7) / 8
    && forall p :: 0 <= p < 8 * |bytes| ==> (BitOf(bytes[p / 8], p % 8) <==> p < |bits| && p < done && bits[p])
  }

  lemma PackOne(bytes: seq<bv8>, bits: seq<bool>, p: nat)
    requires Holds(bytes, bits, p) && p < |bits|
    ensures p / 8 < |bytes|
    ensures Holds(if bits[p] then bytes[p / 8 := bytes[p / 8] | Mask(p % 8)] else bytes, bits, p + 1)
  {
    forall q | 0 <= q < 8 * |bytes|
      ensures BitOf(bytes[p / 8] | Mask(p % 8), q % 8) <==> BitOf(bytes[p / 8], q % 8) || q % 8 == p % 8
    {
      SetBit(bytes[p / 8], p % 8, q % 8);
    }
  }

  function Unpacked(bytes: seq<bv8>): (bits: seq<bool>)
    ensures |bits| == 8 * |bytes|
    ensures forall p :: 0 <= p < |bits| ==> (bits[p] <==> BitOf(bytes[p / 8], p % 8))
  {
    seq(8 * |bytes|, p requires 0 <= p < 8 * |bytes| => BitOf(bytes[p / 8], p % 8))
  }

  /** The bits with the zeros that fill the last byte. */
  function Padded(bits: seq<bool>): seq<bool> {
    bits + seq((|bits| + 7) / 8 * 8 - |bits|, i => false)
  }

  lemma PackingRoundTrip(bytes: seq<bv8>, bits: seq<bool>)
    requires Holds(bytes, bits, |bits|)
    ensures Unpacked(bytes) == Padded(bits)
  {
  }

  // ------------------------------------------------------------- whole extractions

  /** What is checked before a traversal. */
  predicate Plausible(n: nat, bits: seq<bool>, hashes: seq<Hash>) {
    n != 0 && n <= MAX_BLOCK_SIZE / MIN_TX_SIZE && |hashes| <= n && |hashes| <= |bits|
  }

  function Traversal(H: PairHash, n: nat, bits: seq<bool>, hashes: seq<Hash>): Walk {
    Extract(H, n, bits, hashes, Height(n), 0, 0, 0)
  }

  /** What is checked after it: nothing bad, and nothing left but padding. */
  predicate Clean(w: Walk, bits: seq<bool>, hashes: seq<Hash>) {
    !w.bad && (w.bitsUsed + 7) / 8 == (|bits| + 7) / 8 && w.hashUsed == |hashes|
  }

  /** The root, or zero after a failure, and the matches seen on the way. */
  function Extracted(H: PairHash, n: nat, bits: seq<bool>, hashes: seq<Hash>): (Hash, seq<Hash>) {
    if !Plausible(n, bits, hashes) then (0, [])
    else
      var w := Traversal(H, n, bits, hashes);
      (if Clean(w, bits, hashes) then w.hash else 0, w.matches)
  }

  /**
   * If the root of a block comes out, so do ids of the block, at increasing
   * positions; otherwise the traversal and the block part at a node they agree
   * on, and the two pairs below it have the same hash.
   */
  lemma Soundness(H: PairHash, ids: seq<Hash>, bits: seq<bool>, hashes: seq<Hash>)
    returns (leaves: seq<nat>, clash: Option<Clash>)
    requires ids != [] && Extracted(H, |ids|, bits, hashes).0 == Root(H, ids) != 0
    ensures 0 < Width(|ids|, Height(|ids|)) && clash == FindClash(H, ids, bits, hashes, Height(|ids|), 0, 0, 0)
    ensures leaves == Traversal(H, |ids|, bits, hashes).leaves
    ensures clash.Some? ==> clash.value.Real(H)
    ensures clash.None? ==> Increasing(leaves, 0, |ids|) && At(ids, leaves, Extracted(H, |ids|, bits, hashes).1)
  {
    hide Extract, CalcHash, Height;
    var n, h := |ids|, Height(|ids|);
    RootCovers(n);
    assert First(h, 0) == 0;
    NodeSoundness(H, ids, bits, hashes, h, 0, 0, 0);
    LeavesIncrease(H, n, bits, hashes, h, 0, 0, 0);
    clash := FindClash(H, ids, bits, hashes, h, 0, 0, 0);
    leaves := Traversal(H, n, bits, hashes).leaves;
  }

  /**
   * What is accepted stays accepted with more data exactly when there are no more
   * hashes and the bits still fill the same number of bytes.
   */
  lemma NothingIsLeftOver(H: PairHash, n: nat, bits: seq<bool>, hashes: seq<Hash>, moreBits: seq<bool>,
                          moreHashes: seq<Hash>)
    requires Extracted(H, n, bits, hashes).0 != 0
    ensures Extracted(H, n, bits + moreBits, hashes + moreHashes).0 != 0 <==>
              moreHashes == [] && (|bits| + |moreBits| + 7) / 8 == (|bits| + 7) / 8
  {
    hide Extract;
    ExtractExtends(H, n, bits, hashes, moreBits, moreHashes, Height(n), 0, 0, 0);
    assert hashes + [] == hashes;
  }

  /** Nothing is accepted for no transactions or for more than the smallest ones that fit into a block. */
  lemma OnlyBlocksAreAccepted(H: PairHash, n: nat, bits: seq<bool>, hashes: seq<Hash>)
    ensures n == 0 || n > 33_333 || |hashes| > n || |bits| < |hashes| ==> Extracted(H, n, bits, hashes) == (0, [])
    ensures Extracted(H, n, bits, hashes).0 != 0 ==> 0 < n <= 33_333 && 0 < |hashes| <= n && |hashes| <= |bits|
  {
    hide Extract, Height;
    ExtractStops(H, n, bits, hashes, Height(n), 0, 0, 0);
    if hashes == [] && Plausible(n, bits, hashes) {
      NoHashesIsBad(H, n, bits, Height(n), 0, 0);
    }
  }

  lemma {:induction false} NoHashesIsBad(H: PairHash, n: nat, bits: seq<bool>, h: nat, pos: nat, nb: nat)
    ensures Extract(H, n, bits, [], h, pos, nb, 0).bad
    decreases h
  {
    hide Width;
    if h > 0 && nb < |bits| && bits[nb] {
      NoHashesIsBad(H, n, bits, h - 1, 2 * pos, nb + 1);
    }
  }

  /** All-true bits and one hash: the hash is reported as a match, then the bits run out. */
  lemma {:induction false} LeftmostPath(H: PairHash, n: nat, bits: seq<bool>, x: Hash, h: nat, nb: nat)
    requires nb + h + 1 == |bits| && forall i :: 0 <= i < |bits| ==> bits[i]
    ensures var w := Extract(H, n, bits, [x], h, 0, nb, 0);
            w.matches == [x] && w.bitsUsed == |bits| && w.hashUsed == 1 && (h > 0 && 1 < Width(n, h - 1) ==> w.bad)
    decreases h
  {
    hide Width;
    if h > 0 {
      LeftmostPath(H, n, bits, x, h - 1, nb + 1);
    }
  }

  /** A zero root proves nothing: with any id a failing extraction returns zero and that id. */
  lemma ZeroRootProvesNothing(H: PairHash, n: nat, x: Hash) returns (bits: seq<bool>)
    requires 0 < n <= MAX_BLOCK_SIZE / MIN_TX_SIZE
    ensures Extracted(H, n, bits, [x]) == (0, [x])
  {
    hide Width;
    var h := Height(n);
    if h == 0 {
      bits := seq(9, i => true);
    } else {
      bits := seq(h + 1, i => true);
      LeftmostPath(H, n, bits, x, h, 0);
    }
  }

  lemma RootMatches(wanted: seq<bool>)
    requires wanted != []
    ensures MatchedBelow(wanted, Height(|wanted|), 0) == Matched(wanted, 0, |wanted|)
    ensures First(Height(|wanted|), 0) == 0 && Last(|wanted|, Height(|wanted|), 0) == |wanted|
  {
    RootCovers(|wanted|);
  }

  function StoredBits(wanted: seq<bool>): seq<bool> {
    Bits(wanted, Height(|wanted|), 0)
  }

  function StoredHashes(H: PairHash, ids: seq<Hash>, wanted: seq<bool>): seq<Hash>
    requires |ids| == |wanted| > 0
  {
    RootCovers(|ids|);
    Hashes(H, ids, wanted, Height(|ids|), 0)
  }

  predicate AllSiblingsDiffer(H: PairHash, ids: seq<Hash>, wanted: seq<bool>)
    requires |ids| == |wanted| > 0
  {
    RootCovers(|ids|);
    SiblingsDiffer(H, ids, wanted, Height(|ids|), 0)
  }

  lemma NothingBelow(H: PairHash, ids: seq<Hash>, wanted: seq<bool>, h: nat, pos: nat)
    requires |ids| == |wanted| && pos < Width(|ids|, h) && (h == 0 || !ParentOfMatch(wanted, h, pos))
    ensures Bits(wanted, h, pos) == [ParentOfMatch(wanted, h, pos)] &&
            Hashes(H, ids, wanted, h, pos) == [CalcHash(H, ids, h, pos)]
  {
  }

  lemma PrefixOccurs<T>(a: seq<T>, b: seq<T>)
    ensures Occurs(a + b, 0, a)
  {
    assert (a + b)[..|a|] == a;
  }

  /**
   * What was built for a set of transactions, packed and unpacked, gives back
   * the root exactly when all siblings on the way differ, and in any case
   * exactly the chosen ids in order.
   */
  lemma Completeness(H: PairHash, ids: seq<Hash>, wanted: seq<bool>)
    requires 0 < |ids| == |wanted| <= 33_333
    ensures var (root, matches) := Extracted(H, |ids|, Padded(StoredBits(wanted)), StoredHashes(H, ids, wanted));
            && At(ids, Matched(wanted, 0, |ids|), matches)
            && root == if AllSiblingsDiffer(H, ids, wanted) then Root(H, ids) else 0
    ensures var k := |StoredHashes(H, ids, wanted)|; k <= |ids| && k <= 1 + |Matched(wanted, 0, |ids|)| * Height(|ids|)
  {
    hide Extract, CalcHash, Height, Bits, Hashes, Matched, SiblingsDiffer, Width, Pow2;
    var h := Height(|ids|);
    var bits, hashes := StoredBits(wanted), StoredHashes(H, ids, wanted);
    RootCovers(|ids|);
    RootMatches(wanted);
    FewHashes(H, ids, wanted, h, 0);
    PrefixOccurs(bits, Padded(bits)[|bits|..]);
    PrefixOccurs(hashes, []);
    assert hashes + [] == hashes && Padded(bits)[..|bits|] + Padded(bits)[|bits|..] == Padded(bits);
    NodeCompleteness(H, ids, wanted, h, 0, Padded(bits), hashes, 0, 0);
  }

  // -------------------------------------------------------------------- the object

  class PartialMerkleTree {
    const pairHash: PairHash
    var nTransactions: nat
    var vBits: seq<bool>
    var vHash: seq<Hash>
    var fBad: bool

    /** Builds the tree of a block for the chosen transactions. */
    constructor (H: PairHash, vTxid: seq<Hash>, vMatch: seq<bool>)
      requires |vTxid| == |vMatch| > 0
      ensures pairHash == H && nTransactions == |vTxid| && !fBad
      ensures vBits == StoredBits(vMatch) && vHash == StoredHashes(H, vTxid, vMatch)
    {
      pairHash, nTransactions, vBits, vHash, fBad := H, |vTxid|, [], [], false;
      new;
      var nHeight := TreeHeight();
      RootCovers(|vTxid|);
      TraverseAndBuild(nHeight, 0, vTxid, vMatch);
    }

    /** Reads a tree from the network. */
    constructor Unserialize(H: PairHash, n: nat, hashes: seq<Hash>, bytes: seq<bv8>)
      ensures pairHash == H && nTransactions == n && vHash == hashes && vBits == Unpacked(bytes) && !fBad
    {
      var bits: seq<bool> := [];
      var p := 0;
      while p < 8 * |bytes|
        invariant p == |bits| <= 8 * |bytes| && bits == Unpacked(bytes)[..p]
      {
        bits := bits + [BitOf(bytes[p / 8], p % 8)];
        p := p + 1;
      }
      pairHash, nTransactions, vHash, vBits, fBad := H, n, hashes, bits, false;
    }

    /** Packs the bits for the network. */
    method PackBits() returns (bytes: seq<bv8>)
      ensures Holds(bytes, vBits, |vBits|) && Unpacked(bytes) == Padded(vBits)
    {
      bytes := seq((|vBits| + 7) / 8, i => 0);
      var p := 0;
      while p < |vBits|
        invariant p <= |vBits| && Holds(bytes, vBits, p)
      {
        PackOne(bytes, vBits, p);
        if vBits[p] {
          bytes := bytes[p / 8 := bytes[p / 8] | Mask(p % 8)];
        }
        p := p + 1;
      }
      PackingRoundTrip(bytes, vBits);
    }

    method TreeHeight() returns (nHeight: nat)
      ensures nHeight == Height(nTransactions)
    {
      nHeight := 0;
      while Width(nTransactions, nHeight) > 1
        invariant nHeight == 0 || Width(nTransactions, nHeight - 1) > 1
        invariant Height(nTransactions) == Height(nTransactions, nHeight)
        decreases nTransactions - nHeight
      {
        TallTree(nTransactions, nHeight);
        nHeight := nHeight + 1;
      }
    }

    /** Whether a node is above a matched transaction. */
    method HasMatch(height: nat, pos: nat, vMatch: seq<bool>) returns (fParentOfMatch: bool)
      requires nTransactions == |vMatch|
      ensures fParentOfMatch == ParentOfMatch(vMatch, height, pos)
    {
      hide First;
      fParentOfMatch := false;
      var from, end := First(height, pos), First(height, pos + 1);
      var p := from;
      while p < end && p < nTransactions
        invariant from <= p && fParentOfMatch == AnyMatch(vMatch, from, p)
        invariant p == from || p <= end
      {
        fParentOfMatch := fParentOfMatch || vMatch[p];
        p := p + 1;
      }
    }

    method TraverseAndBuild(height: nat, pos: nat, vTxid: seq<Hash>, vMatch: seq<bool>)
      requires nTransactions == |vTxid| == |vMatch| && pos < Width(|vTxid|, height)
      modifies this
      ensures vBits == old(vBits) + Bits(vMatch, height, pos) &&
              vHash == old(vHash) + Hashes(pairHash, vTxid, vMatch, height, pos)
      ensures nTransactions == old(nTransactions) && fBad == old(fBad)
      decreases height
    {
      hide Width, CalcHash, ParentOfMatch, Bits, Hashes;
      ghost var b0, h0 := vBits, vHash;
      var fParentOfMatch := HasMatch(height, pos, vMatch);
      vBits := vBits + [fParentOfMatch];
      if height == 0 || !fParentOfMatch {
        vHash := vHash + [CalcHash(pairHash, vTxid, height, pos)];
        NothingBelow(pairHash, vTxid, vMatch, height, pos);
      } else {
        Stored(pairHash, vTxid, vMatch, height, pos);
        ghost var lb, rb, lh, rh := Bits(vMatch, height - 1, 2 * pos), [],
          Hashes(pairHash, vTxid, vMatch, height - 1, 2 * pos), [];
        TraverseAndBuild(height - 1, 2 * pos, vTxid, vMatch);
        if 2 * pos + 1 < Width(nTransactions, height - 1) {
          rb, rh := Bits(vMatch, height - 1, 2 * pos + 1), Hashes(pairHash, vTxid, vMatch, height - 1, 2 * pos + 1);
          TraverseAndBuild(height - 1, 2 * pos + 1, vTxid, vMatch);
        }
        assert vBits == b0 + [true] + lb + rb == b0 + ([true] + (lb + rb));
        assert vHash == h0 + lh + rh == h0 + (lh + rh);
      }
    }

    method TraverseAndExtract(height: nat, pos: nat, nBitsUsed: nat, nHashUsed: nat, vMatch: seq<Hash>)
      returns (hash: Hash, bitsUsed: nat, hashUsed: nat, matches: seq<Hash>)
      modifies this`fBad
      ensures var w := Extract(pairHash, nTransactions, vBits, vHash, height, pos, nBitsUsed, nHashUsed);
              && hash == w.hash && bitsUsed == w.bitsUsed && hashUsed == w.hashUsed && matches == vMatch + w.matches
              && fBad == (old(fBad) || w.bad)
      decreases height
    {
      hide Width, Extract;
      bitsUsed, hashUsed, matches := nBitsUsed, nHashUsed, vMatch;
      ExtractStops(pairHash, nTransactions, vBits, vHash, height, pos, nBitsUsed, nHashUsed);
      if bitsUsed >= |vBits| {
        fBad := true;
        return 0, bitsUsed, hashUsed, matches;
      }
      var fParentOfMatch := vBits[bitsUsed];
      bitsUsed := bitsUsed + 1;
      if height == 0 || !fParentOfMatch {
        if hashUsed >= |vHash| {
          fBad := true;
          return 0, bitsUsed, hashUsed, matches;
        }
        hash := vHash[hashUsed];
        hashUsed := hashUsed + 1;
        if height == 0 && fParentOfMatch {
          matches := matches + [hash];
        }
      } else {
        ExtractDescends(pairHash, nTransactions, vBits, vHash, height, pos, nBitsUsed, nHashUsed);
        var left, right;
        ghost var l := Extract(pairHash, nTransactions, vBits, vHash, height - 1, 2 * pos, bitsUsed, hashUsed);
        left, bitsUsed, hashUsed, matches := TraverseAndExtract(height - 1, 2 * pos, bitsUsed, hashUsed, matches);
        if 2 * pos + 1 < Width(nTransactions, height - 1) {
          ghost var r := Extract(pairHash, nTransactions, vBits, vHash, height - 1, 2 * pos + 1, bitsUsed, hashUsed);
          right, bitsUsed, hashUsed, matches := TraverseAndExtract(height - 1, 2 * pos + 1, bitsUsed, hashUsed,
                                                                   matches);
          assert matches == vMatch + l.matches + r.matches == vMatch + (l.matches + r.matches);
          if right == left {
            fBad := true;
          }
        } else {
          right := left;
        }
        hash := pairHash(left, right);
      }
    }

    /** Extracts the matches; a failure leaves its mark on the object. */
    method ExtractMatches() returns (root: Hash, vMatch: seq<Hash>)
      modifies this`fBad
      ensures vMatch == Extracted(pairHash, nTransactions, vBits, vHash).1
      ensures root == if old(fBad) then 0 else Extracted(pairHash, nTransactions, vBits, vHash).0
      ensures fBad == (old(fBad) || (Plausible(nTransactions, vBits, vHash) &&
                                     Traversal(pairHash, nTransactions, vBits, vHash).bad))
    {
      hide Width, Extract, Height;
      vMatch := [];
      if nTransactions == 0 || nTransactions > MAX_BLOCK_SIZE / MIN_TX_SIZE || |vHash| > nTransactions ||
        |vBits| < |vHash| {
        return 0, vMatch;
      }
      var nHeight := TreeHeight();
      var nBitsUsed, nHashUsed;
      root, nBitsUsed, nHashUsed, vMatch := TraverseAndExtract(nHeight, 0, 0, 0, []);
      if fBad || (nBitsUsed + 7) / 8 != (|vBits| + 7) / 8 || nHashUsed != |vHash| {
        root := 0;
      }
    }
  }

  /** Building, sending, receiving and extracting, as calls. */
  method RelayMatches(H: PairHash, ids: seq<Hash>, wanted: seq<bool>) returns (root: Hash, matches: seq<Hash>)
    requires 0 < |ids| == |wanted| <= 33_333
    ensures At(ids, Matched(wanted, 0, |ids|), matches)
    ensures root == if AllSiblingsDiffer(H, ids, wanted) then Root(H, ids) else 0
  {
    hide Extracted, Root, AllSiblingsDiffer, StoredBits, StoredHashes;
    var sent := new PartialMerkleTree(H, ids, wanted);
    var bytes := sent.PackBits();
    var received := new PartialMerkleTree.Unserialize(H, sent.nTransactions, sent.vHash, bytes);
    root, matches := received.ExtractMatches();
    Completeness(H, ids, wanted);
  }
}
