/**
 * Partial Merkle trees as values: the shape of the tree, what is stored for a
 * set of matches, and what a traversal of stored bits and hashes returns.
 */
module MerkleTree {
  import opened Common
  import opened Powers

  type Hash = nat

  type PairHash = (Hash, Hash) -> Hash

  // ------------------------------------------------------------------------ shape

  /** The number of nodes at a height above `n` leaves. */
  function Width(n: nat, h: nat): nat {
    (n + Pow2(h) - 1) / Pow2(h)
  }

  /** The first leaf below a node. */
  function First(h: nat, pos: nat): nat {
    pos * Pow2(h)
  }

  /** A node is in the tree exactly when its first leaf is. */
  lemma WidthIsCeiling(n: nat, h: nat, pos: nat)
    ensures pos < Width(n, h) <==> First(h, pos) < n
  {
    var d, w := Pow2(h), Width(n, h);
    assert w * d <= n + d - 1 < w * d + d;
    if pos < w {
      assert (pos + 1) * d <= w * d;
    } else {
      assert w * d <= pos * d;
    }
  }

  lemma Leaves(n: nat, pos: nat)
    ensures First(0, pos) == pos && Width(n, 0) == n
  {
  }

  /** The leaves below a node are those below its children. */
  lemma Split(n: nat, h: nat, pos: nat)
    requires h > 0
    ensures First(h, pos) == First(h - 1, 2 * pos) < First(h - 1, 2 * pos + 1) < First(h, pos + 1) ==
            First(h - 1, 2 * pos + 2)
    ensures pos < Width(n, h) <==> 2 * pos < Width(n, h - 1)
    ensures 2 * pos + 1 < Width(n, h - 1) <==> First(h - 1, 2 * pos + 1) < n
  {
    var d := Pow2(h - 1);
    assert pos * (2 * d) == 2 * pos * d;
    assert (pos + 1) * (2 * d) == (2 * pos + 2) * d == 2 * pos * d + 2 * d;
    assert (2 * pos + 1) * d == 2 * pos * d + d;
    WidthIsCeiling(n, h, pos);
    WidthIsCeiling(n, h - 1, 2 * pos);
    WidthIsCeiling(n, h - 1, 2 * pos + 1);
  }

  /** The height of the root: the first at which there is one node. */
  function Height(n: nat, h: nat := 0): (r: nat)
    requires h == 0 || Width(n, h - 1) > 1
    ensures Width(n, r) <= 1 && (r == 0 || Width(n, r - 1) > 1)
    decreases n - h
  {
    if Width(n, h) > 1 then
      TallTree(n, h);
      Height(n, h + 1)
    else h
  }

  lemma {:induction false} PowerExceeds(h: nat)
    ensures Pow2(h) > h
  {
    if h > 0 {
      PowerExceeds(h - 1);
    }
  }

  lemma TallTree(n: nat, h: nat)
    requires Width(n, h) > 1
    ensures h < n
  {
    PowerExceeds(h);
    WidthIsCeiling(n, h, 1);
  }

  /** The root covers every leaf. */
  lemma RootCovers(n: nat)
    requires n > 0
    ensures 0 < Width(n, Height(n)) && n <= First(Height(n), 1)
  {
    WidthIsCeiling(n, Height(n), 0);
    WidthIsCeiling(n, Height(n), 1);
  }

  // ----------------------------------------------------------------------- hashes

  function CalcHash(H: PairHash, ids: seq<Hash>, h: nat, pos: nat): Hash
    requires pos < Width(|ids|, h)
  {
    if h == 0 then
      Leaves(|ids|, pos);
      ids[pos]
    else
      Split(|ids|, h, pos);
      var left := CalcHash(H, ids, h - 1, 2 * pos);
      var right := if 2 * pos + 1 < Width(|ids|, h - 1) then CalcHash(H, ids, h - 1, 2 * pos + 1) else left;
      H(left, right)
  }

  function Root(H: PairHash, ids: seq<Hash>): Hash
    requires ids != []
  {
    RootCovers(|ids|);
    CalcHash(H, ids, Height(|ids|), 0)
  }

  // --------------------------------------------------------------------- building

  /** Whether a leaf in a range is matched. */
  predicate AnyMatch(wanted: seq<bool>, from: nat, to: nat) {
    exists p :: from <= p < to && p < |wanted| && wanted[p]
  }

  predicate ParentOfMatch(wanted: seq<bool>, h: nat, pos: nat) {
    AnyMatch(wanted, First(h, pos), First(h, pos + 1))
  }

  function Bits(wanted: seq<bool>, h: nat, pos: nat): (r: seq<bool>)
    ensures r != []
  {
    [ParentOfMatch(wanted, h, pos)] +
    if h == 0 || !ParentOfMatch(wanted, h, pos) then []
    else Bits(wanted, h - 1, 2 * pos) + if 2 * pos + 1 < Width(|wanted|, h - 1) then Bits(wanted, h - 1, 2 * pos + 1)
      else []
  }

  function Hashes(H: PairHash, ids: seq<Hash>, wanted: seq<bool>, h: nat, pos: nat): seq<Hash>
    requires |ids| == |wanted| && pos < Width(|ids|, h)
  {
    if h == 0 || !ParentOfMatch(wanted, h, pos) then [CalcHash(H, ids, h, pos)]
    else
      Split(|ids|, h, pos);
      Hashes(H, ids, wanted, h - 1, 2 * pos)
      + if 2 * pos + 1 < Width(|ids|, h - 1) then Hashes(H, ids, wanted, h - 1, 2 * pos + 1) else []
  }

  // ------------------------------------------------------------------- extracting

  /** The outcome of a traversal; `leaves` are the positions of the matches. */
  datatype Walk = Walk(hash: Hash, bitsUsed: nat, hashUsed: nat, matches: seq<Hash>, leaves: seq<nat>, bad: bool)

  function Extract(H: PairHash, n: nat, bits: seq<bool>, hashes: seq<Hash>, h: nat, pos: nat, nb: nat, nh: nat): Walk
    decreases h
  {
    if nb >= |bits| then Walk(0, nb, nh, [], [], true)
    else if h == 0 || !bits[nb] then
      if nh >= |hashes| then Walk(0, nb + 1, nh, [], [], true)
      else if h == 0 && bits[nb] then Walk(hashes[nh], nb + 1, nh + 1, [hashes[nh]], [pos], false)
      else Walk(hashes[nh], nb + 1, nh + 1, [], [], false)
    else
      var l := Extract(H, n, bits, hashes, h - 1, 2 * pos, nb + 1, nh);
      if 2 * pos + 1 < Width(n, h - 1) then
        var r := Extract(H, n, bits, hashes, h - 1, 2 * pos + 1, l.bitsUsed, l.hashUsed);
        Walk(H(l.hash, r.hash), r.bitsUsed, r.hashUsed, l.matches + r.matches, l.leaves + r.leaves,
             l.bad || r.bad || r.hash == l.hash)
      else l.(hash := H(l.hash, l.hash))
  }

  lemma ExtractStops(H: PairHash, n: nat, bits: seq<bool>, hashes: seq<Hash>, h: nat, pos: nat, nb: nat, nh: nat)
    ensures var w := Extract(H, n, bits, hashes, h, pos, nb, nh);
            && (nb >= |bits| ==> w == Walk(0, nb, nh, [], [], true))
            && (nb < |bits| && (h == 0 || !bits[nb]) ==>
                  if nh >= |hashes| then w == Walk(0, nb + 1, nh, [], [], true)
                  else w.hash == hashes[nh] && w.bitsUsed == nb + 1 && w.hashUsed == nh + 1 && !w.bad
                       && w.matches == if bits[nb] then [hashes[nh]] else [])
  {
  }

  lemma ExtractDescends(H: PairHash, n: nat, bits: seq<bool>, hashes: seq<Hash>, h: nat, pos: nat, nb: nat, nh: nat)
    requires nb < |bits| && h > 0 && bits[nb]
    ensures var w := Extract(H, n, bits, hashes, h, pos, nb, nh);
            var l := Extract(H, n, bits, hashes, h - 1, 2 * pos, nb + 1, nh);
            var r := Extract(H, n, bits, hashes, h - 1, 2 * pos + 1, l.bitsUsed, l.hashUsed);
            if 2 * pos + 1 < Width(n, h - 1) then
              && w.hash == H(l.hash, r.hash) && w.bitsUsed == r.bitsUsed && w.hashUsed == r.hashUsed
              && w.matches == l.matches + r.matches && w.bad == (l.bad || r.bad || r.hash == l.hash)
            else
              w == l.(hash := H(l.hash, l.hash))
  {
  }

  /** More data changes nothing for a traversal that is not bad. */
  lemma {:induction false} ExtractExtends(H: PairHash, n: nat, bits: seq<bool>, hashes: seq<Hash>, moreBits: seq<bool>,
                                          moreHashes: seq<Hash>, h: nat, pos: nat, nb: nat, nh: nat)
    requires !Extract(H, n, bits, hashes, h, pos, nb, nh).bad
    ensures Extract(H, n, bits + moreBits, hashes + moreHashes, h, pos, nb, nh) ==
              Extract(H, n, bits, hashes, h, pos, nb, nh)
    decreases h
  {
    hide Width;
    if h > 0 && bits[nb] {
      ExtractExtends(H, n, bits, hashes, moreBits, moreHashes, h - 1, 2 * pos, nb + 1, nh);
      var l := Extract(H, n, bits, hashes, h - 1, 2 * pos, nb + 1, nh);
      if 2 * pos + 1 < Width(n, h - 1) {
        ExtractExtends(H, n, bits, hashes, moreBits, moreHashes, h - 1, 2 * pos + 1, l.bitsUsed, l.hashUsed);
      }
    }
  }

  // -------------------------------------------------------------------- soundness

  /** A list of positions in a range, each larger than the one before. */
  ghost predicate Increasing(leaves: seq<nat>, from: nat, to: nat) {
    && (forall i :: 0 <= i < |leaves| ==> from <= leaves[i] < to)
    && (forall i, j :: 0 <= i < j < |leaves| ==> leaves[i] < leaves[j])
  }

  lemma IncreasingJoin(a: seq<nat>, b: seq<nat>, from: nat, mid: nat, to: nat)
    requires Increasing(a, from, mid) && Increasing(b, mid, to) && from <= mid <= to
    ensures Increasing(a + b, from, to)
  {
  }

  /** Whatever the data, matches are reported at increasing positions below the node. */
  lemma {:induction false} LeavesIncrease(H: PairHash, n: nat, bits: seq<bool>, hashes: seq<Hash>, h: nat, pos: nat,
                                          nb: nat, nh: nat)
    requires pos < Width(n, h)
    ensures var w := Extract(H, n, bits, hashes, h, pos, nb, nh);
            |w.leaves| == |w.matches| && Increasing(w.leaves, First(h, pos), Min(n, First(h, pos + 1)))
    decreases h
  {
    hide Pow2, Width, First;
    if h == 0 {
      Leaves(n, pos);
      Leaves(n, pos + 1);
    } else if nb < |bits| && bits[nb] {
      Split(n, h, pos);
      LeavesIncrease(H, n, bits, hashes, h - 1, 2 * pos, nb + 1, nh);
      var l := Extract(H, n, bits, hashes, h - 1, 2 * pos, nb + 1, nh);
      if 2 * pos + 1 < Width(n, h - 1) {
        LeavesIncrease(H, n, bits, hashes, h - 1, 2 * pos + 1, l.bitsUsed, l.hashUsed);
        var r := Extract(H, n, bits, hashes, h - 1, 2 * pos + 1, l.bitsUsed, l.hashUsed);
        IncreasingJoin(l.leaves, r.leaves, First(h, pos), First(h - 1, 2 * pos + 1), Min(n, First(h, pos + 1)));
      }
    }
  }

  /** Two pairs with one hash. */
  datatype Clash = Clash(a: Hash, b: Hash, c: Hash, d: Hash) {
    predicate Real(H: PairHash) {
      (a, b) != (c, d) && H(a, b) == H(c, d)
    }
  }

  /** The first node below which the traversal and the true tree part although they agree on it. */
  function FindClash(H: PairHash, ids: seq<Hash>, bits: seq<bool>, hashes: seq<Hash>, h: nat, pos: nat, nb: nat,
                     nh: nat): Option<Clash>
    requires pos < Width(|ids|, h)
    decreases h
  {
    if nb >= |bits| || h == 0 || !bits[nb] then None
    else
      Split(|ids|, h, pos);
      var l := Extract(H, |ids|, bits, hashes, h - 1, 2 * pos, nb + 1, nh);
      var left := CalcHash(H, ids, h - 1, 2 * pos);
      var below := FindClash(H, ids, bits, hashes, h - 1, 2 * pos, nb + 1, nh);
      if 2 * pos + 1 < Width(|ids|, h - 1) then
        var r := Extract(H, |ids|, bits, hashes, h - 1, 2 * pos + 1, l.bitsUsed, l.hashUsed);
        var right := CalcHash(H, ids, h - 1, 2 * pos + 1);
        if (l.hash, r.hash) != (left, right) then Some(Clash(l.hash, r.hash, left, right))
        else if below.Some? then below
        else FindClash(H, ids, bits, hashes, h - 1, 2 * pos + 1, l.bitsUsed, l.hashUsed)
      else if l.hash != left then Some(Clash(l.hash, l.hash, left, left))
      else below
  }

  /** The hashes at these positions of the block. */
  ghost predicate At(ids: seq<Hash>, leaves: seq<nat>, matches: seq<Hash>) {
    && |leaves| == |matches|
    && forall i :: 0 <= i < |leaves| ==> leaves[i] < |ids| && matches[i] == ids[leaves[i]]
  }

  lemma AtJoin(ids: seq<Hash>, leaves: seq<nat>, matches: seq<Hash>, leaves': seq<nat>, matches': seq<Hash>)
    requires At(ids, leaves, matches) && At(ids, leaves', matches')
    ensures At(ids, leaves + leaves', matches + matches')
  {
  }

  /** A traversal that finds the true hash of a node finds true ids, or a collision is at hand. */
  lemma {:induction false} NodeSoundness(H: PairHash, ids: seq<Hash>, bits: seq<bool>, hashes: seq<Hash>, h: nat,
                                         pos: nat, nb: nat, nh: nat)
    requires pos < Width(|ids|, h)
    requires var w := Extract(H, |ids|, bits, hashes, h, pos, nb, nh); !w.bad && w.hash == CalcHash(H, ids, h, pos)
    ensures match FindClash(H, ids, bits, hashes, h, pos, nb, nh)
            case Some(c) => c.Real(H)
            case None => var w := Extract(H, |ids|, bits, hashes, h, pos, nb, nh); At(ids, w.leaves, w.matches)
    decreases h
  {
    hide Pow2, Width, First, At;
    if h == 0 || !bits[nb] {
      Leaves(|ids|, pos);
      LeafAt(ids, pos);
    } else {
      Split(|ids|, h, pos);
      var l := Extract(H, |ids|, bits, hashes, h - 1, 2 * pos, nb + 1, nh);
      if 2 * pos + 1 < Width(|ids|, h - 1) {
        var r := Extract(H, |ids|, bits, hashes, h - 1, 2 * pos + 1, l.bitsUsed, l.hashUsed);
        if l.hash == CalcHash(H, ids, h - 1, 2 * pos) && r.hash == CalcHash(H, ids, h - 1, 2 * pos + 1) {
          NodeSoundness(H, ids, bits, hashes, h - 1, 2 * pos, nb + 1, nh);
          NodeSoundness(H, ids, bits, hashes, h - 1, 2 * pos + 1, l.bitsUsed, l.hashUsed);
          if FindClash(H, ids, bits, hashes, h, pos, nb, nh).None? {
            AtJoin(ids, l.leaves, l.matches, r.leaves, r.matches);
          }
        }
      } else if l.hash == CalcHash(H, ids, h - 1, 2 * pos) {
        NodeSoundness(H, ids, bits, hashes, h - 1, 2 * pos, nb + 1, nh);
      }
    }
  }

  lemma LeafAt(ids: seq<Hash>, pos: nat)
    ensures At(ids, [], [])
    ensures pos < |ids| ==> At(ids, [pos], [ids[pos]])
  {
  }
}
