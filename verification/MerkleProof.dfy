/**
 * Completeness of partial Merkle trees: a traversal of what was built for a set
 * of matches returns exactly those matches, and how much is stored for them.
 */
module MerkleProof {
  import opened Common
  import opened Powers
  import opened MerkleTree

  // -------------------------------------------------------------- matched positions

  /** The matched positions in a range, in order. */
  function Matched(wanted: seq<bool>, from: nat, end: nat): seq<nat>
    requires end <= |wanted|
    decreases end
  {
    if end <= from then []
    else Matched(wanted, from, end - 1) + if wanted[end - 1] then [end - 1] else []
  }

  lemma {:induction false} MatchedJoin(wanted: seq<bool>, from: nat, mid: nat, end: nat)
    requires from <= mid <= end <= |wanted|
    ensures Matched(wanted, from, end) == Matched(wanted, from, mid) + Matched(wanted, mid, end)
    decreases end
  {
    if mid < end {
      MatchedJoin(wanted, from, mid, end - 1);
    }
  }

  /** These are all the matched positions of the range, each once, in order. */
  lemma {:induction false} MatchedIsExact(wanted: seq<bool>, from: nat, end: nat)
    requires end <= |wanted|
    ensures Increasing(Matched(wanted, from, end), from, end)
    ensures forall p :: p in Matched(wanted, from, end) <==> from <= p < end && wanted[p]
    decreases end
  {
    if from < end {
      MatchedIsExact(wanted, from, end - 1);
    }
  }

  lemma NoneMatched(wanted: seq<bool>, from: nat, end: nat)
    requires end <= |wanted|
    ensures AnyMatch(wanted, from, end) <==> Matched(wanted, from, end) != []
  {
    MatchedIsExact(wanted, from, end);
    if Matched(wanted, from, end) != [] {
      assert Matched(wanted, from, end)[0] in Matched(wanted, from, end);
    }
  }

  /** The end of the leaves below a node. */
  function Last(n: nat, h: nat, pos: nat): nat {
    Min(n, First(h, pos + 1))
  }

  function MatchedBelow(wanted: seq<bool>, h: nat, pos: nat): seq<nat> {
    Matched(wanted, First(h, pos), Last(|wanted|, h, pos))
  }

  lemma ParentHasMatches(wanted: seq<bool>, h: nat, pos: nat)
    ensures ParentOfMatch(wanted, h, pos) <==> MatchedBelow(wanted, h, pos) != []
  {
    NoneMatched(wanted, First(h, pos), Last(|wanted|, h, pos));
  }

  /** The matches below a node are those below its children. */
  lemma MatchesSplit(wanted: seq<bool>, h: nat, pos: nat)
    requires h > 0 && pos < Width(|wanted|, h)
    ensures MatchedBelow(wanted, h, pos)
            == MatchedBelow(wanted, h - 1, 2 * pos)
               + if 2 * pos + 1 < Width(|wanted|, h - 1) then MatchedBelow(wanted, h - 1, 2 * pos + 1) else []
  {
    hide Width, First, Matched;
    var n := |wanted|;
    Split(n, h, pos);
    WidthIsCeiling(n, h, pos);
    if 2 * pos + 1 < Width(n, h - 1) {
      MatchedJoin(wanted, First(h, pos), First(h - 1, 2 * pos + 1), Last(n, h, pos));
    } else {
      assert MatchedBelow(wanted, h - 1, 2 * pos) + [] == MatchedBelow(wanted, h - 1, 2 * pos);
    }
  }

  // ------------------------------------------------------------------- completeness

  /** No two siblings on the way to a match have the same hash. */
  predicate SiblingsDiffer(H: PairHash, ids: seq<Hash>, wanted: seq<bool>, h: nat, pos: nat)
    requires |ids| == |wanted| && pos < Width(|ids|, h)
  {
    h == 0 || !ParentOfMatch(wanted, h, pos) ||
    (Split(|ids|, h, pos);
     && SiblingsDiffer(H, ids, wanted, h - 1, 2 * pos)
     && (2 * pos + 1 < Width(|ids|, h - 1) ==>
           && SiblingsDiffer(H, ids, wanted, h - 1, 2 * pos + 1)
           && CalcHash(H, ids, h - 1, 2 * pos) != CalcHash(H, ids, h - 1, 2 * pos + 1)))
  }

  /** `part` stands in `whole` at an offset. */
  predicate Occurs<T(==)>(whole: seq<T>, at: nat, part: seq<T>) {
    at + |part| <= |whole| && whole[at..at + |part|] == part
  }

  lemma OccursSplit<T>(whole: seq<T>, at: nat, a: seq<T>, b: seq<T>)
    requires Occurs(whole, at, a + b)
    ensures Occurs(whole, at, a) && Occurs(whole, at + |a|, b)
  {
    var part := a + b;
    assert a == part[..|a|] && b == part[|a|..];
  }

  lemma OccursHead<T>(whole: seq<T>, at: nat, x: T, b: seq<T>)
    requires Occurs(whole, at, [x] + b)
    ensures at < |whole| && whole[at] == x && Occurs(whole, at + 1, b)
  {
    OccursSplit(whole, at, [x], b);
    assert whole[at..at + 1][0] == x;
  }

  /** What a traversal of stored data returns for a node. */
  ghost predicate Recovers(H: PairHash, ids: seq<Hash>, wanted: seq<bool>, h: nat, pos: nat, nb: nat, nh: nat, w: Walk)
    requires |ids| == |wanted| && pos < Width(|ids|, h)
  {
    && w.hash == CalcHash(H, ids, h, pos) && w.leaves == MatchedBelow(wanted, h, pos) && At(ids, w.leaves, w.matches)
    && w.bitsUsed == nb + |Bits(wanted, h, pos)| && w.hashUsed == nh + |Hashes(H, ids, wanted, h, pos)|
    && (w.bad <==> !SiblingsDiffer(H, ids, wanted, h, pos))
  }

  /** A node without children to visit. */
  lemma RecoversHere(H: PairHash, ids: seq<Hash>, wanted: seq<bool>, h: nat, pos: nat, bits: seq<bool>,
                     hashes: seq<Hash>, nb: nat, nh: nat)
    requires |ids| == |wanted| && pos < Width(|ids|, h) && (h == 0 || !ParentOfMatch(wanted, h, pos))
    requires Occurs(bits, nb, Bits(wanted, h, pos)) && Occurs(hashes, nh, Hashes(H, ids, wanted, h, pos))
    ensures Recovers(H, ids, wanted, h, pos, nb, nh, Extract(H, |ids|, bits, hashes, h, pos, nb, nh))
  {
    hide Width, First, Matched;
    OccursHead(bits, nb, ParentOfMatch(wanted, h, pos), []);
    OccursHead(hashes, nh, CalcHash(H, ids, h, pos), []);
    ParentHasMatches(wanted, h, pos);
    if h == 0 {
      Leaves(|ids|, pos);
      LeafMatched(wanted, pos);
    }
  }

  lemma LeafMatched(wanted: seq<bool>, pos: nat)
    requires pos < |wanted|
    ensures Width(|wanted|, 0) == |wanted|
    ensures MatchedBelow(wanted, 0, pos) == if wanted[pos] then [pos] else []
    ensures ParentOfMatch(wanted, 0, pos) <==> wanted[pos]
  {
    assert First(0, pos) == pos && Last(|wanted|, 0, pos) == pos + 1;
    assert Matched(wanted, pos, pos) == [];
  }

  /** What is stored for a node with matches is what is stored for its children. */
  lemma Stored(H: PairHash, ids: seq<Hash>, wanted: seq<bool>, h: nat, pos: nat)
    requires |ids| == |wanted| && pos < Width(|ids|, h) && h > 0 && ParentOfMatch(wanted, h, pos)
    ensures 2 * pos < Width(|ids|, h - 1)
    ensures var two := 2 * pos + 1 < Width(|ids|, h - 1);
            && Bits(wanted, h, pos) == [true] +
               (Bits(wanted, h - 1, 2 * pos) + if two then Bits(wanted, h - 1, 2 * pos + 1) else [])
            && Hashes(H, ids, wanted, h, pos)
               == Hashes(H, ids, wanted, h - 1, 2 * pos) + if two then Hashes(H, ids, wanted, h - 1, 2 * pos + 1)
                 else []
  {
    Split(|ids|, h, pos);
  }

  lemma JoinNode(H: PairHash, ids: seq<Hash>, wanted: seq<bool>, h: nat, pos: nat, bits: seq<bool>, hashes: seq<Hash>,
                 nb: nat, nh: nat)
    requires |ids| == |wanted| && pos < Width(|ids|, h) && h > 0 && ParentOfMatch(wanted, h, pos) && nb < |bits| &&
             bits[nb]
    requires 2 * pos < Width(|ids|, h - 1)
    requires var l := Extract(H, |ids|, bits, hashes, h - 1, 2 * pos, nb + 1, nh);
             && Recovers(H, ids, wanted, h - 1, 2 * pos, nb + 1, nh, l)
             && (2 * pos + 1 < Width(|ids|, h - 1) ==>
                   Recovers(H, ids, wanted, h - 1, 2 * pos + 1, l.bitsUsed, l.hashUsed,
                            Extract(H, |ids|, bits, hashes, h - 1, 2 * pos + 1, l.bitsUsed, l.hashUsed)))
    ensures Recovers(H, ids, wanted, h, pos, nb, nh, Extract(H, |ids|, bits, hashes, h, pos, nb, nh))
  {
    hide Width, First, MatchedBelow, At, ParentOfMatch;
    Stored(H, ids, wanted, h, pos);
    MatchesSplit(wanted, h, pos);
    var l := Extract(H, |ids|, bits, hashes, h - 1, 2 * pos, nb + 1, nh);
    if 2 * pos + 1 < Width(|ids|, h - 1) {
      var r := Extract(H, |ids|, bits, hashes, h - 1, 2 * pos + 1, l.bitsUsed, l.hashUsed);
      AtJoin(ids, l.leaves, l.matches, r.leaves, r.matches);
    } else {
      assert MatchedBelow(wanted, h - 1, 2 * pos) + [] == MatchedBelow(wanted, h - 1, 2 * pos);
    }
  }

  lemma {:induction false} NodeCompleteness(H: PairHash, ids: seq<Hash>, wanted: seq<bool>, h: nat, pos: nat,
                                            bits: seq<bool>, hashes: seq<Hash>, nb: nat, nh: nat)
    requires |ids| == |wanted| && pos < Width(|ids|, h)
    requires Occurs(bits, nb, Bits(wanted, h, pos)) && Occurs(hashes, nh, Hashes(H, ids, wanted, h, pos))
    ensures Recovers(H, ids, wanted, h, pos, nb, nh, Extract(H, |ids|, bits, hashes, h, pos, nb, nh))
    decreases h
  {
    hide Width, First, Recovers, Occurs, Bits, Hashes, Extract, ParentOfMatch;
    if h == 0 || !ParentOfMatch(wanted, h, pos) {
      RecoversHere(H, ids, wanted, h, pos, bits, hashes, nb, nh);
    } else {
      Stored(H, ids, wanted, h, pos);
      var two := 2 * pos + 1 < Width(|ids|, h - 1);
      var lb, lh := Bits(wanted, h - 1, 2 * pos), Hashes(H, ids, wanted, h - 1, 2 * pos);
      var rb := if two then Bits(wanted, h - 1, 2 * pos + 1) else [];
      var rh := if two then Hashes(H, ids, wanted, h - 1, 2 * pos + 1) else [];
      OccursHead(bits, nb, true, lb + rb);
      OccursSplit(bits, nb + 1, lb, rb);
      OccursSplit(hashes, nh, lh, rh);
      NodeCompleteness(H, ids, wanted, h - 1, 2 * pos, bits, hashes, nb + 1, nh);
      Consumed(H, ids, wanted, h - 1, 2 * pos, nb + 1, nh, Extract(H, |ids|, bits, hashes, h - 1, 2 * pos, nb + 1, nh));
      if two {
        NodeCompleteness(H, ids, wanted, h - 1, 2 * pos + 1, bits, hashes, nb + 1 + |lb|, nh + |lh|);
      }
      JoinNode(H, ids, wanted, h, pos, bits, hashes, nb, nh);
    }
  }

  lemma Consumed(H: PairHash, ids: seq<Hash>, wanted: seq<bool>, h: nat, pos: nat, nb: nat, nh: nat, w: Walk)
    requires |ids| == |wanted| && pos < Width(|ids|, h) && Recovers(H, ids, wanted, h, pos, nb, nh, w)
    ensures w.bitsUsed == nb + |Bits(wanted, h, pos)| && w.hashUsed == nh + |Hashes(H, ids, wanted, h, pos)|
  {
  }

  // ------------------------------------------------------------------------- sizes

  /** At most one hash for every leaf, and for every level of every match. */
  lemma {:induction false} FewHashes(H: PairHash, ids: seq<Hash>, wanted: seq<bool>, h: nat, pos: nat)
    requires |ids| == |wanted| && pos < Width(|ids|, h)
    ensures 1 <= |Hashes(H, ids, wanted, h, pos)| <= Last(|ids|, h, pos) - First(h, pos)
    ensures |Hashes(H, ids, wanted, h, pos)| <= 1 + |MatchedBelow(wanted, h, pos)| * h
    ensures |Hashes(H, ids, wanted, h, pos)| <= |Bits(wanted, h, pos)|
    decreases h
  {
    hide Width, First, MatchedBelow, Bits, Hashes, ParentOfMatch;
    WidthIsCeiling(|ids|, h, pos);
    ParentHasMatches(wanted, h, pos);
    if h == 0 || !ParentOfMatch(wanted, h, pos) {
      OneHash(H, ids, wanted, h, pos);
    } else {
      Stored(H, ids, wanted, h, pos);
      MatchesSplit(wanted, h, pos);
      Split(|ids|, h, pos);
      FewHashes(H, ids, wanted, h - 1, 2 * pos);
      if 2 * pos + 1 < Width(|ids|, h - 1) {
        FewHashes(H, ids, wanted, h - 1, 2 * pos + 1);
        OneMoreLevel(|MatchedBelow(wanted, h - 1, 2 * pos)|, |MatchedBelow(wanted, h - 1, 2 * pos + 1)|, h);
      } else {
        OneMoreLevel(|MatchedBelow(wanted, h - 1, 2 * pos)|, 0, h);
      }
    }
  }

  lemma OneHash(H: PairHash, ids: seq<Hash>, wanted: seq<bool>, h: nat, pos: nat)
    requires |ids| == |wanted| && pos < Width(|ids|, h) && (h == 0 || !ParentOfMatch(wanted, h, pos))
    ensures |Hashes(H, ids, wanted, h, pos)| == 1 == |Bits(wanted, h, pos)|
    ensures First(h, pos) < First(h, pos + 1)
  {
    assert (pos + 1) * Pow2(h) == pos * Pow2(h) + Pow2(h);
  }

  lemma OneMoreLevel(a: nat, b: nat, h: nat)
    requires h > 0
    ensures a * (h - 1) + b * (h - 1) == (a + b) * h - (a + b) && a * (h - 1) <= a * h
  {
  }
}
