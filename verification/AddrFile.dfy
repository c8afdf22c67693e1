/**
 * The address file: what is written for a set of tables, how it is read back,
 * and the stream of items in between.
 */
module AddrFile {
  import opened AddrTables

  // ---------------------------------------------------------------------- items

  /** The part of an entry that is written; the rest is kept in memory only. */
  datatype Disk = Disk(addr: Address, source: NetAddr, nLastSuccess: int, nAttempts: int)

  function ToDisk(e: Info): Disk {
    Disk(e.addr, e.source, e.nLastSuccess, e.nAttempts)
  }

  function FromDisk(d: Disk): Info {
    NewInfo(d.addr, d.source).(nLastSuccess := d.nLastSuccess, nAttempts := d.nAttempts)
  }

  datatype Item = Byte(b: nat) | Key(k: nat) | Int(n: int) | Entry(d: Disk)

  datatype File = File(version: nat, key: nat, nNew: int, nTried: int, nUBuckets: int,
                       news: seq<Disk>, trieds: seq<Disk>, buckets: seq<seq<int>>)

  datatype Result<+T> = Ok(value: T) | Err(error: Error)

  datatype Error = EndOfStream | BadKeySize | TooManyNew | TooManyTried

  const BIT30 := 0x4000_0000

  /** Exclusive or with 2**30. */
  function FlipBit30(n: int): (r: int)
  {
    if (n / BIT30) % 2 == 1 then n - BIT30 else n + BIT30
  }

  // --------------------------------------------------------------------- writing

  function Entries(ds: seq<Disk>): seq<Item> {
    if ds == [] then [] else [Entry(ds[0])] + Entries(ds[1..])
  }

  function Ints(ns: seq<int>): seq<Item> {
    if ns == [] then [] else [Int(ns[0])] + Ints(ns[1..])
  }

  function Buckets(bs: seq<seq<int>>): seq<Item> {
    if bs == [] then [] else [Int(|bs[0]|)] + Ints(bs[0]) + Buckets(bs[1..])
  }

  function Emit(f: File): seq<Item> {
    [Byte(f.version), Byte(32), Key(f.key), Int(f.nNew), Int(f.nTried),
     Int(if f.version == 0 then f.nUBuckets else FlipBit30(f.nUBuckets))]
    + Entries(f.news) + Entries(f.trieds) + Buckets(f.buckets)
  }

  // --------------------------------------------------------------------- reading

  function TakeEntries(s: seq<Item>, n: int): Result<(seq<Disk>, seq<Item>)>
    decreases n
  {
    if n <= 0 then Ok(([], s))
    else if s == [] || !s[0].Entry? then Err(EndOfStream)
    else
      match TakeEntries(s[1..], n - 1)
      case Ok((ds, rest)) => Ok(([s[0].d] + ds, rest))
      case Err(e) => Err(e)
  }

  function TakeInts(s: seq<Item>, n: int): Result<(seq<int>, seq<Item>)>
    decreases n
  {
    if n <= 0 then Ok(([], s))
    else if s == [] || !s[0].Int? then Err(EndOfStream)
    else
      match TakeInts(s[1..], n - 1)
      case Ok((ns, rest)) => Ok(([s[0].n] + ns, rest))
      case Err(e) => Err(e)
  }

  function TakeBuckets(s: seq<Item>, n: int): Result<(seq<seq<int>>, seq<Item>)>
    decreases n
  {
    if n <= 0 then Ok(([], s))
    else if s == [] || !s[0].Int? then Err(EndOfStream)
    else
      match TakeInts(s[1..], s[0].n)
      case Err(e) => Err(e)
      case Ok((ns, more)) =>
        match TakeBuckets(more, n - 1)
        case Ok((bs, rest)) => Ok(([ns] + bs, rest))
        case Err(e) => Err(e)
  }

  predicate HasHeader(s: seq<Item>) {
    |s| >= 6 && s[0].Byte? && s[1].Byte? && s[2].Key? && s[3].Int? && s[4].Int? && s[5].Int?
  }

  /** Reads a file from a stream, with the checks made on the way. */
  function Parse(s: seq<Item>): Result<File> {
    if |s| >= 2 && s[0].Byte? && s[1].Byte? && s[1].b != 32 then Err(BadKeySize)
    else if !HasHeader(s) then Err(EndOfStream)
    else
      var nNew, nTried := s[3].n, s[4].n;
      var nUBuckets := if s[0].b == 0 then s[5].n else FlipBit30(s[5].n);
      if nNew > NEW_BUCKET_COUNT * BUCKET_SIZE then Err(TooManyNew)
      else if nTried > TRIED_BUCKET_COUNT * BUCKET_SIZE then Err(TooManyTried)
      else
        match TakeEntries(s[6..], nNew)
        case Err(e) => Err(e)
        case Ok((news, s1)) =>
          match TakeEntries(s1, nTried)
          case Err(e) => Err(e)
          case Ok((trieds, s2)) =>
            match TakeBuckets(s2, nUBuckets)
            case Err(e) => Err(e)
            case Ok((buckets, _)) => Ok(File(s[0].b, s[2].k, nNew, nTried, nUBuckets, news, trieds, buckets))
  }

  // ------------------------------------------------------- the stream round trip

  lemma {:induction false} EntriesRoundTrip(ds: seq<Disk>, rest: seq<Item>)
    ensures TakeEntries(Entries(ds) + rest, |ds|) == Ok((ds, rest))
  {
    if ds == [] {
      assert Entries(ds) + rest == rest;
    } else {
      EntriesRoundTrip(ds[1..], rest);
      assert [ds[0]] + ds[1..] == ds;
      assert (Entries(ds) + rest)[1..] == Entries(ds[1..]) + rest;
    }
  }

  lemma {:induction false} IntsRoundTrip(ns: seq<int>, rest: seq<Item>)
    ensures TakeInts(Ints(ns) + rest, |ns|) == Ok((ns, rest))
  {
    if ns == [] {
      assert Ints(ns) + rest == rest;
    } else {
      IntsRoundTrip(ns[1..], rest);
      assert [ns[0]] + ns[1..] == ns;
      assert (Ints(ns) + rest)[1..] == Ints(ns[1..]) + rest;
    }
  }

  lemma {:induction false} BucketsRoundTrip(bs: seq<seq<int>>, rest: seq<Item>)
    ensures TakeBuckets(Buckets(bs) + rest, |bs|) == Ok((bs, rest))
  {
    hide Ints, TakeInts, Buckets, TakeBuckets;
    if bs == [] {
      NoBuckets(rest);
    } else {
      BucketsRoundTrip(bs[1..], rest);
      assert [bs[0]] + bs[1..] == bs;
      IntsRoundTrip(bs[0], Buckets(bs[1..]) + rest);
      BucketFirst(bs, rest);
      TakeFirst(Buckets(bs) + rest, |bs|, bs[0], Buckets(bs[1..]) + rest);
    }
  }

  lemma NoBuckets(rest: seq<Item>)
    ensures TakeBuckets(Buckets([]) + rest, 0) == Ok(([], rest))
  {
    assert Buckets([]) + rest == rest;
  }

  lemma BucketFirst(bs: seq<seq<int>>, rest: seq<Item>)
    requires bs != []
    ensures var s := Buckets(bs) + rest;
            s != [] && s[0] == Int(|bs[0]|) &&
            s[1..] == Ints(bs[0]) + (Buckets(bs[1..]) + rest)
  {
    hide Ints, Buckets;
    BucketsCons(bs);
    HeadAndTail(Int(|bs[0]|), Ints(bs[0]), Buckets(bs[1..]), rest);
  }

  lemma BucketsCons(bs: seq<seq<int>>)
    requires bs != []
    ensures Buckets(bs) == [Int(|bs[0]|)] + Ints(bs[0]) + Buckets(bs[1..])
  {
    hide Ints;
  }

  lemma HeadAndTail<T>(x: T, a: seq<T>, b: seq<T>, c: seq<T>)
    ensures var s := [x] + a + b + c; s[0] == x && s[1..] == a + (b + c)
  {
  }

  lemma TakeFirst(s: seq<Item>, n: int, ns: seq<int>, more: seq<Item>)
    requires n > 0 && s != [] && s[0].Int? && TakeInts(s[1..], s[0].n) == Ok((ns, more)) && TakeBuckets(more, n - 1).Ok?
    ensures TakeBuckets(s, n) == Ok(([ns] + TakeBuckets(more, n - 1).value.0, TakeBuckets(more, n - 1).value.1))
  {
    hide TakeInts;
  }

  /** A file whose counts match its lists and are within the limits. */
  predicate WellCounted(f: File) {
    && f.nNew == |f.news| <= NEW_BUCKET_COUNT * BUCKET_SIZE
    && f.nTried == |f.trieds| <= TRIED_BUCKET_COUNT * BUCKET_SIZE
    && f.nUBuckets == |f.buckets|
  }

  lemma StreamRoundTrip(f: File)
    requires WellCounted(f)
    ensures Parse(Emit(f)) == Ok(f)
  {
    hide Entries, Buckets, TakeEntries, TakeBuckets, FlipBit30;
    var s := Emit(f);
    var tail := Entries(f.trieds) + Buckets(f.buckets);
    assert s[6..] == Entries(f.news) + tail;
    EntriesRoundTrip(f.news, tail);
    EntriesRoundTrip(f.trieds, Buckets(f.buckets));
    BucketsRoundTrip(f.buckets, []);
    assert Buckets(f.buckets) + [] == Buckets(f.buckets);
    FlipTwice(f.nUBuckets);
  }

  /** Bit 30 changes, and nothing else. */
  lemma FlipIs(high: int, bit: int, low: int)
    requires 0 <= bit <= 1 && 0 <= low < 0x4000_0000
    ensures FlipBit30(0x8000_0000 * high + 0x4000_0000 * bit + low) ==
              0x8000_0000 * high + 0x4000_0000 * (1 - bit) + low
  {
    var n := 0x8000_0000 * high + 0x4000_0000 * bit + low;
    assert n / 0x4000_0000 == 2 * high + bit;
  }

  lemma FlipTwice(n: int)
    ensures FlipBit30(FlipBit30(n)) == n
  {
  }
}
