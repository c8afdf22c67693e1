/** Exactly which streams are read as an address file, and what from. */
module AddrParse {
  import opened Common
  import opened AddrTables
  import opened AddrFile

  lemma {:induction false} EntriesTaken(s: seq<Item>, n: int, ds: seq<Disk>, rest: seq<Item>)
    ensures TakeEntries(s, n) == Ok((ds, rest)) <==> |ds| == Max(0, n) && s == Entries(ds) + rest
    decreases n
  {
    if n <= 0 {
      if ds == [] {
        assert Entries(ds) + rest == rest;
      }
    } else if s != [] && s[0].Entry? && ds != [] {
      EntriesTaken(s[1..], n - 1, ds[1..], rest);
      FirstOf(Entry(ds[0]), Entries(ds[1..]), rest, s);
      assert ds == [ds[0]] + ds[1..];
      if TakeEntries(s, n) == Ok((ds, rest)) {
        var (more, r) := TakeEntries(s[1..], n - 1).value;
        assert ([s[0].d] + more)[1..] == more;
      }
    } else if ds != [] {
      FirstOf(Entry(ds[0]), Entries(ds[1..]), rest, s);
    }
  }

  lemma FirstOf<T>(x: T, a: seq<T>, b: seq<T>, s: seq<T>)
    ensures s == [x] + a + b <==> s != [] && s[0] == x && s[1..] == a + b
  {
    if s != [] && s[0] == x && s[1..] == a + b {
      assert s == [s[0]] + s[1..];
    }
    if s == [x] + a + b {
      assert s[1..] == a + b;
    }
  }

  lemma {:induction false} IntsTaken(s: seq<Item>, n: int, ns: seq<int>, rest: seq<Item>)
    ensures TakeInts(s, n) == Ok((ns, rest)) <==> |ns| == Max(0, n) && s == Ints(ns) + rest
    decreases n
  {
    if n <= 0 {
      if ns == [] {
        assert Ints(ns) + rest == rest;
      }
    } else if s != [] && s[0].Int? && ns != [] {
      IntsTaken(s[1..], n - 1, ns[1..], rest);
      FirstOf(Int(ns[0]), Ints(ns[1..]), rest, s);
      assert ns == [ns[0]] + ns[1..];
      if TakeInts(s, n) == Ok((ns, rest)) {
        var (more, r) := TakeInts(s[1..], n - 1).value;
        assert ([s[0].n] + more)[1..] == more;
      }
    } else if ns != [] {
      FirstOf(Int(ns[0]), Ints(ns[1..]), rest, s);
    }
  }

  lemma {:induction false} IntsCounted(ns: seq<int>)
    ensures |Ints(ns)| == |ns|
  {
    if ns != [] {
      IntsCounted(ns[1..]);
    }
  }

  lemma {:induction false} EntriesCounted(ds: seq<Disk>)
    ensures |Entries(ds)| == |ds|
  {
    if ds != [] {
      EntriesCounted(ds[1..]);
    }
  }

  /** A stream starts with these buckets, each after its size; a size below zero is as good as zero. */
  ghost predicate ListsBuckets(s: seq<Item>, bs: seq<seq<int>>) {
    bs != [] ==>
      var n := |bs[0]|;
      && |s| >= 1 + n && s[0].Int? && n == Max(0, s[0].n) && s[1..1 + n] == Ints(bs[0])
      && ListsBuckets(s[1 + n..], bs[1..])
  }

  lemma BucketTaken(s: seq<Item>, n: int, ns: seq<int>)
    ensures TakeInts(s, n).Ok? && TakeInts(s, n).value.0 == ns <==>
            |ns| == Max(0, n) && |s| >= |ns| && s[..|ns|] == Ints(ns)
    ensures TakeInts(s, n).Ok? && TakeInts(s, n).value.0 == ns ==> TakeInts(s, n).value.1 == s[|ns|..]
  {
    hide TakeInts, Ints;
    IntsCounted(ns);
    if TakeInts(s, n).Ok? && TakeInts(s, n).value.0 == ns {
      IntsTaken(s, n, ns, TakeInts(s, n).value.1);
    }
    if |ns| == Max(0, n) && |s| >= |ns| && s[..|ns|] == Ints(ns) {
      assert s == Ints(ns) + s[|ns|..];
      IntsTaken(s, n, ns, s[|ns|..]);
    }
  }

  lemma {:induction false} BucketsTaken(s: seq<Item>, n: int, bs: seq<seq<int>>)
    ensures TakeBuckets(s, n).Ok? && TakeBuckets(s, n).value.0 == bs <==> |bs| == Max(0, n) && ListsBuckets(s, bs)
    decreases n
  {
    hide TakeInts, Ints;
    if n > 0 && s != [] && s[0].Int? && bs != [] {
      var rest := s[1..];
      BucketTaken(rest, s[0].n, bs[0]);
      if |rest| >= |bs[0]| {
        assert rest[..|bs[0]|] == s[1..1 + |bs[0]|] && rest[|bs[0]|..] == s[1 + |bs[0]|..];
        BucketsTaken(rest[|bs[0]|..], n - 1, bs[1..]);
      }
      assert bs == [bs[0]] + bs[1..];
      if TakeBuckets(s, n).Ok? && TakeBuckets(s, n).value.0 == bs {
        var (ns, more) := TakeInts(rest, s[0].n).value;
        var (others, _) := TakeBuckets(more, n - 1).value;
        assert ([ns] + others)[1..] == others && ([ns] + others)[0] == ns;
      }
    }
  }

  /** What a stream must look like to be read as a file. */
  ghost predicate Holds(s: seq<Item>, f: File) {
    && |s| >= 6 + |f.news| + |f.trieds|
    && s[0] == Byte(f.version) && s[1] == Byte(32) && s[2] == AddrFile.Item.Key(f.key)
    && s[3] == Int(f.nNew) && s[4] == Int(f.nTried)
    && s[5] == Int(if f.version == 0 then f.nUBuckets else FlipBit30(f.nUBuckets))
    && f.nNew <= 65_536 && f.nTried <= 16_384
    && |f.news| == Max(0, f.nNew) && |f.trieds| == Max(0, f.nTried) && |f.buckets| == Max(0, f.nUBuckets)
    && s[6..6 + |f.news|] == Entries(f.news)
    && s[6 + |f.news|..6 + |f.news| + |f.trieds|] == Entries(f.trieds)
    && ListsBuckets(s[6 + |f.news| + |f.trieds|..], f.buckets)
  }

  lemma EntriesPart(s: seq<Item>, n: int, ds: seq<Disk>)
    ensures TakeEntries(s, n).Ok? && TakeEntries(s, n).value.0 == ds <==>
            |ds| == Max(0, n) && |s| >= |ds| && s[..|ds|] == Entries(ds)
    ensures TakeEntries(s, n).Ok? && TakeEntries(s, n).value.0 == ds ==> TakeEntries(s, n).value.1 == s[|ds|..]
  {
    hide TakeEntries, Entries;
    EntriesCounted(ds);
    if TakeEntries(s, n).Ok? && TakeEntries(s, n).value.0 == ds {
      EntriesTaken(s, n, ds, TakeEntries(s, n).value.1);
    }
    if |ds| == Max(0, n) && |s| >= |ds| && s[..|ds|] == Entries(ds) {
      assert s == Entries(ds) + s[|ds|..];
      EntriesTaken(s, n, ds, s[|ds|..]);
    }
  }

  /** A stream is read as a file if and only if it holds it, whatever follows. */
  lemma ParsedIs(s: seq<Item>, f: File)
    ensures Parse(s) == Ok(f) <==> Holds(s, f)
  {
    hide TakeEntries, TakeBuckets, Entries, FlipBit30, ListsBuckets;
    if HasHeader(s) {
      var a, b := s[6..], |f.news|;
      FlipTwice(s[5].n);
      FlipTwice(f.nUBuckets);
      EntriesPart(a, s[3].n, f.news);
      if |a| >= b {
        EntriesPart(a[b..], s[4].n, f.trieds);
        assert a[..b] == s[6..6 + b] && a[b..] == s[6 + b..];
        if |a| >= b + |f.trieds| {
          var c := 6 + b + |f.trieds|;
          assert a[b..][..|f.trieds|] == s[6 + b..c] && a[b..][|f.trieds|..] == s[c..];
          BucketsTaken(s[c..], f.nUBuckets, f.buckets);
        }
      }
    }
  }

  lemma {:induction false} EntriesEnd(s: seq<Item>, n: int)
    ensures TakeEntries(s, n).Err? ==> TakeEntries(s, n).error == EndOfStream
    decreases n
  {
    if n > 0 && s != [] {
      EntriesEnd(s[1..], n - 1);
    }
  }

  lemma {:induction false} IntsEnd(s: seq<Item>, n: int)
    ensures TakeInts(s, n).Err? ==> TakeInts(s, n).error == EndOfStream
    decreases n
  {
    if n > 0 && s != [] {
      IntsEnd(s[1..], n - 1);
    }
  }

  lemma {:induction false} BucketsEnd(s: seq<Item>, n: int)
    ensures TakeBuckets(s, n).Err? ==> TakeBuckets(s, n).error == EndOfStream
    decreases n
  {
    hide TakeInts;
    if n > 0 && s != [] && s[0].Int? {
      IntsEnd(s[1..], s[0].n);
      if TakeInts(s[1..], s[0].n).Ok? {
        BucketsEnd(TakeInts(s[1..], s[0].n).value.1, n - 1);
      }
    }
  }

  /** Why a stream is refused, in the order of the tests; all others that are refused end too soon. */
  lemma RefusedFor(s: seq<Item>)
    ensures Parse(s) == Err(BadKeySize) <==> |s| >= 2 && s[0].Byte? && s[1].Byte? && s[1] != Byte(32)
    ensures Parse(s) == Err(TooManyNew) <==> HasHeader(s) && s[1] == Byte(32) && s[3].n > 65_536
    ensures Parse(s) == Err(TooManyTried) <==> HasHeader(s) && s[1] == Byte(32) && s[3].n <= 65_536 && s[4].n > 16_384
  {
    hide TakeEntries, TakeBuckets, FlipBit30;
    if HasHeader(s) {
      EntriesEnd(s[6..], s[3].n);
      if TakeEntries(s[6..], s[3].n).Ok? {
        var s1 := TakeEntries(s[6..], s[3].n).value.1;
        EntriesEnd(s1, s[4].n);
        if TakeEntries(s1, s[4].n).Ok? {
          BucketsEnd(TakeEntries(s1, s[4].n).value.1, if s[0].b == 0 then s[5].n else FlipBit30(s[5].n));
        }
      }
    }
  }
}
