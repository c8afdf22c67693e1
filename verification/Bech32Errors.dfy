/** Errors in Bech32 strings: which changes of one data character decoding notices. */
module Bech32Errors {
  import opened Common
  import opened Bech32Code
  import opened Bech32

  /** What an accepted string consists of. */
  lemma AcceptedParts(s: string)
    requires Decoded(s).Some?
    ensures SeparatorOf(s).Some? && SeparatorOf(s) == LastOne(s) && LastOne(s).value + 7 <= |s|
    ensures var pos := LastOne(s).value; AllSymbols(s[pos + 1..]) && Verifies(Lower(s[..pos]), ValuesOf(s[pos + 1..]))
    ensures var pos := LastOne(s).value; Fold(1, ExpandHrp(Lower(s[..pos])) + ValuesOf(s[pos + 1..])) == 1
  {
  }

  lemma {:induction false} LastOneOf(s: string, pos: nat)
    requires pos < |s| && s[pos] == '1' && forall i :: pos < i < |s| ==> s[i] != '1'
    ensures LastOne(s) == Some(pos)
  {
    assert '1' in s;
  }

  // ----------------------------------------------------------- another data character

  /** Any other character in place of a data character is noticed, unless it is a separator. */
  lemma DataErrorIsRejected(s: string, i: nat, c: char)
    requires Decoded(s).Some? && SeparatorOf(s).value < i < |s| && LowerCase(c) != LowerCase(s[i]) && c != '1'
    ensures Decoded(s[i := c]) == None
  {
    hide Fold, ExpandHrp, LowerCase, LastOne, Rev, Verifies;
    AcceptedParts(s);
    var pos, t := LastOne(s).value, s[i := c];
    LastOneOf(t, pos);
    if Decoded(t).Some? {
      AcceptedParts(t);
      assert t[..pos] == s[..pos];
      var data, changed := s[pos + 1..], t[pos + 1..];
      var j := i - pos - 1;
      assert changed == data[j := c] && changed[j] == c && data[j] == s[i];
      RevDiffers(s[i], c);
      assert ValuesOf(changed) == ValuesOf(data)[j := Rev(c).value];
      OneErrorIsDetected(Lower(s[..pos]), ValuesOf(data), j, Rev(c).value);
    }
  }

  lemma RevDiffers(a: char, b: char)
    requires LowerCase(a) != LowerCase(b) && Rev(a).Some? && Rev(b).Some?
    ensures Rev(a).value != Rev(b).value
  {
    hide Symbol, LowerCase, Rev;
    RevSymbol(a);
    RevSymbol(b);
  }

  // -------------------------------------------------------------- a second separator

  /** What a separator in place of a data character makes of a string. */
  lemma SeparatorMoves(s: string, i: nat)
    requires Decoded(s).Some? && SeparatorOf(s).value < i < |s|
    ensures SeparatorOf(s[i := '1']) == if i + 7 <= |s| then Some(i) else None
    ensures AllSymbols(s[SeparatorOf(s).value + 1..]) && AllSymbols(s[i + 1..])
  {
    hide Fold, ExpandHrp, LowerCase, Rev, LastOne, Verifies;
    AcceptedParts(s);
    var pos, t := LastOne(s).value, s[i := '1'];
    LastOneOf(t, i);
    var rest := s[i + 1..];
    forall k | 0 <= k < |rest| ensures Rev(rest[k]).Some? {
      assert rest[k] == s[pos + 1..][i - pos + k];
    }
    assert AllPrintable(t);
    assert HasLower(t) ==> HasLower(s);
    assert HasUpper(t) ==> HasUpper(s);
  }

  /**
   * A separator in place of a data character goes unnoticed exactly when at least
   * six characters follow and the checksum so far is that of the longer readable
   * part. What follows does not matter.
   */
  lemma SeparatorErrorIsRejected(s: string, i: nat)
    requires Decoded(s).Some? && SeparatorOf(s).value < i < |s|
    ensures var pos := SeparatorOf(s).value;
            && AllSymbols(s[pos + 1..i + 1])
            && (Decoded(s[i := '1']).Some? <==>
                  && i + 7 <= |s|
                  && Fold(1, ExpandHrp(Lower(s[..pos])) + ValuesOf(s[pos + 1..i + 1])) ==
                     Fold(1, ExpandHrp(Lower(s[..i]))))
  {
    hide Fold, ExpandHrp, Rev, SeparatorOf, Lower, ValuesOf, Decoded, AllSymbols;
    AcceptedParts(s);
    SeparatorMoves(s, i);
    var pos, t := SeparatorOf(s).value, s[i := '1'];
    var head, rest := s[pos + 1..i + 1], s[i + 1..];
    assert s[pos + 1..] == head + rest;
    HeadSymbols(head, rest);
    if i + 7 <= |s| {
      assert t[..i] == s[..i] && t[i + 1..] == rest;
      DecodedAt(t, i);
      var hrp, long := ExpandHrp(Lower(s[..pos])), ExpandHrp(Lower(s[..i]));
      var short := hrp + ValuesOf(head);
      assert hrp + (ValuesOf(head) + ValuesOf(rest)) == short + ValuesOf(rest);
      FoldsMeet(short, long, ValuesOf(rest));
    } else {
      NoSeparator(t);
    }
  }

  lemma DecodedAt(t: string, i: nat)
    requires SeparatorOf(t) == Some(i) && i < |t| && AllSymbols(t[i + 1..])
    ensures Decoded(t).Some? <==> Fold(1, ExpandHrp(Lower(t[..i])) + ValuesOf(t[i + 1..])) == 1
  {
  }

  lemma NoSeparator(t: string)
    requires SeparatorOf(t) == None
    ensures Decoded(t) == None
  {
  }

  lemma HeadSymbols(head: string, rest: string)
    requires AllSymbols(head + rest)
    ensures AllSymbols(head) && AllSymbols(rest) && ValuesOf(head + rest) == ValuesOf(head) + ValuesOf(rest)
  {
    hide Rev;
    forall k | 0 <= k < |head| ensures Rev(head[k]).Some? {
      assert (head + rest)[k] == head[k];
    }
    forall k | 0 <= k < |rest| ensures Rev(rest[k]).Some? {
      assert (head + rest)[|head| + k] == rest[k];
    }
  }

  lemma FoldsMeet(a: Data, b: Data, rest: Data)
    requires Fold(1, a + rest) == 1
    ensures Fold(1, b + rest) == 1 <==> Fold(1, a) == Fold(1, b)
  {
    hide Fold;
    FoldAppend(1, a, rest);
    FoldAppend(1, b, rest);
    FoldRange(1, a);
    FoldRange(1, b);
    if Fold(Fold(1, a), rest) == Fold(Fold(1, b), rest) {
      FoldInjective(Fold(1, a), Fold(1, b), rest);
    }
  }

  // ------------------------------------------------------------- an unnoticed separator

  lemma FoldThree(c: bv32, x: bv8, y: bv8, z: bv8)
    ensures Fold(c, [x, y, z]) == Step(Step(Step(c, Wide(x)), Wide(y)), Wide(z))
  {
    hide Step, Wide;
    assert [x, y, z][..2] == [x, y] && [x, y][..1] == [x] && [x][..0] == [];
    assert Fold(c, [x]) == Step(c, Wide(x));
    assert Fold(c, [x, y]) == Step(Fold(c, [x]), Wide(y));
  }

  lemma FoldOn(c: bv32, a: Data, b: Data, d: bv32, e: bv32)
    requires Fold(c, a) == d && Fold(d, b) == e
    ensures Fold(c, a + b) == e
  {
    hide Fold;
    FoldAppend(c, a, b);
  }

  function ShortRemainderInput(): Data {
    [3, 0, 1, 16, 16, 31, 6, 7, 22]
  }

  lemma ShortRemainderIs()
    ensures ShortRemainderInput() == [3, 0, 1] + [16, 16, 31] + [6, 7, 22]
  {
  }

  lemma ShortRemainder()
    ensures Fold(1, ShortRemainderInput()) == 0x34c36668
  {
    hide Fold, Step, Wide, ShortRemainderInput;
    ShortRemainderIs();
    ShortRemainder0();
    ShortRemainder1();
    ShortRemainder2();
    FoldOn(1, [3, 0, 1], [16, 16, 31], 0x8c01, 0x3d6a95ad);
    FoldOn(1, [3, 0, 1] + [16, 16, 31], [6, 7, 22], 0x3d6a95ad, 0x34c36668);
  }

  lemma ShortRemainder0()
    ensures Fold(0x1, [3, 0, 1]) == 0x8c01
  {
    FoldThree(0x1, 3, 0, 1);
  }

  lemma ShortRemainder1()
    ensures Fold(0x8c01, [16, 16, 31]) == 0x3d6a95ad
  {
    FoldThree(0x8c01, 16, 16, 31);
  }

  lemma ShortRemainder2()
    ensures Fold(0x3d6a95ad, [6, 7, 22]) == 0x34c36668
  {
    FoldThree(0x3d6a95ad, 6, 7, 22);
  }

  function LongRemainderInput(): Data {
    [3, 1, 3, 3, 3, 3, 1, 0, 1, 17, 19, 19, 12, 24, 24]
  }

  lemma LongRemainderIs()
    ensures LongRemainderInput() == [3, 1, 3] + [3, 3, 3] + [1, 0, 1] + [17, 19, 19] + [12, 24, 24]
  {
  }

  lemma LongRemainder()
    ensures Fold(1, LongRemainderInput()) == 0x34c36668
  {
    hide Fold, Step, Wide, LongRemainderInput;
    LongRemainderIs();
    LongRemainder0();
    LongRemainder1();
    LongRemainder2();
    LongRemainder3();
    LongRemainder4();
    FoldOn(1, [3, 1, 3], [3, 3, 3], 0x8c23, 0x3d7bdbd1);
    FoldOn(1, [3, 1, 3] + [3, 3, 3], [1, 0, 1], 0x3d7bdbd1, 0x2a7a1d94);
    FoldOn(1, [3, 1, 3] + [3, 3, 3] + [1, 0, 1], [17, 19, 19], 0x2a7a1d94, 0x3451ce1c);
    FoldOn(1, [3, 1, 3] + [3, 3, 3] + [1, 0, 1] + [17, 19, 19], [12, 24, 24], 0x3451ce1c, 0x34c36668);
  }

  lemma LongRemainder0()
    ensures Fold(0x1, [3, 1, 3]) == 0x8c23
  {
    FoldThree(0x1, 3, 1, 3);
  }

  lemma LongRemainder1()
    ensures Fold(0x8c23, [3, 3, 3]) == 0x3d7bdbd1
  {
    FoldThree(0x8c23, 3, 3, 3);
  }

  lemma LongRemainder2()
    ensures Fold(0x3d7bdbd1, [1, 0, 1]) == 0x2a7a1d94
  {
    FoldThree(0x3d7bdbd1, 1, 0, 1);
  }

  lemma LongRemainder3()
    ensures Fold(0x2a7a1d94, [17, 19, 19]) == 0x3451ce1c
  {
    FoldThree(0x2a7a1d94, 17, 19, 19);
  }

  lemma LongRemainder4()
    ensures Fold(0x3451ce1c, [12, 24, 24]) == 0x34c36668
  {
    FoldThree(0x3451ce1c, 12, 24, 24);
  }

  function Unlucky(): Data {
    [16, 16, 31, 6, 7, 22]
  }

  lemma CodeOfA()
    ensures HighBits('a') == 3 && LowBits('a') == 1
  {
  }

  lemma CodeOfOne()
    ensures HighBits('1') == 1 && LowBits('1') == 17
  {
  }

  lemma CodeOfS()
    ensures HighBits('s') == 3 && LowBits('s') == 19
  {
  }

  lemma CodeOfL()
    ensures HighBits('l') == 3 && LowBits('l') == 12
  {
  }

  lemma CodeOfX()
    ensures HighBits('x') == 3 && LowBits('x') == 24
  {
  }

  lemma CodeOfEight()
    ensures HighBits('8') == 1 && LowBits('8') == 24
  {
  }

  lemma Codes()
    ensures HighBits('a') == 3 && LowBits('a') == 1 && HighBits('1') == 1 && LowBits('1') == 17
    ensures HighBits('s') == 3 && LowBits('s') == 19 && HighBits('l') == 3 && LowBits('l') == 12
    ensures HighBits('x') == 3 && LowBits('x') == 24 && HighBits('8') == 1 && LowBits('8') == 24
  {
    hide HighBits, LowBits;
    CodeOfA();
    CodeOfOne();
    CodeOfS();
    CodeOfL();
    CodeOfX();
    CodeOfEight();
  }

  lemma ShortInput()
    ensures ExpandHrp("a") + Unlucky() == ShortRemainderInput()
  {
    hide HighBits, LowBits;
    Codes();
  }

  lemma LongInput()
    ensures ExpandHrp("a1sslx8") == LongRemainderInput()
  {
    hide HighBits, LowBits;
    Codes();
  }

  /** In a1sslx8k and its checksum, a separator in place of the k goes unnoticed. */
  lemma SeparatorGoesUnnoticed()
    ensures var s := Encoded("a", Unlucky());
            |s| == 14 && Decoded(s) == Some(("a", Unlucky())) && Decoded(s[7 := '1']).Some?
  {
    hide Fold, ExpandHrp, Decoded, Checksum, SeparatorOf, ValuesOf, Lower, Unlucky, Encoded;
    var s := Encoded("a", Unlucky());
    UnluckyString();
    DecodeEncode("a", Unlucky());
    SeparatorErrorIsRejected(s, 7);
    ShortInput();
    LongInput();
    ShortRemainder();
    LongRemainder();
  }

  lemma UnluckySymbols()
    ensures |Unlucky()| == 6 && Symbols(Unlucky()) && GoodHrp("a")
    ensures Symbol(16) == 's' && Symbol(31) == 'l' && Symbol(6) == 'x' && Symbol(7) == '8'
  {
  }

  /** The characters up to the one that is replaced. */
  lemma UnluckyPrefix(all: Data)
    requires |all| == 12 && Symbols(all) && all[..6] == Unlucky()
    ensures ("a1" + Body(all))[..7] == "a1sslx8"
  {
    hide Symbol;
    UnluckySymbols();
    var b := Body(all);
    assert forall i :: 0 <= i < 5 ==> all[i] == all[..6][i];
    assert b[0] == 's' && b[1] == 's' && b[2] == 'l' && b[3] == 'x' && b[4] == '8';
  }

  lemma UnluckyString()
    ensures |Unlucky()| == 6 && Symbols(Unlucky()) && GoodHrp("a")
    ensures var s := Encoded("a", Unlucky());
            && |s| == 14 && SeparatorOf(s) == Some(1) && Lower(s[..1]) == "a" && Lower(s[..7]) == "a1sslx8"
            && AllSymbols(s[2..8]) && ValuesOf(s[2..8]) == Unlucky()
  {
    hide Fold, Checksum, ExpandHrp, SeparatorOf, LowerCase, Rev, Symbol, Unlucky, GoodHrp, Body;
    UnluckySymbols();
    var sum := Checksum(ExpandHrp("a") + Unlucky());
    var all := Unlucky() + sum;
    ChecksumVerifies(ExpandHrp("a") + Unlucky());
    assert all[..6] == Unlucky();
    var s := Encoded("a", Unlucky());
    EncodedShape("a", all);
    UnluckyPrefix(all);
    assert "a" + "1" == "a1";
    LowerLetters();
    var b := s[2..];
    assert s[2..8] == b[..6] && ValuesOf(b)[..6] == Unlucky();
  }

  lemma LowerLetters()
    ensures forall c :: c in "a1sslx8" ==> LowerCase(c) == c
  {
  }
}
