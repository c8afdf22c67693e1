/** Base58: bytes as base-58 digits, leading zero bytes as leading ones. */
module Base58 {
  import opened Common
  import opened Digits

  // -------------------------------------------------------------- room in the buffers

  lemma RaisedBound(a: nat, b: nat, p: nat, q: nat, n: nat, j: nat, l: nat)
    requires Pow(b, q) <= Pow(a, p) && Pow(a, j) == Pow(Pow(a, p), n) && Pow(b, l) == Pow(Pow(b, q), n)
    ensures Pow(b, l) <= Pow(a, j)
  {
    hide Pow;
    PowMono(Pow(b, q), Pow(a, p), n);
  }

  lemma FromRaised(x: nat, y: nat, q: nat, low: nat, high: nat)
    requires Pow(y, q) <= low < high == Pow(x, q)
    ensures x > y
  {
    hide Pow;
    if x <= y {
      PowMono(x, y, q);
    }
  }

  /** A number of digits with a rational bound on the logarithm is enough. */
  lemma EnoughDigits(a: nat, b: nat, p: nat, q: nat, n: nat, m: nat, j: nat, k: nat, l: nat)
    requires a >= 2 && b >= 1 && Pow(b, q) <= Pow(a, p) && j == p * n && k == q * m && l == q * n && j < k
    ensures Pow(a, m) > Pow(b, n)
  {
    hide Pow;
    PowMul(a, p, n);
    PowMul(b, q, n);
    RaisedBound(a, b, p, q, n, j, l);
    PowGrows(a, j, k);
    PowSwap(a, m, q);
    PowSwap(b, n, q);
    FromRaised(Pow(a, m), Pow(b, n), q, Pow(a, j), Pow(a, k));
  }

  lemma PowSwap(b: nat, m: nat, n: nat)
    ensures Pow(b, n * m) == Pow(Pow(b, m), n)
  {
    hide Pow;
    PowMul(b, m, n);
    assert m * n == n * m;
  }

  lemma SmallPowers()
    ensures Pow(58, 4) == 11316496 && Pow(58, 7) == 2207984167552 && Pow(2, 8) == 256 && Pow(2, 10) == 1024
  {
    assert Pow(58, 2) == 3364;
    PowAdd(58, 2, 2);
    PowAdd(58, 4, 3);
    assert Pow(58, 3) == 195112;
    assert Pow(2, 5) == 32;
    PowAdd(2, 5, 3);
    PowAdd(2, 5, 5);
  }

  lemma LargePowers()
    ensures Pow(58, 14) <= Pow(2, 83) && Pow(58, 29) <= Pow(2, 170) && Pow(2, 41) <= Pow(58, 7) &&
            Pow(2, 21) <= Pow(58, 4)
  {
    hide Pow;
    SmallPowers();
    OnePower();
    PowAdd(58, 7, 7);
    PowAdd(58, 14, 14);
    PowAdd(58, 28, 1);
    PowAdd(2, 10, 10);
    PowAdd(2, 20, 1);
    PowAdd(2, 20, 20);
    PowAdd(2, 40, 1);
    PowAdd(2, 40, 40);
    PowAdd(2, 80, 2);
    PowAdd(2, 82, 1);
    PowAdd(2, 80, 80);
    PowAdd(2, 160, 10);
    PowAdd(2, 1, 1);
  }

  lemma OnePower()
    ensures Pow(58, 1) == 58 && Pow(2, 1) == 2
  {
  }

  /** 58^138 is above 256^100. */
  lemma EncodeRatio()
    ensures Pow(256, 100) <= Pow(58, 138)
  {
    hide Pow;
    LargePowers();
    SmallPowers();
    PowMul(2, 8, 100);
    PowMul(2, 41, 19);
    PowMul(58, 7, 19);
    PowMono(Pow(2, 41), Pow(58, 7), 19);
    PowAdd(2, 779, 21);
    PowAdd(58, 133, 4);
    Limbs.MulMono(Pow(2, 779), Pow(58, 133), Pow(2, 21));
    Limbs.MulMono(Pow(2, 21), Pow(58, 4), Pow(58, 133));
    PowGrows(58, 137, 138);
  }

  /** 256^733 is above 58^1000. */
  lemma DecodeRatio()
    ensures Pow(58, 1000) <= Pow(256, 733)
  {
    hide Pow;
    LargePowers();
    SmallPowers();
    PowMul(2, 8, 733);
    PowMul(58, 29, 34);
    PowMul(2, 170, 34);
    PowMono(Pow(58, 29), Pow(2, 170), 34);
    PowAdd(58, 986, 14);
    PowAdd(2, 5780, 83);
    Limbs.MulMono(Pow(58, 986), Pow(2, 5780), Pow(58, 14));
    Limbs.MulMono(Pow(58, 14), Pow(2, 83), Pow(2, 5780));
    PowGrows(2, 5863, 5864);
  }

  /** The base-58 buffer holds every number of as many bytes. */
  lemma EncodeRoom(n: nat)
    ensures Pow(58, n * 138 / 100 + 1) > Pow(256, n)
  {
    hide Pow;
    EncodeRatio();
    var m := n * 138 / 100 + 1;
    EnoughDigits(58, 256, 138, 100, n, m, 138 * n, 100 * m, 100 * n);
  }

  /** The byte buffer holds every number of as many base-58 digits. */
  lemma DecodeRoom(n: nat)
    ensures Pow(256, n * 733 / 1000 + 1) > Pow(58, n)
  {
    hide Pow;
    DecodeRatio();
    var m := n * 733 / 1000 + 1;
    EnoughDigits(256, 58, 733, 1000, n, m, 733 * n, 1000 * m, 1000 * n);
  }

  // --------------------------------------------------------------------- characters

  /** The character of a digit: all alphanumeric ones but 0, I, O and l. */
  function CharOf(d: nat): char
    requires d < 58
  {
    (if d < 9 then 49 + d else if d < 17 then 56 + d else if d < 22 then 57 + d
     else if d < 33 then 58 + d else if d < 44 then 64 + d else 65 + d) as char
  }

  function DigitOf(c: char): Option<nat> {
    if '1' <= c <= '9' then Some(c as int - 49)
    else if 'A' <= c <= 'H' then Some(c as int - 56)
    else if 'J' <= c <= 'N' then Some(c as int - 57)
    else if 'P' <= c <= 'Z' then Some(c as int - 58)
    else if 'a' <= c <= 'k' then Some(c as int - 64)
    else if 'm' <= c <= 'z' then Some(c as int - 65)
    else None
  }

  predicate IsSpace(c: char) {
    c == ' ' || 9 <= c as int <= 13
  }

  lemma CharsAreDigits(d: nat)
    requires d < 58
    ensures DigitOf(CharOf(d)) == Some(d) && !IsSpace(CharOf(d)) && (CharOf(d) == '1' <==> d == 0)
  {
  }

  lemma DigitsAreChars(c: char)
    ensures DigitOf(c).Some? ==> DigitOf(c).value < 58 && CharOf(DigitOf(c).value) == c
  {
  }

  function Chars(s: seq<nat>): (r: string)
    requires AreDigits(58, s)
    ensures |r| == |s| && forall i :: 0 <= i < |r| ==> r[i] == CharOf(s[i])
  {
    seq(|s|, i requires 0 <= i < |s| => CharOf(s[i]))
  }

  predicate AllDigits(s: string) {
    forall i :: 0 <= i < |s| ==> DigitOf(s[i]).Some?
  }

  function DigitsOf(s: string): (r: seq<nat>)
    requires AllDigits(s)
    ensures |r| == |s| && forall i :: 0 <= i < |r| ==> r[i] == DigitOf(s[i]).value
  {
    seq(|s|, i requires 0 <= i < |s| => DigitOf(s[i]).value)
  }

  function SkipSpaces(s: string): string {
    if s != "" && IsSpace(s[0]) then SkipSpaces(s[1..]) else s
  }

  /** How many characters come before the first space. */
  function WordLength(s: string): (n: nat)
    ensures n <= |s| && (forall i :: 0 <= i < n ==> !IsSpace(s[i])) && (n < |s| ==> IsSpace(s[n]))
  {
    if s == "" || IsSpace(s[0]) then 0 else 1 + WordLength(s[1..])
  }

  // ------------------------------------------------------------- encoding, decoding

  function Encoded(bytes: seq<nat>): string {
    ToDigitsIs(58, Value(256, bytes));
    Chars(Convert(256, 58, bytes))
  }

  /** The one word of a string, if it is made of digits. */
  function Decoded(s: string): Option<seq<nat>> {
    var t := SkipSpaces(s);
    var word := t[..WordLength(t)];
    if SkipSpaces(t[WordLength(t)..]) != "" || !AllDigits(word) then None
    else Some(Convert(58, 256, DigitsOf(word)))
  }

  /** Decoding an encoding gives back the bytes. */
  lemma DecodeEncode(bytes: seq<nat>)
    requires AreDigits(256, bytes)
    ensures Decoded(Encoded(bytes)) == Some(bytes)
  {
    hide Convert, CharOf, DigitOf;
    var ds := Convert(256, 58, bytes);
    ConvertBack(256, 58, bytes);
    var s := Chars(ds);
    forall i | 0 <= i < |s| ensures DigitOf(s[i]) == Some(ds[i]) && !IsSpace(s[i]) {
      CharsAreDigits(ds[i]);
    }
    assert SkipSpaces(s) == s && s[..WordLength(s)] == s && s[WordLength(s)..] == "";
    assert DigitsOf(s) == ds;
  }

  /** Every accepted string is, without the spaces around it, the encoding of its bytes. */
  lemma EncodeDecode(s: string)
    requires Decoded(s).Some?
    ensures var t := SkipSpaces(s); Encoded(Decoded(s).value) == t[..WordLength(t)]
  {
    hide Convert, CharOf, DigitOf;
    var t := SkipSpaces(s);
    var word := t[..WordLength(t)];
    var ds := DigitsOf(word);
    forall i | 0 <= i < |word| ensures ds[i] < 58 && CharOf(ds[i]) == word[i] {
      DigitsAreChars(word[i]);
    }
    ConvertBack(58, 256, ds);
    assert Chars(ds) == word;
  }

  /** The digits are the numbers and letters in their order, without the four that look like others. */
  lemma Alphabet(c: char, d: nat, e: nat)
    requires d < e < 58
    ensures DigitOf(c).Some? <==>
              && ('0' <= c <= '9' || 'A' <= c <= 'Z' || 'a' <= c <= 'z')
              && c != '0' && c != 'O' && c != 'I' && c != 'l'
    ensures CharOf(d) < CharOf(e)
  {
  }

  // ------------------------------------------------------------- what is accepted

  /** Nothing but spaces, tabs, line and page breaks. */
  predicate Blank(s: string) {
    forall i :: 0 <= i < |s| ==> s[i] == ' ' || '\t' <= s[i] <= '\r'
  }

  lemma {:induction false} SkipsBlank(s: string)
    ensures var t := SkipSpaces(s);
            && |t| <= |s| && s[|s| - |t|..] == t && Blank(s[..|s| - |t|]) && (t != "" ==> !IsSpace(t[0]))
  {
    if s != "" && IsSpace(s[0]) {
      SkipsBlank(s[1..]);
      var t := SkipSpaces(s);
      assert s[..|s| - |t|] == [s[0]] + s[1..][..|s| - 1 - |t|];
    }
  }

  lemma {:induction false} BlankSkipped(a: string, t: string)
    requires Blank(a) && (t != "" ==> !IsSpace(t[0]))
    ensures SkipSpaces(a + t) == t
  {
    if a == "" {
      assert a + t == t;
    } else {
      BlankSkipped(a[1..], t);
      assert (a + t)[1..] == a[1..] + t && IsSpace(a[0]);
    }
  }

  lemma {:induction false} WordIs(w: string, b: string)
    requires (forall i :: 0 <= i < |w| ==> !IsSpace(w[i])) && Blank(b)
    ensures WordLength(w + b) == |w|
  {
    if w == "" {
      assert w + b == b;
    } else {
      WordIs(w[1..], b);
      assert (w + b)[1..] == w[1..] + b;
    }
  }

  lemma EncodedWord(bytes: seq<nat>)
    requires AreDigits(256, bytes)
    ensures AllDigits(Encoded(bytes)) && Convert(58, 256, DigitsOf(Encoded(bytes))) == bytes
    ensures forall i :: 0 <= i < |Encoded(bytes)| ==> !IsSpace(Encoded(bytes)[i])
  {
    hide Convert, CharOf, DigitOf;
    var ds := Convert(256, 58, bytes);
    ConvertBack(256, 58, bytes);
    var s := Chars(ds);
    forall i | 0 <= i < |s| ensures DigitOf(s[i]) == Some(ds[i]) && !IsSpace(s[i]) {
      CharsAreDigits(ds[i]);
    }
    assert DigitsOf(s) == ds;
  }

  /** Blanks around an encoding are ignored. */
  lemma BlanksAreIgnored(a: string, bytes: seq<nat>, b: string)
    requires Blank(a) && Blank(b) && AreDigits(256, bytes)
    ensures Decoded(a + Encoded(bytes) + b) == Some(bytes)
  {
    hide Convert, Encoded, DigitOf, SkipSpaces;
    EncodedWord(bytes);
    var w := Encoded(bytes);
    assert a + w + b == a + (w + b);
    if w == "" {
      assert a + (w + b) == (a + b) + w && Blank(a + b);
      BlankSkipped(a + b, w);
      BlankSkipped("", "");
      assert WordLength(w) == 0 && w[..0] == w && w[0..] == "" + "";
    } else {
      BlankSkipped(a, w + b);
      WordIs(w, b);
      assert (w + b)[..|w|] == w && (w + b)[|w|..] == b == b + "";
      BlankSkipped(b, "");
    }
  }

  lemma WordAndBlanks(s: string)
    requires Decoded(s).Some?
    ensures var t := SkipSpaces(s);
            var n, k := WordLength(t), |s| - |t|;
            && k >= 0 && AllDigits(t[..n]) && Decoded(s).value == Convert(58, 256, DigitsOf(t[..n]))
            && Blank(s[..k]) && Blank(t[n..]) && s == s[..k] + (t[..n] + t[n..])
  {
    hide Convert, DigitOf, SkipSpaces, WordLength, Blank, IsSpace, AllDigits;
    var t := SkipSpaces(s);
    SkipsBlank(s);
    OnlyBlanks(t[WordLength(t)..]);
    Cut(s, t, WordLength(t));
  }

  lemma OnlyBlanks(s: string)
    ensures SkipSpaces(s) == "" ==> Blank(s)
  {
    hide SkipSpaces, IsSpace;
    SkipsBlank(s);
    assert s[..|s|] == s;
  }

  lemma Cut(s: string, t: string, n: nat)
    requires n <= |t| <= |s| && s[|s| - |t|..] == t
    ensures s == s[..|s| - |t|] + (t[..n] + t[n..])
  {
    assert t == t[..n] + t[n..];
  }

  /** And a string is accepted only if it is an encoding with blanks around it. */
  lemma OnlyEncodings(s: string) returns (a: string, b: string)
    requires Decoded(s).Some?
    ensures Blank(a) && Blank(b) && AreDigits(256, Decoded(s).value) && s == a + Encoded(Decoded(s).value) + b
  {
    hide *;
    var t := SkipSpaces(s);
    WordAndBlanks(s);
    a, b := s[..|s| - |t|], t[WordLength(t)..];
    DecodedWord(t[..WordLength(t)]);
    EncodeDecode(s);
    Joined(a, t[..WordLength(t)], b);
  }

  lemma Joined(a: string, w: string, b: string)
    ensures a + (w + b) == a + w + b
  {
  }

  lemma DecodedWord(word: string)
    requires AllDigits(word)
    ensures AreDigits(256, Convert(58, 256, DigitsOf(word)))
  {
    hide Convert, DigitOf, CharOf;
    forall i | 0 <= i < |word| ensures DigitOf(word[i]).value < 58 {
      DigitsAreChars(word[i]);
    }
    ConvertBack(58, 256, DigitsOf(word));
  }

  // ---------------------------------------------------------------------- the loops

  /** buf := buf * m + c in base d, digit by digit from the right; there is room for the result. */
  method MulAdd(buf: array<nat>, d: nat, m: nat, c: nat)
    requires d >= 1 && AreDigits(d, buf[..]) && Value(d, buf[..]) * m + c < Pow(d, buf.Length)
    modifies buf
    ensures AreDigits(d, buf[..]) && Value(d, buf[..]) == old(Value(d, buf[..])) * m + c
  {
    hide Value, Pow;
    ghost var was: seq<nat> := buf[..];
    var carry: nat := c;
    var i := buf.Length;
    NothingAfter(d, was);
    NothingAfter(d, buf[..]);
    while i > 0
      invariant 0 <= i <= buf.Length && AreDigits(d, buf[..]) && buf.Length == |was|
      invariant forall j :: 0 <= j < i ==> buf[j] == was[j]
      invariant Tail(d, buf[..], i) + carry * Pow(d, buf.Length - i) == Tail(d, was, i) * m + c
    {
      i := i - 1;
      ghost var b: seq<nat> := buf[..];
      var t: nat := carry + m * buf[i];
      DigitStep(d, m, was, b, i, carry, c, t);
      Limbs.DivNonNegative(t, d);
      buf[i] := t % d;
      carry := t / d;
      assert buf[..] == b[i := t % d];
    }
    NoCarryLeft(Value(d, buf[..]), carry, Pow(d, buf.Length), Value(d, was) * m + c);
  }

  lemma NothingAfter(d: nat, s: seq<nat>)
    ensures Tail(d, s, |s|) == 0 && Pow(d, 0) == 1 && s[0..] == s
  {
  }

  lemma DigitStep(d: nat, m: nat, was: seq<nat>, b: seq<nat>, i: nat, carry: nat, c: nat, t: nat)
    requires d >= 1 && i < |b| == |was| &&
             Tail(d, b, i + 1) + carry * Pow(d, |b| - i - 1) == Tail(d, was, i + 1) * m + c
    requires t == carry + m * was[i]
    ensures t / d >= 0 && Tail(d, b[i := t % d], i) + (t / d) * Pow(d, |b| - i) == Tail(d, was, i) * m + c
  {
    hide Value, Pow, Tail;
    var p := Pow(d, |b| - i - 1);
    Limbs.DivNonNegative(t, d);
    TailStep(d, was, i);
    TailStep(d, b[i := t % d], i);
    TailSame(d, b, i, t % d);
    PowNext(d, |b| - i - 1);
    CarryAlgebra(d, m, p, carry, was[i], t, Tail(d, b, i + 1), Tail(d, was, i + 1), c);
  }

  lemma TailSame(d: nat, b: seq<nat>, i: nat, x: nat)
    requires i < |b|
    ensures Tail(d, b[i := x], i + 1) == Tail(d, b, i + 1)
  {
    assert b[i := x][i + 1..] == b[i + 1..];
  }

  lemma PowNext(d: nat, n: nat)
    ensures Pow(d, n + 1) == d * Pow(d, n)
  {
  }

  lemma NoCarryLeft(v: nat, carry: nat, p: nat, total: nat)
    requires v + carry * p == total < p
    ensures carry == 0 && v == total
  {
    if carry >= 1 {
      Limbs.MulMono(1, carry, p);
    }
  }

  /** The digits of a number read digit by digit, in a buffer with enough room. */
  method Rebase(s: seq<nat>, d: nat, e: nat, room: nat) returns (r: seq<nat>)
    requires d >= 2 && e >= 2 && AreDigits(d, s) && Pow(e, room) > Pow(d, |s|)
    ensures r == ToDigits(e, Value(d, s))
  {
    hide Value, Pow, ToDigits, Strip;
    var buf := new nat[room](i => 0);
    AllZeros(e, buf[..]);
    NoValue(d);
    assert s[..0] == [];
    for k := 0 to |s|
      invariant AreDigits(e, buf[..]) && Value(e, buf[..]) == Value(d, s[..k])
    {
      assert s[..k + 1] == s[..k] + [s[k]];
      ValueMore(d, s[..k], s[k]);
      ValueBound(d, s[..k + 1]);
      PowGrows(d, k + 1, |s|);
      MulAdd(buf, e, d, s[k]);
    }
    assert s[..|s|] == s;
    r := Strip(buf[..]);
    StripValue(e, buf[..]);
    StripDigits(e, buf[..]);
    ToDigitsIs(e, Value(d, s));
    CanonicalIsUnique(e, r, ToDigits(e, Value(d, s)));
  }

  lemma {:induction false} AllZeros(d: nat, s: seq<nat>)
    requires d >= 1 && forall i :: 0 <= i < |s| ==> s[i] == 0
    ensures AreDigits(d, s) && Value(d, s) == 0
  {
    if s != [] {
      AllZeros(d, s[..|s| - 1]);
    }
  }

  lemma StripDigits(d: nat, s: seq<nat>)
    requires AreDigits(d, s)
    ensures AreDigits(d, Strip(s))
  {
  }

  /** How many leading zeros. */
  method CountZeros(s: seq<nat>) returns (z: nat)
    ensures z == |s| - |Strip(s)| && s[z..] == Strip(s)
  {
    hide Strip;
    z := 0;
    while z < |s| && s[z] == 0
      invariant z <= |s| && forall i :: 0 <= i < z ==> s[i] == 0
    {
      z := z + 1;
    }
    assert Zeros(z) + s[z..] == s;
    StripZeros(z, s[z..]);
  }

  method EncodeBase58(bytes: seq<nat>) returns (str: string)
    requires AreDigits(256, bytes)
    ensures str == Encoded(bytes)
  {
    hide Value, ToDigits, Strip, CharOf, Pow;
    var zeroes := CountZeros(bytes);
    var rest := bytes[zeroes..];
    EncodeRoom(|rest|);
    StripValue(256, bytes);
    var digits := Rebase(rest, 256, 58, |rest| * 138 / 100 + 1);
    ToDigitsIs(58, Value(256, bytes));
    str := Chars(Zeros(zeroes)) + Chars(digits);
    assert str == Chars(Zeros(zeroes) + digits);
  }

  method ReadDigits(word: string) returns (r: Option<seq<nat>>)
    ensures r == if AllDigits(word) then Some(DigitsOf(word)) else None
    ensures r.Some? ==> AreDigits(58, r.value)
  {
    hide DigitOf;
    var digits: seq<nat> := [];
    for i := 0 to |word|
      invariant AllDigits(word[..i]) && digits == DigitsOf(word[..i]) && AreDigits(58, digits)
    {
      var d := DigitOf(word[i]);
      if d.None? {
        return None;
      }
      DigitsAreChars(word[i]);
      digits := digits + [d.value];
      assert word[..i + 1] == word[..i] + [word[i]];
    }
    assert word[..|word|] == word;
    r := Some(digits);
  }

  /** The bytes of base-58 digits; the buffer is sized for at least as many characters. */
  method ToBytes(digits: seq<nat>, length: nat) returns (r: seq<nat>)
    requires AreDigits(58, digits) && |digits| <= length
    ensures r == Convert(58, 256, digits)
  {
    hide Value, ToDigits, Strip, Pow;
    var zeroes := CountZeros(digits);
    var rest := digits[zeroes..];
    DecodeRoom(length - zeroes);
    PowGrows(58, |rest|, length - zeroes);
    StripValue(58, digits);
    var bytes := Rebase(rest, 58, 256, (length - zeroes) * 733 / 1000 + 1);
    r := Zeros(zeroes) + bytes;
  }

  method DecodeBase58(s: string) returns (r: Option<seq<nat>>)
    ensures r == Decoded(s)
  {
    hide AllDigits, DigitsOf, Convert;
    var t := SkipSpaces(s);
    var n := WordLength(t);
    var digits := ReadDigits(t[..n]);
    if digits.None? || SkipSpaces(t[n..]) != "" {
      return None;
    }
    LengthOf(t[..n]);
    var bytes := ToBytes(digits.value, |t|);
    r := Some(bytes);
  }

  lemma LengthOf(word: string)
    ensures AllDigits(word) ==> |DigitsOf(word)| == |word|
  {
  }
}
