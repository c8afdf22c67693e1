/** Bech32 strings: a readable part, a separator, and symbols with a checksum. */
module Bech32 {
  import opened Common
  import opened Bech32Code

  type Data = seq<bv8>

  // --------------------------------------------------------------------- characters

  /** The character of a symbol. */
  function Symbol(v: bv8): char
    requires v < 32
  {
    if v == 0 then 'q' else if v == 1 then 'p' else if v == 2 then 'z' else if v == 3 then 'r'
    else if v == 4 then 'y' else if v == 5 then '9' else if v == 6 then 'x' else if v == 7 then '8'
    else if v == 8 then 'g' else if v == 9 then 'f' else if v == 10 then '2' else if v == 11 then 't'
    else if v == 12 then 'v' else if v == 13 then 'd' else if v == 14 then 'w' else if v == 15 then '0'
    else if v == 16 then 's' else if v == 17 then '3' else if v == 18 then 'j' else if v == 19 then 'n'
    else if v == 20 then '5' else if v == 21 then '4' else if v == 22 then 'k' else if v == 23 then 'h'
    else if v == 24 then 'c' else if v == 25 then 'e' else if v == 26 then '6' else if v == 27 then 'm'
    else if v == 28 then 'u' else if v == 29 then 'a' else if v == 30 then '7'
    else 'l'
  }

  function LowerCase(c: char): char {
    if 'A' <= c <= 'Z' then ((c as int) + 32) as char else c
  }

  /** The first sixteen symbols by their characters. */
  function FirstSymbols(c: char): Option<bv8> {
    if c == 'q' then Some(0) else if c == 'p' then Some(1) else if c == 'z' then Some(2) else if c == 'r' then Some(3)
    else if c == 'y' then Some(4) else if c == '9' then Some(5) else if c == 'x' then Some(6)
      else if c == '8' then Some(7)
    else if c == 'g' then Some(8) else if c == 'f' then Some(9) else if c == '2' then Some(10)
      else if c == 't' then Some(11)
    else if c == 'v' then Some(12) else if c == 'd' then Some(13) else if c == 'w' then Some(14)
      else if c == '0' then Some(15)
    else None
  }

  /** The last sixteen symbols by their characters. */
  function LastSymbols(c: char): Option<bv8> {
    if c == 's' then Some(16) else if c == '3' then Some(17) else if c == 'j' then Some(18)
      else if c == 'n' then Some(19)
    else if c == '5' then Some(20) else if c == '4' then Some(21) else if c == 'k' then Some(22)
      else if c == 'h' then Some(23)
    else if c == 'c' then Some(24) else if c == 'e' then Some(25) else if c == '6' then Some(26)
      else if c == 'm' then Some(27)
    else if c == 'u' then Some(28) else if c == 'a' then Some(29) else if c == '7' then Some(30)
      else if c == 'l' then Some(31)
    else None
  }

  /** The symbol of a lower-case character. */
  function LowerSymbol(c: char): Option<bv8> {
    if FirstSymbols(c).Some? then FirstSymbols(c) else LastSymbols(c)
  }

  /** The symbol of a character in either case. */
  function Rev(c: char): Option<bv8> {
    LowerSymbol(LowerCase(c))
  }

  predicate Printable(c: char) {
    33 <= c as int <= 126
  }

  lemma SymbolIsLower(v: bv8)
    requires v < 32
    ensures Printable(Symbol(v)) && !('A' <= Symbol(v) <= 'Z') && Symbol(v) != '1' && LowerSymbol(Symbol(v)) == Some(v)
  {
  }

  lemma FirstRev(c: char)
    ensures FirstSymbols(c).Some? ==> FirstSymbols(c).value < 32 && Symbol(FirstSymbols(c).value) == c
  {
  }

  lemma LastRev(c: char)
    ensures LastSymbols(c).Some? ==> LastSymbols(c).value < 32 && Symbol(LastSymbols(c).value) == c
  {
  }

  lemma RevSymbol(c: char)
    ensures Rev(c).Some? ==> Rev(c).value < 32 && Symbol(Rev(c).value) == LowerCase(c)
  {
    hide FirstSymbols, LastSymbols, LowerCase, Symbol;
    FirstRev(LowerCase(c));
    LastRev(LowerCase(c));
  }

  // ------------------------------------------------------------------------ strings

  /** The code of a character as an unsigned byte. */
  function CodeOf(c: char): bv8 {
    (c as int % 256) as bv8
  }

  function HighBits(c: char): bv8 {
    CodeOf(c) >> 5
  }

  function LowBits(c: char): bv8 {
    CodeOf(c) & 0x1f
  }

  /** The readable part as checksum input: high bits, a zero, low bits. */
  function ExpandHrp(hrp: string): (r: Data)
    ensures |r| == 2 * |hrp| + 1
  {
    seq(|hrp|, i requires 0 <= i < |hrp| => HighBits(hrp[i])) + [0] +
      seq(|hrp|, i requires 0 <= i < |hrp| => LowBits(hrp[i]))
  }

  predicate Verifies(hrp: string, values: Data) {
    Fold(1, ExpandHrp(hrp) + values) == 1
  }

  function Body(values: Data): (r: string)
    requires Symbols(values)
    ensures |r| == |values| && forall i :: 0 <= i < |r| ==> r[i] == Symbol(values[i])
  {
    seq(|values|, i requires 0 <= i < |values| => Symbol(values[i]))
  }

  function Lower(s: string): (r: string)
    ensures |r| == |s| && forall i :: 0 <= i < |r| ==> r[i] == LowerCase(s[i])
  {
    seq(|s|, i requires 0 <= i < |s| => LowerCase(s[i]))
  }

  /** The last separator. */
  function LastOne(s: string): (r: Option<nat>)
    ensures r.Some? ==> r.value < |s| && s[r.value] == '1' && forall i :: r.value < i < |s| ==> s[i] != '1'
    ensures r.None? ==> '1' !in s
  {
    if s == [] then None
    else if s[|s| - 1] == '1' then Some(|s| - 1)
    else LastOne(s[..|s| - 1])
  }

  predicate AllPrintable(s: string) {
    forall i :: 0 <= i < |s| ==> Printable(s[i])
  }

  predicate HasLower(s: string) {
    exists i :: 0 <= i < |s| && 'a' <= s[i] <= 'z'
  }

  predicate HasUpper(s: string) {
    exists i :: 0 <= i < |s| && 'A' <= s[i] <= 'Z'
  }

  predicate AllSymbols(s: string) {
    forall i :: 0 <= i < |s| ==> Rev(s[i]).Some?
  }

  function ValuesOf(s: string): (r: Data)
    requires AllSymbols(s)
    ensures |r| == |s| && forall i :: 0 <= i < |r| ==> r[i] == Rev(s[i]).value
  {
    seq(|s|, i requires 0 <= i < |s| => Rev(s[i]).value)
  }

  // ------------------------------------------------------------- encoding, decoding

  /** The string for some values, empty when one of them is not a symbol. */
  function Encoded(hrp: string, values: Data): string {
    ChecksumVerifies(ExpandHrp(hrp) + values);
    if Symbols(values) then hrp + "1" + Body(values + Checksum(ExpandHrp(hrp) + values)) else ""
  }

  /** Where the data of a well-formed string starts. */
  function SeparatorOf(s: string): Option<nat> {
    if AllPrintable(s) && !(HasLower(s) && HasUpper(s)) && |s| <= 1023 && LastOne(s).Some?
       && LastOne(s).value != 0 && LastOne(s).value + 7 <= |s| then LastOne(s)
    else None
  }

  function Decoded(s: string): (r: Option<(string, Data)>)
  {
    match SeparatorOf(s)
    case None => None
    case Some(pos) =>
      if !AllSymbols(s[pos + 1..]) then None
      else
        var hrp, values := Lower(s[..pos]), ValuesOf(s[pos + 1..]);
        if Verifies(hrp, values) then Some((hrp, values[..|values| - 6])) else None
  }

  // -------------------------------------------------------------------- round trips

  lemma {:induction false} LastOneIs(a: string, b: string)
    requires '1' !in b
    ensures LastOne(a + "1" + b) == Some(|a|)
    decreases |b|
  {
    var s := a + "1" + b;
    if b == "" {
    } else {
      var n := |b| - 1;
      LastOneIs(a, b[..n]);
      assert s[..|s| - 1] == a + "1" + b[..n];
    }
  }

  predicate GoodHrp(hrp: string) {
    hrp != "" && AllPrintable(hrp) && !HasUpper(hrp)
  }

  /** The encoding of symbols is a well-formed string with the separator after the readable part. */
  lemma EncodedShape(hrp: string, all: Data)
    requires GoodHrp(hrp) && Symbols(all) && |all| >= 6 && |hrp| + 1 + |all| <= 1023
    ensures var s := hrp + "1" + Body(all);
            && SeparatorOf(s) == Some(|hrp|) && Lower(s[..|hrp|]) == hrp
            && AllSymbols(s[|hrp| + 1..]) && ValuesOf(s[|hrp| + 1..]) == all
  {
    hide Symbol, LowerSymbol, LastOne;
    var b := Body(all);
    var s := hrp + "1" + b;
    forall i | 0 <= i < |b| ensures Printable(b[i]) && !('A' <= b[i] <= 'Z') && b[i] != '1' &&
      Rev(b[i]) == Some(all[i]) {
      SymbolIsLower(all[i]);
    }
    LastOneIs(hrp, b);
    assert s[..|hrp|] == hrp && s[|hrp| + 1..] == b;
    assert Lower(hrp) == hrp;
    assert ValuesOf(b) == all;
  }

  /** Decoding an encoding gives back both parts. */
  lemma DecodeEncode(hrp: string, values: Data)
    requires GoodHrp(hrp) && Symbols(values) && |hrp| + |values| + 7 <= 1023
    ensures Decoded(Encoded(hrp, values)) == Some((hrp, values))
  {
    hide Body, SeparatorOf, ValuesOf, Checksum, Fold;
    var sum := Checksum(ExpandHrp(hrp) + values);
    var all := values + sum;
    ChecksumVerifies(ExpandHrp(hrp) + values);
    assert ExpandHrp(hrp) + all == (ExpandHrp(hrp) + values) + sum;
    EncodedShape(hrp, all);
    assert all[..|all| - 6] == values;
  }

  /** Every accepted string is, in lower case, the encoding of what it decodes to. */
  lemma EncodeDecode(s: string)
    requires Decoded(s).Some?
    ensures var (hrp, values) := Decoded(s).value; Symbols(values) && Encoded(hrp, values) == Lower(s)
  {
    hide Symbol, LowerSymbol, Fold, Checksum, LowerCase;
    var pos := SeparatorOf(s).value;
    var rest := s[pos + 1..];
    var hrp, all := Lower(s[..pos]), ValuesOf(rest);
    forall i | 0 <= i < |rest| ensures all[i] < 32 && Symbol(all[i]) == LowerCase(rest[i]) {
      RevSymbol(rest[i]);
    }
    var n := |all| - 6;
    assert ExpandHrp(hrp) + all == (ExpandHrp(hrp) + all[..n]) + all[n..];
    ChecksumIsUnique(ExpandHrp(hrp) + all[..n], all[n..]);
    assert all[..n] + all[n..] == all;
    assert s == s[..pos] + "1" + rest;
    OneIsLower();
    assert Lower(s) == hrp + "1" + Body(all);
  }

  lemma OneIsLower()
    ensures LowerCase('1') == '1'
  {
  }

  lemma CaseOf(c: char)
    ensures LowerCase(LowerCase(c)) == LowerCase(c) && (LowerCase(c) == '1' <==> c == '1')
    ensures Printable(LowerCase(c)) <==> Printable(c)
    ensures !('A' <= LowerCase(c) <= 'Z')
  {
  }

  /** A string of one case is read like the same string in lower case. */
  lemma CaseIsIgnored(s: string)
    requires !(HasLower(s) && HasUpper(s))
    ensures Decoded(Lower(s)) == Decoded(s)
  {
    hide Printable, LowerSymbol, LowerCase, LastOne, Verifies;
    var t := Lower(s);
    forall i | 0 <= i < |s|
      ensures LowerCase(t[i]) == t[i] && (t[i] == '1' <==> s[i] == '1') && !('A' <= t[i] <= 'Z')
      ensures (Printable(t[i]) <==> Printable(s[i])) && Rev(t[i]) == Rev(s[i])
    {
      CaseOf(s[i]);
    }
    SameSeparator(s, t);
    assert AllPrintable(t) <==> AllPrintable(s);
    if SeparatorOf(s).Some? {
      SameParts(s, t, SeparatorOf(s).value);
    }
  }

  lemma SameSeparator(s: string, t: string)
    requires |s| == |t| && forall i :: 0 <= i < |s| ==> (t[i] == '1' <==> s[i] == '1')
    ensures LastOne(t) == LastOne(s)
  {
    hide LastOne;
    if LastOne(s).Some? && LastOne(t).Some? {
      assert t[LastOne(s).value] == '1' && s[LastOne(t).value] == '1';
    }
  }

  lemma SameParts(s: string, t: string, pos: nat)
    requires pos < |s| == |t| && forall i :: 0 <= i < |s| ==> LowerCase(t[i]) == LowerCase(s[i])
    ensures Lower(t[..pos]) == Lower(s[..pos]) && (AllSymbols(t[pos + 1..]) <==> AllSymbols(s[pos + 1..]))
    ensures AllSymbols(s[pos + 1..]) ==> ValuesOf(t[pos + 1..]) == ValuesOf(s[pos + 1..])
  {
    hide LowerSymbol, LowerCase;
    var a, b := s[pos + 1..], t[pos + 1..];
    assert forall i :: 0 <= i < |a| ==> a[i] == s[pos + 1 + i] && b[i] == t[pos + 1 + i];
    assert forall i :: 0 <= i < |a| ==> Rev(b[i]) == Rev(a[i]);
  }

  /** A string of at most 1023 characters in one case that encodes a readable part and values. */
  ghost predicate Encodes(s: string, hrp: string, values: Data) {
    && hrp != "" && (forall i :: 0 <= i < |hrp| ==> '!' <= hrp[i] <= '~' && !('A' <= hrp[i] <= 'Z'))
    && (forall i :: 0 <= i < |values| ==> values[i] < 32)
    && |s| <= 1023 && Lower(s) == Encoded(hrp, values)
    && ((forall i :: 0 <= i < |s| ==> !('a' <= s[i] <= 'z')) || forall i :: 0 <= i < |s| ==> !('A' <= s[i] <= 'Z'))
  }

  lemma ReadablePart(s: string, pos: nat)
    requires pos <= |s| && AllPrintable(s)
    ensures forall i :: 0 <= i < pos ==> '!' <= Lower(s[..pos])[i] <= '~' && !('A' <= Lower(s[..pos])[i] <= 'Z')
  {
    var t := s[..pos];
    forall i | 0 <= i < pos
      ensures Printable(Lower(t)[i]) && !('A' <= Lower(t)[i] <= 'Z')
    {
      assert t[i] == s[i];
      CaseOf(t[i]);
    }
  }

  /** Decoding finds exactly what a string encodes, so that nothing else is accepted. */
  lemma AcceptedStrings(s: string, hrp: string, values: Data)
    ensures Decoded(s) == Some((hrp, values)) <==> Encodes(s, hrp, values)
  {
    hide LowerCase, Symbol, LowerSymbol, LastOne, Verifies, Checksum, Fold, Lower, Body, Printable, ExpandHrp, ValuesOf;
    if Decoded(s) == Some((hrp, values)) {
      EncodeDecode(s);
      ReadablePart(s, SeparatorOf(s).value);
    }
    if Encodes(s, hrp, values) {
      GoodReadable(hrp);
      ChecksumVerifies(ExpandHrp(hrp) + values);
      DecodeEncode(hrp, values);
      CaseIsIgnored(s);
    }
  }

  lemma GoodReadable(hrp: string)
    requires hrp != "" && forall i :: 0 <= i < |hrp| ==> '!' <= hrp[i] <= '~' && !('A' <= hrp[i] <= 'Z')
    ensures GoodHrp(hrp)
  {
  }

  /** Changing one symbol of an accepted string makes the checksum fail. */
  lemma OneErrorIsDetected(hrp: string, values: Data, i: nat, x: bv8)
    requires Verifies(hrp, values) && i < |values| && x != values[i]
    ensures !Verifies(hrp, values[i := x])
  {
    hide Fold;
    var e := ExpandHrp(hrp);
    OneChangeShows(1, e + values, |e| + i, x);
    assert (e + values)[|e| + i := x] == e + values[i := x];
  }

  /** So does changing any of six neighbouring symbols. */
  lemma BurstIsDetected(hrp: string, values: Data, i: nat, w: Data)
    requires Verifies(hrp, values) && i + 6 <= |values| && |w| == 6 && Symbols(w) && Symbols(values[i..i + 6]) &&
             w != values[i..i + 6]
    ensures !Verifies(hrp, values[..i] + w + values[i + 6..])
  {
    hide Fold;
    var e, v, b := ExpandHrp(hrp), values[i..i + 6], values[i + 6..];
    BurstShows(e + values[..i], v, w, b);
    assert e + values[..i] + v + b == e + values;
    assert e + values[..i] + w + b == e + (values[..i] + w + b);
  }

  // ---------------------------------------------------------------------- the loops

  method PolyMod(v: Data) returns (c: bv32)
    ensures c == Fold(1, v)
  {
    hide Step, Wide;
    c := 1;
    for i := 0 to |v|
      invariant c == Fold(1, v[..i])
    {
      assert v[..i + 1][..i] == v[..i];
      c := Step(c, Wide(v[i]));
    }
    assert v[..|v|] == v;
  }

  method ExpandHRP(hrp: string) returns (ret: Data)
    ensures ret == ExpandHrp(hrp)
  {
    hide HighBits, LowBits;
    ret := seq(2 * |hrp| + 1, i => 0);
    for i := 0 to |hrp|
      invariant |ret| == 2 * |hrp| + 1 && ret[|hrp|] == 0
      invariant forall j :: 0 <= j < i ==> ret[j] == HighBits(hrp[j]) && ret[j + |hrp| + 1] == LowBits(hrp[j])
    {
      ret := ret[i := HighBits(hrp[i])];
      ret := ret[i + |hrp| + 1 := LowBits(hrp[i])];
    }
  }

  method VerifyChecksum(hrp: string, values: Data) returns (ok: bool)
    ensures ok == Verifies(hrp, values)
  {
    var input := ExpandHRP(hrp);
    var c := PolyMod(input + values);
    ok := c == 1;
  }

  method CreateChecksum(hrp: string, values: Data) returns (ret: Data)
    ensures ret == Checksum(ExpandHrp(hrp) + values)
  {
    hide Fold, Group, Xor;
    var input := ExpandHRP(hrp);
    var enc := input + values + Zeros(6);
    var remainder := PolyMod(enc);
    var mod := Xor(remainder, 1);
    ret := Zeros(6);
    for i := 0 to 6
      invariant |ret| == 6 && forall j :: 0 <= j < i ==> ret[j] == Group(mod, j)
    {
      ret := ret[i := Group(mod, i)];
    }
  }

  method Encode(hrp: string, values: Data) returns (ret: string)
    ensures ret == Encoded(hrp, values)
  {
    hide Symbol, Checksum;
    var checksum := CreateChecksum(hrp, values);
    ChecksumVerifies(ExpandHrp(hrp) + values);
    var combined := values + checksum;
    ret := hrp + "1";
    for i := 0 to |combined|
      invariant Symbols(combined[..i]) && ret == hrp + "1" + Body(combined[..i])
    {
      if combined[i] >= 32 {
        BadSymbol(values, checksum, i);
        return "";
      }
      assert combined[..i + 1] == combined[..i] + [combined[i]];
      assert Body(combined[..i + 1]) == Body(combined[..i]) + [Symbol(combined[i])];
      ret := ret + [Symbol(combined[i])];
    }
    assert combined[..|combined|] == combined;
    SymbolsOf(values, checksum);
  }

  lemma BadSymbol(values: Data, checksum: Data, i: nat)
    requires Symbols(checksum) && i < |values + checksum| && (values + checksum)[i] >= 32
    ensures !Symbols(values)
  {
    forall j | 0 <= j < |checksum| ensures (values + checksum)[|values| + j] == checksum[j] {
    }
  }

  lemma SymbolsOf(values: Data, checksum: Data)
    ensures Symbols(values + checksum) ==> Symbols(values)
  {
    assert forall i :: 0 <= i < |values| ==> (values + checksum)[i] == values[i];
  }

  /** Whether every character is printable and the cases are not mixed. */
  method CheckCharacters(str: string) returns (ok: bool)
    ensures ok == (AllPrintable(str) && !(HasLower(str) && HasUpper(str)))
  {
    var lower, upper := false, false;
    for i := 0 to |str|
      invariant forall j :: 0 <= j < i ==> Printable(str[j])
      invariant lower <==> exists j :: 0 <= j < i && 'a' <= str[j] <= 'z'
      invariant upper <==> exists j :: 0 <= j < i && 'A' <= str[j] <= 'Z'
    {
      if !Printable(str[i]) {
        return false;
      }
      if 'a' <= str[i] <= 'z' {
        lower := true;
      }
      if 'A' <= str[i] <= 'Z' {
        upper := true;
      }
    }
    ok := !(lower && upper);
  }

  method ReadValues(str: string) returns (values: Option<Data>)
    ensures values == if AllSymbols(str) then Some(ValuesOf(str)) else None
  {
    hide Rev;
    var read: Data := [];
    for i := 0 to |str|
      invariant AllSymbols(str[..i]) && read == ValuesOf(str[..i])
    {
      var rev := Rev(str[i]);
      if rev.None? {
        return None;
      }
      read := read + [rev.value];
      assert str[..i + 1] == str[..i] + [str[i]];
    }
    assert str[..|str|] == str;
    values := Some(read);
  }

  method Decode(str: string) returns (r: Option<(string, Data)>)
    ensures r == Decoded(str)
  {
    hide AllSymbols, ValuesOf, Lower, Verifies, AllPrintable, HasLower, HasUpper;
    var ok := CheckCharacters(str);
    var pos := LastOne(str);
    if !ok || |str| > 1023 || pos.None? || pos.value == 0 || pos.value + 7 > |str| {
      return None;
    }
    var values := ReadValues(str[pos.value + 1..]);
    if values.None? {
      return None;
    }
    var hrp := Lower(str[..pos.value]);
    var valid := VerifyChecksum(hrp, values.value);
    if !valid {
      return None;
    }
    r := Some((hrp, values.value[..|values.value| - 6]));
  }
}
