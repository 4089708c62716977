/** Hexadecimal text and the bytes it stands for. */
module HexCodec {
  import opened Base

  function DigitValue(c: char): Option<nat> {
    if '0' <= c <= '9' then Some(c as nat - '0' as nat)
    else if 'a' <= c <= 'f' then Some(c as nat - 'a' as nat + 10)
    else if 'A' <= c <= 'F' then Some(c as nat - 'A' as nat + 10)
    else None
  }

  function ValueDigit(v: nat): char
    requires v < 16
  {
    if v <= 9 then '0' + v as char else 'a' + (v - 10) as char
  }

  /** The character is the digit of this value, in either case. */
  predicate IsDigit(c: char, v: nat) {
    v < 16 && (c == "0123456789abcdef"[v] || c == "0123456789ABCDEF"[v])
  }

  lemma DigitsAre(c: char, v: nat)
    ensures DigitValue(c) == Some(v) <==> IsDigit(c, v)
    ensures v < 16 ==> ValueDigit(v) == "0123456789abcdef"[v]
  {
  }

  function ToHex(b: seq<byte>): string {
    if b == [] then [] else [ValueDigit(b[0] / 16), ValueDigit(b[0] % 16)] + ToHex(b[1..])
  }

  /** The bytes of a text of digit pairs; nothing for any other text. */
  function FromHex(s: string): Option<seq<byte>> {
    if s == [] then Some([])
    else if |s| == 1 || DigitValue(s[0]).None? || DigitValue(s[1]).None? then None
    else
      var rest := FromHex(s[2..]);
      if rest.None? then None
      else Some([16 * DigitValue(s[0]).value + DigitValue(s[1]).value] + rest.value)
  }

  function Lower(c: char): char {
    if 'A' <= c <= 'F' then 'a' + (c - 'A') else c
  }

  function LowerCase(s: string): (t: string)
    ensures |t| == |s|
  {
    if s == [] then [] else [Lower(s[0])] + LowerCase(s[1..])
  }

  /** Decoding undoes encoding. */
  lemma {:induction false} DecodeEncoded(b: seq<byte>)
    ensures FromHex(ToHex(b)) == Some(b)
  {
    if b != [] {
      DecodeEncoded(b[1..]);
      assert ToHex(b)[2..] == ToHex(b[1..]);
      assert [b[0]] + b[1..] == b;
    }
  }

  lemma DigitBack(c: char)
    requires DigitValue(c).Some?
    ensures DigitValue(c).value < 16 && ValueDigit(DigitValue(c).value) == Lower(c)
  {
  }

  lemma LowerPair(s: string)
    requires |s| >= 2
    ensures LowerCase(s) == [Lower(s[0]), Lower(s[1])] + LowerCase(s[2..])
  {
    assert s[1..][1..] == s[2..];
  }

  /** Encoding what was decoded gives the text back, in lower case. */
  lemma {:induction false} EncodeDecoded(s: string)
    requires FromHex(s).Some?
    ensures ToHex(FromHex(s).value) == LowerCase(s)
    decreases |s|
  {
    if s != [] {
      EncodeDecoded(s[2..]);
      var b := FromHex(s).value;
      assert b[1..] == FromHex(s[2..]).value;
      LowerPair(s);
      DigitBack(s[0]);
      DigitBack(s[1]);
    }
  }

  predicate AllHex(s: string) {
    forall k :: 0 <= k < |s| ==> DigitValue(s[k]).Some?
  }

  predicate IsHexText(s: string) {
    |s| % 2 == 0 && forall k :: 0 <= k < |s| ==> s[k] in "0123456789abcdefABCDEF"
  }

  lemma HexTextIs(s: string)
    ensures IsHexText(s) <==> |s| % 2 == 0 && AllHex(s)
  {
    assert forall c: char :: DigitValue(c).Some? <==> c in "0123456789abcdefABCDEF";
  }

  /** Exactly the texts of even length made of hexadecimal digits are decoded, to half as many bytes. */
  lemma {:induction false} DecodesExactly(s: string)
    ensures FromHex(s).Some? <==> |s| % 2 == 0 && AllHex(s)
    ensures FromHex(s).Some? ==> |FromHex(s).value| == |s| / 2
    decreases |s|
  {
    if |s| >= 2 {
      DecodesExactly(s[2..]);
      assert forall k :: 2 <= k < |s| ==> s[k] == s[2..][k - 2];
      assert forall k :: 0 <= k < |s| - 2 ==> s[2..][k] == s[k + 2];
    }
  }

  lemma Nibbles(h: nat, l: nat)
    requires h < 16 && l < 16
    ensures (16 * h + l) / 16 == h && (16 * h + l) % 16 == l
  {
  }

  lemma FirstByte(s: string)
    requires FromHex(s).Some? && s != []
    ensures |s| >= 2 && DigitValue(s[0]).Some? && DigitValue(s[1]).Some? && FromHex(s[2..]).Some?
    ensures FromHex(s).value == [16 * DigitValue(s[0]).value + DigitValue(s[1]).value] + FromHex(s[2..]).value
  {
  }

  lemma TwoDigits(a: char, b: char, h: nat, l: nat)
    requires DigitValue(a) == Some(h) && DigitValue(b) == Some(l)
    ensures IsDigit(a, (16 * h + l) / 16) && IsDigit(b, (16 * h + l) % 16)
  {
    DigitsAre(a, h);
    DigitsAre(b, l);
    Nibbles(h, l);
  }

  /** Each byte decoded is made of the digits at its place. */
  lemma {:induction false} DecodedDigits(s: string, k: nat)
    requires FromHex(s).Some? && 2 * k + 1 < |s|
    ensures |FromHex(s).value| == |s| / 2
    ensures IsDigit(s[2 * k], FromHex(s).value[k] / 16) && IsDigit(s[2 * k + 1], FromHex(s).value[k] % 16)
    decreases |s|
  {
    DecodesExactly(s);
    FirstByte(s);
    if k > 0 {
      DecodedDigits(s[2..], k - 1);
      assert FromHex(s).value[k] == FromHex(s[2..]).value[k - 1];
    } else {
      TwoDigits(s[0], s[1], DigitValue(s[0]).value, DigitValue(s[1]).value);
    }
  }

  /** Each byte is encoded as its two digits, in lower case. */
  lemma {:induction false} EncodedDigits(b: seq<byte>, k: nat)
    requires k < |b|
    ensures |ToHex(b)| == 2 * |b|
    ensures ToHex(b)[2 * k] == "0123456789abcdef"[b[k] / 16] && ToHex(b)[2 * k + 1] == "0123456789abcdef"[b[k] % 16]
  {
    ToHexConcat(b, []);
    if k > 0 {
      EncodedDigits(b[1..], k - 1);
    } else {
      DigitsAre('0', b[0] / 16);
      DigitsAre('0', b[0] % 16);
    }
  }

  /** The text is made of two digits for each byte, in either case. */
  predicate StandsFor(text: string, b: seq<byte>) {
    |text| == 2 * |b| && forall k :: 0 <= k < |b| ==> IsPair(text, k, b[k])
  }

  predicate IsPair(text: string, k: nat, x: byte) {
    2 * k + 1 < |text| && IsDigit(text[2 * k], x / 16) && IsDigit(text[2 * k + 1], x % 16)
  }

  lemma DecodedText(s: string)
    requires FromHex(s).Some?
    ensures StandsFor(s, FromHex(s).value)
  {
    DecodesExactly(s);
    forall k | 0 <= k < |FromHex(s).value| ensures IsPair(s, k, FromHex(s).value[k]) {
      DecodedDigits(s, k);
    }
  }

  /** In lower case. */
  predicate IsTextOf(text: string, b: seq<byte>) {
    |text| == 2 * |b| && forall k :: 0 <= k < |b| ==> IsLowerPair(text, k, b[k])
  }

  predicate IsLowerPair(text: string, k: nat, x: byte) {
    && 2 * k + 1 < |text|
    && text[2 * k] == "0123456789abcdef"[x / 16] && text[2 * k + 1] == "0123456789abcdef"[x % 16]
  }

  lemma EncodedText(b: seq<byte>, text: string)
    requires text == ToHex(b)
    ensures IsTextOf(text, b)
  {
    ToHexConcat(b, []);
    forall k | 0 <= k < |b| ensures IsLowerPair(text, k, b[k]) {
      EncodedDigits(b, k);
    }
  }

  /** A C string: reading one past its end finds the NUL. */
  function CharAt(s: string, i: nat): char
    requires i <= |s|
  {
    if i < |s| then s[i] else '\0'
  }

  /** The byte two characters make, and whether both are digits. */
  function PairValue(h: char, l: char): (byte, bool) {
    var hv := if DigitValue(h).Some? then DigitValue(h).value else 0;
    var lv := if DigitValue(l).Some? then DigitValue(l).value else 0;
    (16 * hv + lv, DigitValue(h).Some? && DigitValue(l).Some?)
  }

  lemma {:induction false} DecodeStep(s: string, i: nat)
    requires i < |s| && i % 2 == 0
    ensures var (v, ok) := PairValue(s[i], CharAt(s, i + 1));
      FromHex(s[i..]) == if ok && FromHex(s[i + 2..]).Some? then Some([v] + FromHex(s[i + 2..]).value) else None
  {
    if i + 1 < |s| {
      assert s[i..][2..] == s[i + 2..];
    }
  }

  /** What is still to be decoded decides the rest. */
  ghost predicate DecodedUpTo(s: string, i: nat, done: seq<byte>) {
    && i <= |s|
    && (FromHex(s).Some? <==> FromHex(s[i..]).Some?)
    && (FromHex(s).Some? ==> FromHex(s).value == done + FromHex(s[i..]).value)
  }

  lemma OnePairMore(s: string, i: nat, done: seq<byte>)
    requires DecodedUpTo(s, i, done) && i < |s| && i % 2 == 0
    ensures var (v, ok) := PairValue(s[i], CharAt(s, i + 1));
      if ok then i + 2 <= |s| && DecodedUpTo(s, i + 2, done + [v]) else FromHex(s) == None
  {
    DecodeStep(s, i);
    var (v, ok) := PairValue(s[i], CharAt(s, i + 1));
    if ok && FromHex(s[i + 2..]).Some? {
      var rest := FromHex(s[i + 2..]).value;
      assert done + ([v] + rest) == (done + [v]) + rest;
    }
  }

  /** `hex2bin`: the whole text is decoded into `output`, or it is refused, perhaps with some bytes written;
      at most (length + 1) / 2 bytes are ever written. */
  method HexToBin(s: string, output: array<byte>) returns (ok: bool)
    requires (|s| + 1) / 2 <= output.Length
    modifies output
    ensures ok <==> FromHex(s).Some?
    ensures ok ==> |s| / 2 <= output.Length && output[..|s| / 2] == FromHex(s).value
    ensures ok <==> IsHexText(s)
    ensures ok ==> StandsFor(s, output[..|s| / 2])
    ensures forall k :: (|s| + 1) / 2 <= k < output.Length ==> output[k] == old(output[k])
  {
    HexTextIs(s);
    DecodesExactly(s);
    var i := 0;
    assert s[0..] == s;
    while i < |s|
      invariant i <= |s| && i % 2 == 0 && DecodedUpTo(s, i, output[..i / 2])
      invariant forall k :: (|s| + 1) / 2 <= k < output.Length ==> output[k] == old(output[k])
    {
      OnePairMore(s, i, output[..i / 2]);
      var (v, good) := PairValue(s[i], CharAt(s, i + 1));
      ghost var done := output[..i / 2];
      output[i / 2] := v;
      assert output[..i / 2 + 1] == done + [v];
      if !good {
        return false;
      }
      i := i + 2;
    }
    assert s[i..] == [];
    assert output[..|s| / 2] == FromHex(s).value;
    DecodedText(s);
    return true;
  }

  lemma {:induction false} ToHexConcat(a: seq<byte>, b: seq<byte>)
    ensures ToHex(a + b) == ToHex(a) + ToHex(b)
    ensures |ToHex(a)| == 2 * |a|
  {
    if a == [] {
      assert a + b == b;
    } else {
      assert (a + b)[1..] == a[1..] + b;
      ToHexConcat(a[1..], b);
    }
  }

  lemma ToHexAppend(a: seq<byte>, x: byte)
    ensures ToHex(a + [x]) == ToHex(a) + [ValueDigit(x / 16), ValueDigit(x % 16)]
    ensures |ToHex(a)| == 2 * |a|
  {
    ToHexConcat(a, [x]);
    assert [x][1..] == [];
  }

  /** Texts that stand for the same bytes differ in case only, and different bytes have different texts. */
  lemma SameBytesIff(s: string, b: seq<byte>)
    requires FromHex(s).Some?
    ensures FromHex(s).value == b <==> LowerCase(s) == ToHex(b)
  {
    EncodeDecoded(s);
    DecodeEncoded(FromHex(s).value);
    DecodeEncoded(b);
  }

  /** `bin2hex`, with its NUL. */
  method BinToHex(b: seq<byte>, output: array<char>)
    requires 2 * |b| < output.Length
    modifies output
    ensures output[..2 * |b| + 1] == ToHex(b) + ['\0'] && IsTextOf(output[..2 * |b|], b)
    ensures forall k :: 2 * |b| < k < output.Length ==> output[k] == old(output[k])
  {
    var i := 0;
    while i < |b|
      invariant i <= |b| && output[..2 * i] == ToHex(b[..i])
      invariant forall k :: 2 * |b| <= k < output.Length ==> output[k] == old(output[k])
    {
      ToHexAppend(b[..i], b[i]);
      assert b[..i + 1] == b[..i] + [b[i]];
      ghost var done := output[..2 * i];
      output[i * 2] := ValueDigit(b[i] / 16);
      output[i * 2 + 1] := ValueDigit(b[i] % 16);
      assert output[..2 * (i + 1)] == done + [ValueDigit(b[i] / 16), ValueDigit(b[i] % 16)];
      i := i + 1;
    }
    assert b[..|b|] == b;
    output[|b| * 2] := '\0';
    assert output[..2 * |b| + 1] == output[..2 * |b|] + ['\0'];
    EncodedText(b, output[..2 * |b|]);
  }
}
