/** The IMSI value and its BCD wire form (utils/include/pgw_utils/imsi.h).
    A byte is an integer below 256, so `b & 0x0F` is `b % 16`, `b >> 4` is `b / 16`
    and `(hi << 4) | lo` is `16 * hi + lo`; BitwiseNibbles ties the two readings. */
module Imsi {

  const MAX_DIGITS: nat := 15
  const FILLER: nat := 0xF

  type byte = x: int | 0 <= x < 256

  function Low(b: byte): nat { b % 16 }
  function High(b: byte): nat { b / 16 }

  predicate IsDigit(c: char) { '0' <= c <= '9' }

  predicate AllDigits(s: string) { forall i :: 0 <= i < |s| ==> IsDigit(s[i]) }

  /** What the IMSI constructor accepts. */
  predicate ValidImsi(s: string) { 1 <= |s| <= MAX_DIGITS && AllDigits(s) }

  function DigitValue(c: char): (d: nat)
    requires IsDigit(c)
    ensures d <= 9
  {
    c as int - '0' as int
  }

  /** `'0' + n` for a nibble n; not a digit when n is above 9. */
  function NibbleChar(n: nat): (c: char)
    requires n < 16
    ensures IsDigit(c) <==> n <= 9
    ensures n <= 9 ==> DigitValue(c) == n
  {
    (48 + n) as char
  }

  lemma NibbleCharOfDigit(c: char)
    requires IsDigit(c)
    ensures NibbleChar(DigitValue(c)) == c
  {
  }

  lemma BitwiseNibbles(b: bv8)
    ensures (b & 0x0F) as int == Low(b as int)
    ensures (b >> 4) as int == High(b as int)
  {
  }

  // ---------------------------------------------------------------- encoding

  /** Section 8.3 of 3GPP TS 29.274: digit 2k in the low nibble of octet k, digit 2k+1
      in its high nibble, the filler 1111 there when the count of digits is odd. */
  function Octet(s: string, k: nat): byte
    requires AllDigits(s) && 2 * k < |s|
  {
    var high := if 2 * k + 1 < |s| then DigitValue(s[2 * k + 1]) else FILLER;
    16 * high + DigitValue(s[2 * k])
  }

  function ToBcd(s: string): (b: seq<byte>)
    requires AllDigits(s)
    ensures |b| == (|s| + 1) / 2
  {
    seq((|s| + 1) / 2, k requires 0 <= k < (|s| + 1) / 2 => Octet(s, k))
  }

  /** IMSI::to_bcd: two digits a turn, then a tail case for an odd count. */
  method EncodeBcd(digits: string) returns (bcd: array<byte>)
    requires ValidImsi(digits)
    ensures bcd[..] == ToBcd(digits)
  {
    bcd := new byte[(|digits| + 1) / 2];
    var i := 0;
    while i + 1 < |digits|
      invariant 0 <= i <= |digits| && i % 2 == 0
      invariant forall k :: 0 <= k < i / 2 ==> bcd[k] == Octet(digits, k)
    {
      var first := DigitValue(digits[i]);
      var second := DigitValue(digits[i + 1]);
      bcd[i / 2] := 16 * second + first;
      i := i + 2;
    }
    if i < |digits| {
      var second := DigitValue(digits[i]);
      bcd[i / 2] := 16 * FILLER + second;
    }
  }

  // ---------------------------------------------------------------- decoding

  /** The characters one octet contributes: a high nibble 0xF is skipped wherever it stands. */
  function OctetChars(b: byte): string
  {
    [NibbleChar(Low(b))] + if High(b) == FILLER then [] else [NibbleChar(High(b))]
  }

  function BcdChars(b: seq<byte>): string
  {
    if b == [] then [] else BcdChars(b[..|b| - 1]) + OctetChars(b[|b| - 1])
  }

  /** Outcome of from_bcd: it is noexcept, so a string its constructor refuses
      terminates the process instead of raising an error. */
  datatype Decoded = Imsi(digits: string) | Terminated

  function FromBcd(b: seq<byte>): Decoded
  {
    if ValidImsi(BcdChars(b)) then Imsi(BcdChars(b)) else Terminated
  }

  method DecodeBcd(data: array<byte>, len: nat) returns (r: Decoded)
    requires len <= data.Length
    ensures r == FromBcd(data[..len])
  {
    var result := "";
    var i := 0;
    while i < len
      invariant i <= len
      invariant result == BcdChars(data[..i])
    {
      var second := data[i] % 16;
      var first := data[i] / 16 % 16;
      ghost var before := data[..i];
      result := result + [NibbleChar(second)];
      if first != FILLER {
        result := result + [NibbleChar(first)];
      }
      i := i + 1;
      assert data[..i] == before + [data[i - 1]];
    }
    r := if ValidImsi(result) then Imsi(result) else Terminated;
  }

  // ---------------------------------------------------------------- acceptance

  function Fillers(b: seq<byte>): nat
  {
    if b == [] then 0
    else Fillers(b[..|b| - 1]) + if High(b[|b| - 1]) == FILLER then 1 else 0
  }

  predicate OctetOk(b: byte) { Low(b) <= 9 && (High(b) <= 9 || High(b) == FILLER) }

  predicate NibblesOk(b: seq<byte>) { forall i :: 0 <= i < |b| ==> OctetOk(b[i]) }

  /** The byte strings, of any length, that from_bcd turns into an IMSI. */
  predicate Acceptable(b: seq<byte>)
  {
    NibblesOk(b) && 1 <= 2 * |b| - Fillers(b) <= MAX_DIGITS
  }

  lemma {:induction false} BcdCharsShape(b: seq<byte>)
    ensures |BcdChars(b)| == 2 * |b| - Fillers(b)
    ensures AllDigits(BcdChars(b)) <==> NibblesOk(b)
  {
    if b != [] {
      var rest, last := b[..|b| - 1], b[|b| - 1];
      BcdCharsShape(rest);
      assert b == rest + [last];
      var s, t := BcdChars(rest), OctetChars(last);
      assert AllDigits(s + t) <==> AllDigits(s) && AllDigits(t) by { AllDigitsConcat(s, t); }
      OctetCharsShape(last);
      assert NibblesOk(b) <==> NibblesOk(rest) && OctetOk(last) by {
        if NibblesOk(b) { assert forall i :: 0 <= i < |rest| ==> rest[i] == b[i]; assert b[|b| - 1] == last; }
      }
    }
  }

  lemma OctetCharsShape(b: byte)
    ensures AllDigits(OctetChars(b)) <==> OctetOk(b)
  {
    var t := OctetChars(b);
    assert t[0] == NibbleChar(Low(b));
    if High(b) != FILLER { assert t[1] == NibbleChar(High(b)); }
  }

  lemma AllDigitsConcat(s: string, t: string)
    ensures AllDigits(s + t) <==> AllDigits(s) && AllDigits(t)
  {
    if AllDigits(s + t) {
      assert forall i :: 0 <= i < |s| ==> s[i] == (s + t)[i];
      assert forall i :: 0 <= i < |t| ==> t[i] == (s + t)[|s| + i];
    }
  }

  /** Exact acceptance set of the decoder. */
  lemma DecoderAcceptsExactly(b: seq<byte>)
    ensures FromBcd(b).Imsi? <==> Acceptable(b)
  {
    BcdCharsShape(b);
  }

  // ---------------------------------------------------------------- round trips

  lemma BcdCharsSnoc(b: seq<byte>, x: byte)
    ensures BcdChars(b + [x]) == BcdChars(b) + OctetChars(x)
  {
    assert (b + [x])[..|b + [x]| - 1] == b;
  }

  /** Decoding what was encoded gives the digits back, whatever their number. */
  lemma {:induction false} DecodeAfterEncode(s: string)
    requires AllDigits(s)
    ensures BcdChars(ToBcd(s)) == s
    decreases |s|
  {
    if s != [] {
      var k := (|s| - 1) / 2;
      var front := s[..2 * k];
      DecodeAfterEncode(front);
      EncodeSplitsOffLastOctet(s);
      BcdCharsSnoc(ToBcd(front), Octet(s, k));
      DecodeLastOctet(s);
      assert s == front + s[2 * k..];
    }
  }

  lemma EncodeSplitsOffLastOctet(s: string)
    requires AllDigits(s) && s != []
    ensures ToBcd(s) == ToBcd(s[..(|s| - 1) / 2 * 2]) + [Octet(s, (|s| - 1) / 2)]
  {
    var k := (|s| - 1) / 2;
    var front := s[..2 * k];
    assert |ToBcd(s)| == k + 1 && |ToBcd(front)| == k;
    forall i | 0 <= i < k ensures ToBcd(s)[i] == ToBcd(front)[i] {
      assert 2 * i + 1 < |front|;
      assert front[2 * i] == s[2 * i] && front[2 * i + 1] == s[2 * i + 1];
      assert ToBcd(front)[i] == Octet(front, i) == Octet(s, i);
    }
  }

  lemma DecodeLastOctet(s: string)
    requires AllDigits(s) && s != []
    ensures OctetChars(Octet(s, (|s| - 1) / 2)) == s[(|s| - 1) / 2 * 2..]
  {
    var k := (|s| - 1) / 2;
    NibbleCharOfDigit(s[2 * k]);
    if 2 * k + 1 < |s| { NibbleCharOfDigit(s[2 * k + 1]); }
  }

  /** The canonical encodings: a filler only in the last octet, forced when there are eight. */
  predicate Canonical(b: seq<byte>)
  {
    && 1 <= |b| <= 8
    && (forall i :: 0 <= i < |b| ==> Low(b[i]) <= 9)
    && (forall i :: 0 <= i < |b| ==> High(b[i]) <= 9 || (i == |b| - 1 && High(b[i]) == FILLER))
    && (|b| == 8 ==> High(b[7]) == FILLER)
  }

  lemma EncodingIsCanonical(s: string)
    requires ValidImsi(s)
    ensures Canonical(ToBcd(s))
  {
    forall i | 0 <= i < |ToBcd(s)|
      ensures Low(ToBcd(s)[i]) <= 9
      ensures High(ToBcd(s)[i]) <= 9 || (i == |ToBcd(s)| - 1 && High(ToBcd(s)[i]) == FILLER)
    {
      assert ToBcd(s)[i] == Octet(s, i);
    }
    if |ToBcd(s)| == 8 { assert ToBcd(s)[7] == Octet(s, 7); }
  }

  lemma {:induction false} FillersOfCanonical(b: seq<byte>)
    requires forall i :: 0 <= i < |b| ==> High(b[i]) <= 9
    ensures Fillers(b) == 0
  {
    if b != [] { FillersOfCanonical(b[..|b| - 1]); }
  }

  /** Without fillers, octet k gives characters 2k and 2k+1. */
  lemma {:induction false} PositionsOfChars(b: seq<byte>)
    requires forall i :: 0 <= i < |b| ==> Low(b[i]) <= 9 && High(b[i]) <= 9
    ensures |BcdChars(b)| == 2 * |b|
    ensures forall i :: 0 <= i < |b| ==>
              BcdChars(b)[2 * i] == NibbleChar(Low(b[i])) && BcdChars(b)[2 * i + 1] == NibbleChar(High(b[i]))
  {
    if b != [] {
      PositionsOfChars(b[..|b| - 1]);
    }
  }

  lemma EncodeAfterDecode(b: seq<byte>)
    requires Canonical(b)
    ensures FromBcd(b).Imsi? && ToBcd(FromBcd(b).digits) == b
  {
    var rest, last := b[..|b| - 1], b[|b| - 1];
    FillersOfCanonical(rest);
    assert Acceptable(b);
    DecoderAcceptsExactly(b);
    PositionsOfChars(rest);
    var s := BcdChars(b);
    assert s == BcdChars(rest) + OctetChars(last);
    forall k | 0 <= k < |b|
      ensures ToBcd(s)[k] == b[k]
    {
      assert ToBcd(s)[k] == Octet(s, k);
      if k < |rest| {
        assert s[2 * k] == BcdChars(rest)[2 * k] && s[2 * k + 1] == BcdChars(rest)[2 * k + 1];
      } else {
        assert s[2 * k] == OctetChars(last)[0];
      }
    }
  }

  /** to_bcd and from_bcd are inverse bijections between valid IMSIs and canonical encodings. */
  lemma CodecBijection(s: string, b: seq<byte>)
    ensures ValidImsi(s) ==> Canonical(ToBcd(s)) && FromBcd(ToBcd(s)) == Imsi(s)
    ensures Canonical(b) ==> FromBcd(b).Imsi? && ToBcd(FromBcd(b).digits) == b
  {
    if ValidImsi(s) {
      EncodingIsCanonical(s);
      DecodeAfterEncode(s);
    }
    if Canonical(b) {
      EncodeAfterDecode(b);
    }
  }

  /** Re-encoding reproduces an accepted input exactly when that input is canonical;
      in every case it gives the canonical spelling of the same IMSI. */
  lemma ReencodeExactlyCanonical(b: seq<byte>)
    requires Acceptable(b)
    ensures FromBcd(b).Imsi?
    ensures ToBcd(FromBcd(b).digits) == b <==> Canonical(b)
    ensures Canonical(ToBcd(FromBcd(b).digits))
    ensures FromBcd(ToBcd(FromBcd(b).digits)) == FromBcd(b)
  {
    DecoderAcceptsExactly(b);
    CodecBijection(FromBcd(b).digits, b);
  }

  /** Digit k of the IMSI is nibble k of the encoding, counting the low nibble of each octet
      first; the one nibble left over, if any, is the filler. */
  lemma NibbleLayout(s: string, k: nat)
    requires AllDigits(s) && k < 2 * |ToBcd(s)|
    ensures var b := ToBcd(s)[k / 2];
            (if k % 2 == 0 then b % 16 else b / 16) == if k < |s| then s[k] as int - '0' as int else 0xF
    ensures k >= |s| ==> k == |s| && k % 2 == 1
  {
    assert ToBcd(s)[k / 2] == Octet(s, k / 2);
  }

  /** "12345", octet by octet. */
  lemma FiveDigits()
    ensures ToBcd("12345") == [0x21, 0x43, 0xF5] && FromBcd([0x21, 0x43, 0xF5]) == Imsi("12345")
  {
    var s := "12345";
    assert ToBcd(s)[0] == Octet(s, 0) && ToBcd(s)[1] == Octet(s, 1) && ToBcd(s)[2] == Octet(s, 2);
    CodecBijection(s, []);
  }

  /** Two subscribers never share a datagram. */
  lemma EncodingInjective(s: string, t: string)
    requires ValidImsi(s) && ValidImsi(t) && ToBcd(s) == ToBcd(t)
    ensures s == t
  {
    DecodeAfterEncode(s);
    DecodeAfterEncode(t);
  }
}
