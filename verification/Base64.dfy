/** base64url with padding as Python's urlsafe_b64encode writes it and its lenient decoder
    reads it (RFC 4648, sections 4 and 5). */
module Base64 {
  import opened Prelude

  type byte = b: int | 0 <= b < 256

  // ---------------------------------------------------------------------
  // Text as bytes
  // ---------------------------------------------------------------------

  predicate Ascii(s: string) {
    forall i :: 0 <= i < |s| ==> s[i] < '\U{80}'
  }

  function AsciiBytes(s: string): seq<byte>
    requires Ascii(s)
  {
    seq(|s|, i requires 0 <= i < |s| => s[i] as int)
  }

  /** bytes.decode() as a parameter; all that is known of it is that it leaves ASCII alone. */
  ghost predicate ReadsAscii(utf8: seq<byte> -> Option<string>) {
    forall s :: Ascii(s) ==> utf8(AsciiBytes(s)) == Some(s)
  }

  // ---------------------------------------------------------------------
  // The alphabet of section 5
  // ---------------------------------------------------------------------

  function Symbol(v: nat): (c: char)
    requires v < 64
    ensures c != '=' && Value(c) == Some(v)
  {
    if v < 26 then 'A' + v as char
    else if v < 52 then 'a' + (v - 26) as char
    else if v < 62 then '0' + (v - 52) as char
    else if v == 62 then '-'
    else '_'
  }

  /** The decoder first maps - to + and _ to /, so both alphabets are read. */
  function Value(c: char): Option<nat> {
    if 'A' <= c <= 'Z' then Some((c as int) - ('A' as int))
    else if 'a' <= c <= 'z' then Some((c as int) - ('a' as int) + 26)
    else if '0' <= c <= '9' then Some((c as int) - ('0' as int) + 52)
    else if c == '-' || c == '+' then Some(62)
    else if c == '_' || c == '/' then Some(63)
    else None
  }

  // ---------------------------------------------------------------------
  // Encoding
  // ---------------------------------------------------------------------

  function Quad(a: byte, b: byte, c: byte): string {
    [Symbol(a / 4), Symbol(a % 4 * 16 + b / 16), Symbol(b % 16 * 4 + c / 64), Symbol(c % 64)]
  }

  /** The symbols alone, without padding. */
  function Bare(bytes: seq<byte>): (s: string)
    ensures forall i :: 0 <= i < |s| ==> s[i] != '='
  {
    if bytes == [] then ""
    else if |bytes| == 1 then Quad(bytes[0], 0, 0)[..2]
    else if |bytes| == 2 then Quad(bytes[0], bytes[1], 0)[..3]
    else Quad(bytes[0], bytes[1], bytes[2]) + Bare(bytes[3..])
  }

  function Pads(n: nat): string { seq(n, _ => '=') }

  /** How many bytes the last group of three lacks. */
  function Missing(n: nat): nat { (3 - n % 3) % 3 }

  function Encode(bytes: seq<byte>): string {
    Bare(bytes) + Pads(Missing(|bytes|))
  }

  /** bytes.rstrip(b"="). */
  function StripPads(s: string): string {
    if s != [] && s[|s| - 1] == '=' then StripPads(s[..|s| - 1]) else s
  }

  function MissingSymbols(n: nat): nat { (4 - n % 4) % 4 }

  /** encoded + "=" * (-len(encoded) % 4). */
  function Repad(s: string): string { s + Pads(MissingSymbols(|s|)) }

  /** The alphabet of section 5 (RFC 4648). */
  lemma Alphabet(c: char)
    ensures 'A' <= c <= 'Z' ==> Symbol(c as int - 'A' as int) == c
    ensures 'a' <= c <= 'z' ==> Symbol(c as int - 'a' as int + 26) == c
    ensures '0' <= c <= '9' ==> Symbol(c as int - '0' as int + 52) == c
    ensures Symbol(62) == '-' && Symbol(63) == '_'
  {
  }

  /** Three bytes are one number of 24 bits, and the four symbols its digits to base 64. */
  lemma QuadDigits(a: byte, b: byte, c: byte)
    ensures var q := Quad(a, b, c);
      |q| == 4 && (forall i :: 0 <= i < 4 ==> Value(q[i]).Some? && Value(q[i]).value < 64)
      && Value(q[0]).value * 262144 + Value(q[1]).value * 4096 + Value(q[2]).value * 64 + Value(q[3]).value == a * 65536 + b * 256 + c
  {
    hide Symbol, Value;
    assert c == 64 * (c / 64) + c % 64 && b == 16 * (b / 16) + b % 16 && a == 4 * (a / 4) + a % 4;
  }

  // ---------------------------------------------------------------------
  // Decoding
  // ---------------------------------------------------------------------

  /** The non-strict decoder of CPython's binascii: symbols outside the alphabet are skipped;
      padding that completes a quad ends the input; an unfinished quad is an error. `pos` is the
      place in the quad, `left` the bits carried over, `pads` the padding seen since the last symbol. */
  function DecodeFrom(s: string, pos: nat, left: nat, pads: nat): (r: Option<seq<byte>>)
    requires pos < 4 && left < 64 && (pos == 2 ==> left < 16) && (pos == 3 ==> left < 4)
  {
    if s == [] then (if pos == 0 then Some([]) else None)
    else if s[0] == '=' then
      if pos >= 2 && pos + pads + 1 >= 4 then Some([])
      else DecodeFrom(s[1..], pos, left, if pos >= 2 then pads + 1 else pads)
    else if Value(s[0]).None? then DecodeFrom(s[1..], pos, left, pads)
    else
      var v := Value(s[0]).value;
      if pos == 0 then DecodeFrom(s[1..], 1, v, 0)
      else if pos == 1 then Prepend(left * 4 + v / 16, DecodeFrom(s[1..], 2, v % 16, 0))
      else if pos == 2 then Prepend(left * 16 + v / 4, DecodeFrom(s[1..], 3, v % 4, 0))
      else Prepend(left * 64 + v, DecodeFrom(s[1..], 0, 0, 0))
  }

  function Prepend(b: byte, rest: Option<seq<byte>>): Option<seq<byte>> {
    if rest.None? then None else Some([b] + rest.value)
  }

  function Decode(s: string): Option<seq<byte>> { DecodeFrom(s, 0, 0, 0) }

  // ---------------------------------------------------------------------
  // Round trips
  // ---------------------------------------------------------------------

  /** Reading one alphabet symbol. */
  lemma ReadSymbol(v: nat, rest: string, pos: nat, left: nat, pads: nat)
    requires v < 64 && pos < 4 && left < 64 && (pos == 2 ==> left < 16) && (pos == 3 ==> left < 4)
    ensures DecodeFrom([Symbol(v)] + rest, pos, left, pads)
         == if pos == 0 then DecodeFrom(rest, 1, v, 0)
            else if pos == 1 then Prepend(left * 4 + v / 16, DecodeFrom(rest, 2, v % 16, 0))
            else if pos == 2 then Prepend(left * 16 + v / 4, DecodeFrom(rest, 3, v % 4, 0))
            else Prepend(left * 64 + v, DecodeFrom(rest, 0, 0, 0))
  {
    assert ([Symbol(v)] + rest)[1..] == rest;
  }

  /** The carried bits join up again. */
  lemma Bits(a: byte, b: byte, c: byte)
    ensures a / 4 * 4 + (a % 4 * 16 + b / 16) / 16 == a && (a % 4 * 16 + b / 16) % 16 == b / 16
    ensures b / 16 * 16 + (b % 16 * 4 + c / 64) / 4 == b && (b % 16 * 4 + c / 64) % 4 == c / 64
    ensures c / 64 * 64 + c % 64 == c
  {
  }

  lemma DecodeTwo(a: byte, b: byte, rest: string)
    ensures DecodeFrom(Quad(a, b, 0)[..2] + rest, 0, 0, 0) == Prepend(a, DecodeFrom(rest, 2, b / 16, 0))
  {
    var v0, v1 := a / 4, a % 4 * 16 + b / 16;
    assert Quad(a, b, 0)[..2] + rest == [Symbol(v0)] + ([Symbol(v1)] + rest);
    ReadSymbol(v0, [Symbol(v1)] + rest, 0, 0, 0);
    ReadSymbol(v1, rest, 1, v0, 0);
    Bits(a, b, 0);
  }

  lemma DecodeThree(a: byte, b: byte, c: byte, rest: string)
    ensures DecodeFrom(Quad(a, b, c)[..3] + rest, 0, 0, 0) == Prepend(a, Prepend(b, DecodeFrom(rest, 3, c / 64, 0)))
  {
    var v2 := b % 16 * 4 + c / 64;
    assert Quad(a, b, c)[..3] + rest == Quad(a, b, 0)[..2] + ([Symbol(v2)] + rest);
    DecodeTwo(a, b, [Symbol(v2)] + rest);
    ReadSymbol(v2, rest, 2, b / 16, 0);
    Bits(a, b, c);
  }

  lemma DecodeFour(a: byte, b: byte, c: byte, rest: string)
    ensures DecodeFrom(Quad(a, b, c) + rest, 0, 0, 0)
         == Prepend(a, Prepend(b, Prepend(c, DecodeFrom(rest, 0, 0, 0))))
  {
    assert Quad(a, b, c) + rest == Quad(a, b, c)[..3] + ([Symbol(c % 64)] + rest);
    DecodeThree(a, b, c, [Symbol(c % 64)] + rest);
    ReadSymbol(c % 64, rest, 3, c / 64, 0);
    Bits(a, b, c);
  }

  lemma DecodeOneByte(a: byte)
    ensures Decode(Quad(a, 0, 0)[..2] + "==") == Some([a])
  {
    DecodeTwo(a, 0, "==");
    assert "=="[1..] == "=";
    assert [a] + [] == [a];
    assert DecodeFrom("=", 2, 0, 1) == Some([]);
    assert DecodeFrom("==", 2, 0, 0) == Some([]);
  }

  lemma DecodeTwoBytes(a: byte, b: byte)
    ensures Decode(Quad(a, b, 0)[..3] + "=") == Some([a, b])
  {
    DecodeThree(a, b, 0, "=");
    var end := DecodeFrom("=", 3, 0 / 64, 0);
    assert end == Some([]);
    assert [b] + [] == [b] && [a] + [b] == [a, b];
  }

  lemma EncodeShort(bytes: seq<byte>)
    ensures bytes == [] ==> Encode(bytes) == ""
    ensures |bytes| == 1 ==> Encode(bytes) == Quad(bytes[0], 0, 0)[..2] + "=="
    ensures |bytes| == 2 ==> Encode(bytes) == Quad(bytes[0], bytes[1], 0)[..3] + "="
  {
  }

  lemma EncodeLong(bytes: seq<byte>)
    requires |bytes| >= 3
    ensures Encode(bytes) == Quad(bytes[0], bytes[1], bytes[2]) + Encode(bytes[3..])
  {
    assert Missing(|bytes|) == Missing(|bytes| - 3);
  }

  /** Decoding undoes encoding, on every byte string. */
  lemma {:induction false} DecodeEncode(bytes: seq<byte>)
    ensures Decode(Encode(bytes)) == Some(bytes)
  {
    EncodeShort(bytes);
    if |bytes| == 1 {
      DecodeOneByte(bytes[0]);
      assert bytes == [bytes[0]];
    } else if |bytes| == 2 {
      DecodeTwoBytes(bytes[0], bytes[1]);
      assert bytes == [bytes[0], bytes[1]];
    } else if |bytes| >= 3 {
      EncodeLong(bytes);
      DecodeFour(bytes[0], bytes[1], bytes[2], Encode(bytes[3..]));
      DecodeEncode(bytes[3..]);
      assert bytes == [bytes[0]] + ([bytes[1]] + ([bytes[2]] + bytes[3..]));
    }
  }

  lemma MissingPeriodic(n: nat)
    ensures Missing(n + 3) == Missing(n) && MissingSymbols(n + 4) == MissingSymbols(n)
  {
    assert (n + 3) % 3 == n % 3;
    assert (n + 4) % 4 == n % 4;
  }

  lemma ShortLength(bytes: seq<byte>)
    requires |bytes| < 3
    ensures MissingSymbols(|Bare(bytes)|) == Missing(|bytes|)
  {
    var n, m := |bytes|, |Bare(bytes)|;
    if n == 0 {
      assert m == 0;
    } else if n == 1 {
      assert m == 2;
    } else {
      assert m == 3;
    }
  }

  lemma {:induction false} BareLength(bytes: seq<byte>)
    ensures MissingSymbols(|Bare(bytes)|) == Missing(|bytes|)
  {
    if |bytes| < 3 {
      ShortLength(bytes);
    } else {
      var rest := Bare(bytes[3..]);
      BareLength(bytes[3..]);
      MissingPeriodic(|bytes| - 3);
      MissingPeriodic(|rest|);
      assert |Bare(bytes)| == 4 + |rest|;
    }
  }

  lemma {:induction false} StripOnlyPads(s: string, n: nat)
    requires forall i :: 0 <= i < |s| ==> s[i] != '='
    ensures StripPads(s + Pads(n)) == s
  {
    if n == 0 {
      assert s + Pads(0) == s;
    } else {
      assert (s + Pads(n))[..|s| + n - 1] == s + Pads(n - 1);
      StripOnlyPads(s, n - 1);
    }
  }

  /** Stripping the padding and restoring it from the length loses nothing. */
  lemma RepadStripped(bytes: seq<byte>)
    ensures StripPads(Encode(bytes)) == Bare(bytes)
    ensures Repad(Bare(bytes)) == Encode(bytes)
  {
    StripOnlyPads(Bare(bytes), Missing(|bytes|));
    BareLength(bytes);
  }

  // ---------------------------------------------------------------------
  // Text no encoder wrote
  // ---------------------------------------------------------------------

  /** What a character outside the alphabet and the padding does: nothing, wherever it stands. */
  lemma {:induction false} JunkSkipped(a: string, c: char, b: string, pos: nat, left: nat, pads: nat)
    requires pos < 4 && left < 64 && (pos == 2 ==> left < 16) && (pos == 3 ==> left < 4)
    requires c != '=' && Value(c).None?
    ensures DecodeFrom(a + [c] + b, pos, left, pads) == DecodeFrom(a + b, pos, left, pads)
  {
    hide Value;
    var s, t := a + [c] + b, a + b;
    if a == [] {
      assert s[1..] == t;
    } else {
      assert s[1..] == a[1..] + [c] + b && t[1..] == a[1..] + b && s[0] == t[0] == a[0];
      if a[0] == '=' {
        if !(pos >= 2 && pos + pads + 1 >= 4) { JunkSkipped(a[1..], c, b, pos, left, if pos >= 2 then pads + 1 else pads); }
      } else if Value(a[0]).None? {
        JunkSkipped(a[1..], c, b, pos, left, pads);
      } else {
        var v := Value(a[0]).value;
        ValueBound(a[0]);
        JunkSkipped(a[1..], c, b, (pos + 1) % 4,
                    if pos == 0 then v else if pos == 1 then v % 16 else if pos == 2 then v % 4 else 0, 0);
      }
    }
  }

  lemma ValueBound(c: char)
    ensures Value(c).Some? ==> Value(c).value < 64
  {
  }

  /** Symbols without padding decode exactly if they come in fours. */
  lemma {:induction false} WholeQuads(s: string, pos: nat, left: nat)
    requires pos < 4 && left < 64 && (pos == 2 ==> left < 16) && (pos == 3 ==> left < 4)
    requires forall i :: 0 <= i < |s| ==> s[i] != '=' && Value(s[i]).Some?
    ensures DecodeFrom(s, pos, left, 0).Some? <==> (pos + |s|) % 4 == 0
  {
    hide Value;
    if s != [] {
      var v := Value(s[0]).value;
      ValueBound(s[0]);
      WholeQuads(s[1..], (pos + 1) % 4, if pos == 0 then v else if pos == 1 then v % 16 else if pos == 2 then v % 4 else 0);
    }
  }

  /** The decoder on text of any origin: both alphabets are read, junk is passed over, and symbols
      alone must come in fours. */
  lemma LenientDecoder(a: string, c: char, b: string)
    ensures Value('+') == Value('-') == Some(62) && Value('/') == Value('_') == Some(63)
    ensures c != '=' && Value(c).None? ==> Decode(a + [c] + b) == Decode(a + b)
    ensures (forall i :: 0 <= i < |a| ==> a[i] != '=' && Value(a[i]).Some?) ==> (Decode(a).Some? <==> |a| % 4 == 0)
  {
    if c != '=' && Value(c).None? { JunkSkipped(a, c, b, 0, 0, 0); }
    if forall i :: 0 <= i < |a| ==> a[i] != '=' && Value(a[i]).Some? { WholeQuads(a, 0, 0); }
  }
}
