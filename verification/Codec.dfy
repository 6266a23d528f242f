/**
 * A reversible text encoding of naturals and strings into the characters
 * `0-9a-f` and `_`. It stands in for the base64url segments of a JSON Web Token:
 * what matters to the model is that encoded segments never contain a space or a
 * dot and that decoding undoes encoding.
 */
module Codec {
  import opened Wrappers
  import Text

  const HexDigits: string := "0123456789abcdef"

  /** Ends every encoded number. */
  const Terminator: char := '_'

  predicate IsHexDigit(c: char) {
    c in HexDigits
  }

  /** Characters an encoded segment may contain. */
  predicate IsSegmentChar(c: char) {
    IsHexDigit(c) || c == Terminator
  }

  predicate IsSegment(s: string) {
    forall k :: 0 <= k < |s| ==> IsSegmentChar(s[k])
  }

  function DigitValue(c: char): (r: Option<nat>)
    ensures r.Some? <==> IsHexDigit(c)
    ensures r.Some? ==> r.value < 16 && HexDigits[r.value] == c
  {
    if '0' <= c <= '9' then Some(c as nat - '0' as nat)
    else if 'a' <= c <= 'f' then Some(c as nat - 'a' as nat + 10)
    else None
  }

  /** The lower-case hexadecimal numeral of `n`, most significant digit first. */
  function Hex(n: nat): (r: string)
    ensures |r| >= 1
    ensures forall k :: 0 <= k < |r| ==> IsHexDigit(r[k])
    decreases n
  {
    if n < 16 then [HexDigits[n]] else Hex(n / 16) + [HexDigits[n % 16]]
  }

  /** Reads a non-empty hexadecimal numeral; anything else is rejected. */
  function ParseHex(s: string): Option<nat>
    decreases |s|
  {
    if |s| == 0 then None
    else
      match DigitValue(s[|s| - 1])
      case None => None
      case Some(d) =>
        if |s| == 1 then Some(d)
        else
          match ParseHex(s[..|s| - 1])
          case None => None
          case Some(h) => Some(h * 16 + d)
  }

  /** Digit values are the positions in `HexDigits`, so reading a digit undoes writing it. */
  lemma DigitValueInverse(d: nat)
    requires d < 16
    ensures DigitValue(HexDigits[d]) == Some(d)
  {
    if d < 10 {
      assert HexDigits[d] as nat == '0' as nat + d;
    } else {
      assert HexDigits[d] as nat == 'a' as nat + d - 10;
    }
  }

  /** Appending a digit multiplies the value read so far by sixteen and adds the digit. */
  lemma ParseHexAppend(s: string, h: nat, d: nat)
    requires ParseHex(s) == Some(h) && d < 16
    ensures ParseHex(s + [HexDigits[d]]) == Some(h * 16 + d)
  {
    var t := s + [HexDigits[d]];
    DigitValueInverse(d);
    assert t[|t| - 1] == HexDigits[d];
    assert t[..|t| - 1] == s;
  }

  lemma {:induction false} ParseHexInverse(n: nat)
    ensures ParseHex(Hex(n)) == Some(n)
    decreases n
  {
    if n < 16 {
      DigitValueInverse(n);
    } else {
      ParseHexInverse(n / 16);
      ParseHexAppend(Hex(n / 16), n / 16, n % 16);
    }
  }

  /** Each number as its numeral followed by the terminator. */
  function EncodeNats(ns: seq<nat>): (r: string)
    ensures IsSegment(r)
    decreases |ns|
  {
    if |ns| == 0 then [] else Hex(ns[0]) + [Terminator] + EncodeNats(ns[1..])
  }

  function DecodeNats(s: string): Option<seq<nat>>
    decreases |s|
  {
    if |s| == 0 then Some([])
    else
      match Text.IndexOf(s, Terminator)
      case None => None
      case Some(i) =>
        match ParseHex(s[..i])
        case None => None
        case Some(n) =>
          match DecodeNats(s[i + 1..])
          case None => None
          case Some(rest) => Some([n] + rest)
  }

  /** A numeral never contains the terminator. */
  lemma HexHasNoTerminator(n: nat)
    ensures Terminator !in Hex(n)
  {
    assert !IsHexDigit(Terminator);
  }

  /** Decoding reads one numeral up to the first terminator, then decodes the rest. */
  lemma DecodeNatsCons(n: nat, tail: string)
    ensures DecodeNats(Hex(n) + [Terminator] + tail)
            == if DecodeNats(tail).Some? then Some([n] + DecodeNats(tail).value) else None
  {
    var h := Hex(n);
    var s := h + [Terminator] + tail;
    HexHasNoTerminator(n);
    Text.IndexOfAfter(h, Terminator, tail);
    ParseHexInverse(n);
    assert s[..|h|] == h;
    assert s[|h| + 1..] == tail;
  }

  lemma {:induction false} DecodeNatsInverse(ns: seq<nat>)
    ensures DecodeNats(EncodeNats(ns)) == Some(ns)
    decreases |ns|
  {
    if |ns| > 0 {
      DecodeNatsInverse(ns[1..]);
      DecodeNatsCons(ns[0], EncodeNats(ns[1..]));
      assert [ns[0]] + ns[1..] == ns;
    }
  }

  /** True when `n` is the code of a Unicode scalar value, i.e. of some `char`. */
  predicate IsScalar(n: nat) {
    n < 0xD800 || 0xE000 <= n < 0x11_0000
  }

  function CodePoints(s: string): (r: seq<nat>)
    ensures |r| == |s|
    ensures forall k :: 0 <= k < |r| ==> IsScalar(r[k]) && r[k] as char == s[k]
  {
    seq(|s|, k requires 0 <= k < |s| => s[k] as nat)
  }

  function FromCodePoints(ns: seq<nat>): Option<string> {
    if forall k :: 0 <= k < |ns| ==> IsScalar(ns[k])
    then Some(seq(|ns|, k requires 0 <= k < |ns| => ns[k] as char))
    else None
  }

  lemma FromCodePointsInverse(s: string)
    ensures FromCodePoints(CodePoints(s)) == Some(s)
  {
    var ns := CodePoints(s);
    assert seq(|ns|, k requires 0 <= k < |ns| => ns[k] as char) == s;
  }

  /** A 64-bit polynomial digest of `s`: the stand-in for every keyed or one-way hash of the model. */
  function Digest(s: string): nat
    decreases |s|
  {
    if |s| == 0 then 0
    else (Digest(s[..|s| - 1]) * 65599 + s[|s| - 1] as nat) % 0x1_0000_0000_0000_0000
  }
}
