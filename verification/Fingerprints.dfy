/** SHA-256 certificate fingerprints and their `SHA256:<hex>` text form. */
module Fingerprints {
  import opened Wrappers
  import opened Text

  type Byte = x: int | 0 <= x < 256
  type Bytes = seq<Byte>

  /** A fingerprint is the 32 bytes of a SHA-256 digest. */
  type Fingerprint = b: Bytes | |b| == 32 witness seq(32, _ => 0)

  const UPPER_PREFIX := "SHA256:"
  const LOWER_PREFIX := "sha256:"

  function HexDigit(n: int): char
    requires 0 <= n < 16
  {
    if n < 10 then ('0' as int + n) as char else ('a' as int + n - 10) as char
  }

  function HexValue(c: char): Option<nat> {
    if '0' <= c <= '9' then Some(c as int - '0' as int)
    else if 'a' <= c <= 'f' then Some(c as int - 'a' as int + 10)
    else if 'A' <= c <= 'F' then Some(c as int - 'A' as int + 10)
    else None
  }

  function HexEncode(b: Bytes): (s: string) {
    if b == [] then "" else [HexDigit(b[0] / 16), HexDigit(b[0] % 16)] + HexEncode(b[1..])
  }

  function HexDecode(s: string): (r: Option<Bytes>) {
    if s == "" then Some([])
    else if |s| == 1 then None
    else
      match (HexValue(s[0]), HexValue(s[1]), HexDecode(s[2..]))
      case (Some(hi), Some(lo), Some(rest)) => Some([hi * 16 + lo] + rest)
      case _ => None
  }

  function Parse(s: string): (r: Option<Fingerprint>) {
    if !(UPPER_PREFIX <= s || LOWER_PREFIX <= s) then None
    else
      match HexDecode(s[|UPPER_PREFIX|..])
      case Some(b) => if |b| == 32 then Some(b) else None
      case None => None
  }

  function Print(fp: Fingerprint): string {
    UPPER_PREFIX + HexEncode(fp)
  }

  predicate Matches(fp: Fingerprint, text: string) {
    Parse(text) == Some(fp)
  }

  /** Two lower-case digits per octet, the high one first. */
  lemma {:induction false} HexForm(b: Bytes, i: nat)
    requires i < |b|
    ensures |HexEncode(b)| == 2 * |b|
    ensures HexEncode(b)[2 * i] == "0123456789abcdef"[b[i] / 16] && HexEncode(b)[2 * i + 1] == "0123456789abcdef"[b[i] % 16]
  {
    if i > 0 {
      HexForm(b[1..], i - 1);
    } else if |b| > 1 {
      HexForm(b[1..], 0);
    }
  }

  /** Decoding accepts exactly the hex forms of its result, in either case of letter. */
  lemma {:induction false} HexDecodeExact(s: string, b: Bytes)
    ensures HexDecode(s) == Some(b) <==> Lower(s) == HexEncode(b)
  {
    if |s| >= 2 && b != [] {
      HexDecodeExact(s[2..], b[1..]);
      HexPair(s[0], s[1], b[0]);
      var folded := [LowerChar(s[0]), LowerChar(s[1])];
      var pair := [HexDigit(b[0] / 16), HexDigit(b[0] % 16)];
      assert Lower(s) == folded + Lower(s[2..]);
      assert HexEncode(b) == pair + HexEncode(b[1..]);
      assert Lower(s) == HexEncode(b) <==> folded == pair && Lower(s[2..]) == HexEncode(b[1..]) by {
        assert Lower(s)[..2] == folded && Lower(s)[2..] == Lower(s[2..]);
        assert HexEncode(b)[..2] == pair && HexEncode(b)[2..] == HexEncode(b[1..]);
      }
      assert folded == pair <==> folded[0] == pair[0] && folded[1] == pair[1];
      assert b == [b[0]] + b[1..];
      if HexDecode(s) == Some(b) {
        assert HexDecode(s).value[1..] == HexDecode(s[2..]).value;
      }
    }
  }

  lemma HexPair(hi: char, lo: char, x: Byte)
    ensures HexValue(hi).Some? && HexValue(lo).Some? && HexValue(hi).value * 16 + HexValue(lo).value == x
            <==> LowerChar(hi) == HexDigit(x / 16) && LowerChar(lo) == HexDigit(x % 16)
  {
    HexNibble(hi, x / 16);
    HexNibble(lo, x % 16);
    if HexValue(hi).Some? && HexValue(lo).Some? {
      assert HexValue(hi).value < 16 && HexValue(lo).value < 16;
    }
  }

  lemma HexNibble(c: char, n: int)
    requires 0 <= n < 16
    ensures HexValue(c) == Some(n) <==> LowerChar(c) == HexDigit(n)
  {}

  /**
   * A text matches a fingerprint exactly when, after one of the two accepted prefixes, it is that
   * fingerprint's hex form in any mix of letter cases; in particular the printed form matches.
   */
  lemma MatchesExact(fp: Fingerprint, text: string)
    ensures Matches(fp, text)
            <==> ("SHA256:" <= text || "sha256:" <= text) && Lower(text[7..]) == HexEncode(fp)
    ensures Print(fp) == "SHA256:" + HexEncode(fp) && Matches(fp, Print(fp))
  {
    if |text| >= |UPPER_PREFIX| {
      HexDecodeExact(text[|UPPER_PREFIX|..], fp);
    }
    HexIsLower(fp);
    HexDecodeExact(HexEncode(fp), fp);
    assert Print(fp)[|UPPER_PREFIX|..] == HexEncode(fp);
  }

  lemma {:induction false} HexIsLower(b: Bytes)
    ensures Lower(HexEncode(b)) == HexEncode(b)
  {
    if b != [] {
      HexIsLower(b[1..]);
      var pair := [HexDigit(b[0] / 16), HexDigit(b[0] % 16)];
      assert forall i :: 0 <= i < |HexEncode(b)| ==>
          HexEncode(b)[i] == if i < 2 then pair[i] else HexEncode(b[1..])[i - 2];
      assert forall i :: 0 <= i < |HexEncode(b[1..])| ==>
          LowerChar(HexEncode(b[1..])[i]) == HexEncode(b[1..])[i];
    }
  }
}
