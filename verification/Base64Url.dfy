/**
 * Base64 with the URL-safe alphabet (section 5 of RFC 4648): the padded encoder, the stripping and
 * restoring of padding, and the decoder with the rules of Python's base64.urlsafe_b64decode, which
 * also accepts '+' and '/', skips characters outside the alphabet and stops at complete padding.
 */
module Base64Url {
  import opened Prelude

  type Byte = x: int | 0 <= x < 256

  type Sextet = x: int | 0 <= x < 64

  function CharOf(v: Sextet): char {
    if v < 26 then ('A' as int + v) as char
    else if v < 52 then ('a' as int + v - 26) as char
    else if v < 62 then ('0' as int + v - 52) as char
    else if v == 62 then '-'
    else '_'
  }

  function ValueOf(c: char): Option<Sextet> {
    if 'A' <= c <= 'Z' then Some(c as int - 'A' as int)
    else if 'a' <= c <= 'z' then Some(c as int - 'a' as int + 26)
    else if '0' <= c <= '9' then Some(c as int - '0' as int + 52)
    else if c == '-' || c == '+' then Some(62)
    else if c == '_' || c == '/' then Some(63)
    else None
  }

  // ---------------------------------------------------------------- encoding

  function EncodeTriple(x: Byte, y: Byte, z: Byte): string {
    [CharOf(x / 4), CharOf(x % 4 * 16 + y / 16), CharOf(y % 16 * 4 + z / 64), CharOf(z % 64)]
  }

  /** The letters of the encoding: four for three bytes, three for a rest of two, two for a rest of one. */
  function Body(bytes: seq<Byte>): string {
    if bytes == [] then ""
    else if |bytes| == 1 then [CharOf(bytes[0] / 4), CharOf(bytes[0] % 4 * 16)]
    else if |bytes| == 2 then
      [CharOf(bytes[0] / 4), CharOf(bytes[0] % 4 * 16 + bytes[1] / 16), CharOf(bytes[1] % 16 * 4)]
    else EncodeTriple(bytes[0], bytes[1], bytes[2]) + Body(bytes[3..])
  }

  /** How many '=' signs complete the last group of `n` bytes. */
  function PadCount(n: nat): nat { if n % 3 == 0 then 0 else 3 - n % 3 }

  /** The letters, then the padding that makes their number a multiple of four. */
  function Encode(bytes: seq<Byte>): string { Body(bytes) + Equals(PadCount(|bytes|)) }

  /** str.rstrip("=") */
  function Strip(s: string): string {
    if s != "" && s[|s| - 1] == '=' then Strip(s[..|s| - 1]) else s
  }

  function Equals(n: nat): string { if n == 0 then "" else Equals(n - 1) + "=" }

  /** s + "=" * (-len(s) % 4) */
  function Restore(s: string): string { s + Equals(-|s| % 4) }

  // ---------------------------------------------------------------- decoding

  predicate Ascii(s: string) { forall c :: c in s ==> c < '\U{80}' }

  predicate Carry(quad: nat, left: int) {
    quad < 4 && 0 <= left && (quad == 0 ==> left == 0) && (quad == 1 ==> left < 64)
    && (quad == 2 ==> left < 16) && (quad == 3 ==> left < 4)
  }

  function Prepend(b: Byte, rest: Option<seq<Byte>>): Option<seq<Byte>> {
    match rest case Some(bs) => Some([b] + bs) case None => None
  }

  /** The decoder's scan: `quad` characters of the current group read, `left` their bits not yet emitted. */
  function Scan(s: string, quad: nat, left: int, pads: nat): Option<seq<Byte>>
    requires Carry(quad, left)
    decreases |s|
  {
    if s == "" then if quad == 0 then Some([]) else None
    else if s[0] == '=' then
      if quad < 2 then Scan(s[1..], quad, left, pads)
      else if quad + pads + 1 >= 4 then Some([])
      else Scan(s[1..], quad, left, pads + 1)
    else
      match ValueOf(s[0])
      case None => Scan(s[1..], quad, left, pads)
      case Some(v) =>
        if quad == 0 then Scan(s[1..], 1, v, 0)
        else if quad == 1 then Prepend(left * 4 + v / 16, Scan(s[1..], 2, v % 16, 0))
        else if quad == 2 then Prepend(left * 16 + v / 4, Scan(s[1..], 3, v % 4, 0))
        else Prepend(left * 64 + v, Scan(s[1..], 0, 0, 0))
  }

  function Decode(s: string): Option<seq<Byte>> {
    if Ascii(s) then Scan(s, 0, 0, 0) else None
  }

  // ---------------------------------------------------------------- the alphabet

  predicate Alphabet(c: char) {
    'A' <= c <= 'Z' || 'a' <= c <= 'z' || '0' <= c <= '9' || c == '-' || c == '_'
  }

  lemma CharRoundTrip(v: Sextet)
    ensures ValueOf(CharOf(v)) == Some(v) && Alphabet(CharOf(v))
  {
  }

  const UPPER := "ABCDEFGHIJKLMNOPQRSTUVWXYZ"
  const LOWER := "abcdefghijklmnopqrstuvwxyz"
  const DIGITS := "0123456789"

  /** The alphabet is Table 2 of RFC 4648, section 5. */
  lemma CharIsTable(v: Sextet)
    ensures |UPPER + LOWER + DIGITS + "-_"| == 64 && CharOf(v) == (UPPER + LOWER + DIGITS + "-_")[v]
  {
    var table := UPPER + LOWER + DIGITS + "-_";
    if v < 26 {
      assert table[v] == UPPER[v];
    } else if v < 52 {
      assert table[v] == LOWER[v - 26];
    } else if v < 62 {
      assert table[v] == DIGITS[v - 52];
    } else {
      assert table[v] == "-_"[v - 62];
    }
  }

  /** The four letters of a group are the base-64 digits of the 24-bit number its three bytes make. */
  lemma TripleIsOneNumber(x: Byte, y: Byte, z: Byte)
    ensures forall i :: 0 <= i < 4 ==> ValueOf(EncodeTriple(x, y, z)[i]).Some?
    ensures var t := EncodeTriple(x, y, z);
            ((ValueOf(t[0]).value * 64 + ValueOf(t[1]).value) * 64 + ValueOf(t[2]).value) * 64 + ValueOf(t[3]).value
            == (x * 256 + y) * 256 + z
  {
    SecondLetter(x, y);
    ThirdLetter(y, z);
    CharRoundTrip(x / 4);
    CharRoundTrip(x % 4 * 16 + y / 16);
    CharRoundTrip(y % 16 * 4 + z / 64);
    CharRoundTrip(z % 64);
  }

  // ---------------------------------------------------------------- scanning what was encoded

  lemma ScanChar(v: Sextet, rest: string, quad: nat, left: int)
    requires Carry(quad, left)
    ensures Scan([CharOf(v)] + rest, quad, left, 0)
         == if quad == 0 then Scan(rest, 1, v, 0)
            else if quad == 1 then Prepend(left * 4 + v / 16, Scan(rest, 2, v % 16, 0))
            else if quad == 2 then Prepend(left * 16 + v / 4, Scan(rest, 3, v % 4, 0))
            else Prepend(left * 64 + v, Scan(rest, 0, 0, 0))
  {
    CharRoundTrip(v);
    assert ([CharOf(v)] + rest)[1..] == rest;
  }

  /** The second letter of a group carries the low bits of its first byte and the high bits of its second. */
  lemma SecondLetter(x: Byte, y: Byte)
    ensures var b := x % 4 * 16 + y / 16;
            0 <= b < 64 && b / 16 == x % 4 && b % 16 == y / 16 && x / 4 * 4 + b / 16 == x
  {
  }

  /** The third letter carries the low bits of the second byte and the high bits of the third. */
  lemma ThirdLetter(y: Byte, z: Byte)
    ensures var c := y % 16 * 4 + z / 64;
            0 <= c < 64 && c / 4 == y % 16 && c % 4 == z / 64 && y / 16 * 16 + c / 4 == y && z / 64 * 64 + z % 64 == z
  {
  }

  lemma ScanTwoLetters(x: Byte, y: Byte, rest: string)
    ensures Scan([CharOf(x / 4)] + ([CharOf(x % 4 * 16 + y / 16)] + rest), 0, 0, 0)
         == Prepend(x, Scan(rest, 2, y / 16, 0))
  {
    SecondLetter(x, y);
    ScanChar(x / 4, [CharOf(x % 4 * 16 + y / 16)] + rest, 0, 0);
    ScanChar(x % 4 * 16 + y / 16, rest, 1, x / 4);
  }

  lemma ScanThirdLetter(y: Byte, z: Byte, rest: string)
    ensures Scan([CharOf(y % 16 * 4 + z / 64)] + rest, 2, y / 16, 0) == Prepend(y, Scan(rest, 3, z / 64, 0))
  {
    ThirdLetter(y, z);
    ScanChar(y % 16 * 4 + z / 64, rest, 2, y / 16);
  }

  lemma ScanTriple(x: Byte, y: Byte, z: Byte, rest: string)
    ensures Scan(EncodeTriple(x, y, z) + rest, 0, 0, 0)
         == Prepend(x, Prepend(y, Prepend(z, Scan(rest, 0, 0, 0))))
  {
    var s3 := [CharOf(z % 64)] + rest;
    var s2 := [CharOf(y % 16 * 4 + z / 64)] + s3;
    assert EncodeTriple(x, y, z) + rest == [CharOf(x / 4)] + ([CharOf(x % 4 * 16 + y / 16)] + s2);
    ScanTwoLetters(x, y, s2);
    ScanThirdLetter(y, z, s3);
    ThirdLetter(y, z);
    ScanChar(z % 64, rest, 3, z / 64);
  }

  lemma ScanPair(x: Byte, y: Byte)
    ensures Scan(Body([x, y]) + "=", 0, 0, 0) == Some([x, y])
  {
    var s2 := [CharOf(y % 16 * 4 + 0 / 64)] + "=";
    assert Body([x, y]) + "=" == [CharOf(x / 4)] + ([CharOf(x % 4 * 16 + y / 16)] + s2);
    ScanTwoLetters(x, y, s2);
    ScanThirdLetter(y, 0, "=");
    assert Scan("=", 3, 0, 0) == Some([]);
    assert [x] + ([y] + []) == [x, y];
  }

  lemma ScanSingle(x: Byte)
    ensures Scan(Body([x]) + "==", 0, 0, 0) == Some([x])
  {
    assert Body([x]) + "==" == [CharOf(x / 4)] + ([CharOf(x % 4 * 16 + 0 / 16)] + "==");
    ScanTwoLetters(x, 0, "==");
    assert "=="[1..] == "=";
    assert Scan("=", 2, 0, 1) == Some([]);
    assert [x] + [] == [x];
  }

  /** The last group, with its padding, decodes to the bytes left over. */
  lemma ScanLast(bytes: seq<Byte>)
    requires |bytes| < 3
    ensures Scan(Encode(bytes), 0, 0, 0) == Some(bytes)
  {
    assert Equals(1) == "=" && Equals(2) == "==";
    if bytes == [] {
      assert Encode(bytes) == "";
    } else if |bytes| == 1 {
      assert bytes == [bytes[0]];
      assert Encode([bytes[0]]) == Body([bytes[0]]) + "==";
      ScanSingle(bytes[0]);
    } else {
      assert bytes == [bytes[0], bytes[1]];
      assert Encode([bytes[0], bytes[1]]) == Body([bytes[0], bytes[1]]) + "=";
      ScanPair(bytes[0], bytes[1]);
    }
  }

  lemma EncodeSplits(bytes: seq<Byte>)
    requires |bytes| >= 3
    ensures Encode(bytes) == EncodeTriple(bytes[0], bytes[1], bytes[2]) + Encode(bytes[3..])
  {
    assert PadCount(|bytes[3..]|) == PadCount(|bytes|);
  }

  lemma PrependThree(bytes: seq<Byte>)
    requires |bytes| >= 3
    ensures Prepend(bytes[0], Prepend(bytes[1], Prepend(bytes[2], Some(bytes[3..])))) == Some(bytes)
  {
    assert [bytes[0]] + ([bytes[1]] + ([bytes[2]] + bytes[3..])) == bytes;
  }

  lemma ScanFirst(bytes: seq<Byte>)
    requires |bytes| >= 3
    ensures Scan(Encode(bytes), 0, 0, 0)
         == Prepend(bytes[0], Prepend(bytes[1], Prepend(bytes[2], Scan(Encode(bytes[3..]), 0, 0, 0))))
  {
    EncodeSplits(bytes);
    ScanTriple(bytes[0], bytes[1], bytes[2], Encode(bytes[3..]));
  }

  lemma {:induction false} ScanEncoded(bytes: seq<Byte>)
    ensures Scan(Encode(bytes), 0, 0, 0) == Some(bytes)
    decreases |bytes|
  {
    if |bytes| < 3 {
      ScanLast(bytes);
    } else {
      ScanEncoded(bytes[3..]);
      ScanFirst(bytes);
      PrependThree(bytes);
    }
  }

  // ---------------------------------------------------------------- padding

  predicate Unpadded(s: string) { forall i :: 0 <= i < |s| ==> Alphabet(s[i]) }

  function BodyLength(n: nat): nat { if n < 3 then (if n == 0 then 0 else n + 1) else BodyLength(n - 3) + 4 }

  lemma {:induction false} BodyLengthIs(n: nat)
    ensures BodyLength(n) == n / 3 * 4 + if n % 3 == 0 then 0 else n % 3 + 1
  {
    if n >= 3 {
      BodyLengthIs(n - 3);
    }
  }

  lemma ModFour(q: nat, c: nat)
    requires c < 4
    ensures (4 * q + c) % 4 == c && (0 - (4 * q + c)) % 4 == (4 - c) % 4
  {
  }

  lemma LengthModFour(n: nat)
    ensures BodyLength(n) % 4 != 1 && (0 - BodyLength(n)) % 4 == PadCount(n)
    ensures BodyLength(n) == n / 3 * 4 + if n % 3 == 0 then 0 else n % 3 + 1
  {
    BodyLengthIs(n);
    ModFour(n / 3, if n % 3 == 0 then 0 else n % 3 + 1);
  }

  lemma {:induction false} BodyShape(bytes: seq<Byte>)
    ensures Unpadded(Body(bytes)) && |Body(bytes)| == BodyLength(|bytes|)
    decreases |bytes|
  {
    if |bytes| >= 3 {
      BodyShape(bytes[3..]);
    }
  }

  lemma {:induction false} StripEquals(s: string, n: nat)
    requires Unpadded(s)
    ensures Strip(s + Equals(n)) == s
  {
    if n == 0 {
      assert s + Equals(0) == s;
    } else {
      assert (s + Equals(n))[..|s + Equals(n)| - 1] == s + Equals(n - 1);
      StripEquals(s, n - 1);
    }
  }

  /** Stripping leaves letters of the alphabet only, and never one letter more than a multiple of four. */
  lemma StripShape(bytes: seq<Byte>)
    ensures Strip(Encode(bytes)) == Body(bytes) && Unpadded(Strip(Encode(bytes)))
    ensures |Strip(Encode(bytes))| % 4 != 1
  {
    BodyShape(bytes);
    LengthModFour(|bytes|);
    StripEquals(Body(bytes), PadCount(|bytes|));
  }

  /** Restoring the padding undoes stripping it. */
  lemma RestoreStripped(bytes: seq<Byte>)
    ensures Restore(Strip(Encode(bytes))) == Encode(bytes)
  {
    StripShape(bytes);
    BodyShape(bytes);
    LengthModFour(|bytes|);
    assert -|Body(bytes)| % 4 == PadCount(|bytes|);
  }

  lemma {:induction false} EqualsOnly(n: nat)
    ensures forall c :: c in Equals(n) ==> c == '='
  {
    if n > 0 {
      EqualsOnly(n - 1);
    }
  }

  lemma EncodedIsAscii(bytes: seq<Byte>)
    ensures Ascii(Encode(bytes))
  {
    BodyShape(bytes);
    EqualsOnly(PadCount(|bytes|));
  }

  /** Every byte sequence survives encoding, stripping, restoring and decoding. */
  lemma RoundTrip(bytes: seq<Byte>)
    ensures Decode(Restore(Strip(Encode(bytes)))) == Some(bytes)
  {
    RestoreStripped(bytes);
    EncodedIsAscii(bytes);
    ScanEncoded(bytes);
  }

  // ---------------------------------------------------------------- what the decoder makes of any text

  /** The decoder reads the alphabet back, with '+' and '/' for its last two letters as well, and nothing else. */
  lemma ValueIsTable(c: char, v: Sextet)
    ensures ValueOf(c) == Some(v) <==> CharOf(v) == c || (v == 62 && c == '+') || (v == 63 && c == '/')
  {
    CharRoundTrip(v);
  }

  /** A character that is neither a letter nor a padding sign makes no difference, wherever it stands. */
  lemma {:induction false} JunkSkipped(a: string, c: char, b: string, quad: nat, left: int, pads: nat)
    requires Carry(quad, left) && ValueOf(c) == None && c != '='
    ensures Scan(a + [c] + b, quad, left, pads) == Scan(a + b, quad, left, pads)
    decreases |a|
  {
    if a == "" {
      assert ("" + [c] + b)[1..] == b && "" + b == b;
    } else {
      var rest := a[1..];
      assert (a + [c] + b)[1..] == rest + [c] + b && (a + b)[1..] == rest + b;
      forall q: nat, l: int, p: nat | Carry(q, l)
        ensures Scan(rest + [c] + b, q, l, p) == Scan(rest + b, q, l, p)
      {
        JunkSkipped(rest, c, b, q, l, p);
      }
    }
  }

  /**
   * A padding sign counts after two letters of a group, where it takes two, and after three; then the rest is
   * ignored.
   */
  lemma PaddingRules(rest: string, c: char, left: int)
    requires ValueOf(c).Some?
    ensures left == 0 ==> Scan("=" + rest, 0, left, 0) == Scan(rest, 0, left, 0)
    ensures 0 <= left < 64 ==> Scan("=" + rest, 1, left, 0) == Scan(rest, 1, left, 0)
    ensures 0 <= left < 16 ==> Scan("==" + rest, 2, left, 0) == Some([])
    ensures 0 <= left < 16 ==> Scan("=" + ([c] + rest), 2, left, 0) == Scan([c] + rest, 2, left, 0)
    ensures 0 <= left < 4 ==> Scan("=" + rest, 3, left, 0) == Some([])
  {
    assert ("=" + rest)[1..] == rest && ("==" + rest)[1..] == "=" + rest && ("=" + ([c] + rest))[1..] == [c] + rest;
    assert 0 <= left < 16 ==> Scan("=" + rest, 2, left, 1) == Some([]);
  }

  predicate Letters(s: string) { forall c :: c in s ==> ValueOf(c).Some? }

  /** A letter moves the scan one place on in its group. */
  lemma ScanLetter(c: char, rest: string, quad: nat, left: int) returns (next: int)
    requires Carry(quad, left) && ValueOf(c).Some?
    ensures Carry(if quad < 3 then quad + 1 else 0, next)
    ensures Scan([c] + rest, quad, left, 0).Some? <==> Scan(rest, if quad < 3 then quad + 1 else 0, next, 0).Some?
  {
    var v := ValueOf(c).value;
    assert ([c] + rest)[1..] == rest;
    next := if quad == 0 then v else if quad == 1 then v % 16 else if quad == 2 then v % 4 else 0;
  }

  /** Letters and the padding signs that complete their groups decode unless three signs are needed. */
  lemma {:induction false} ScanLettersIff(s: string, quad: nat, left: int, groups: nat, need: nat)
    requires Letters(s) && Carry(quad, left) && need < 4 && quad + |s| + need == 4 * groups
    ensures Scan(s + Equals(need), quad, left, 0).Some? <==> need != 3
    decreases |s|
  {
    if s == "" {
      assert s + Equals(need) == Equals(need);
      ScanPadding(quad, left);
    } else {
      var c, rest, pad := s[0], s[1..], Equals(need);
      assert s + pad == [c] + (rest + pad);
      assert c in s && forall d :: d in rest ==> d in s;
      var next := ScanLetter(c, rest + pad, quad, left);
      ScanLettersIff(rest, if quad < 3 then quad + 1 else 0, next, if quad < 3 then groups else groups - 1, need);
    }
  }

  lemma ScanPadding(quad: nat, left: int)
    requires Carry(quad, left)
    ensures Scan(Equals(if quad == 0 then 0 else 4 - quad), quad, left, 0).Some? <==> quad != 1
  {
    if quad == 1 {
      assert Equals(3) == "===" && "==="[1..] == "==" && "=="[1..] == "=" && "="[1..] == "";
      assert Scan("=", 1, left, 0) == Scan("", 1, left, 0) == None;
      assert Scan("==", 1, left, 0) == None;
    } else if quad == 2 {
      assert Equals(2) == "==" && "=="[1..] == "=";
      assert Scan("=", 2, left, 1) == Some([]);
    } else if quad == 3 {
      assert Equals(1) == "=";
    }
  }

  /**
   * Exactly which texts of letters are accepted once their padding is restored: all but those with one letter too
   * many.
   */
  lemma RestoredDecodesIff(s: string)
    requires Letters(s)
    ensures Decode(Restore(s)).Some? <==> |s| % 4 != 1
  {
    ModFour(|s| / 4, |s| % 4);
    var need := -|s| % 4;
    ScanLettersIff(s, 0, 0, (|s| + need) / 4, need);
    EqualsOnly(-|s| % 4);
    forall c | c in Restore(s)
      ensures c < '\U{80}'
    {
      assert c in s || c == '=';
    }
  }
}
