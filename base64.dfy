/** The browser's `btoa` and `atob`: the Base64 encoding of section 4 of RFC 4648
    (alphabet A-Z a-z 0-9 + /, padded with '=' to a multiple of four characters),
    and the "forgiving-base64 decode" of the WHATWG HTML standard that `atob` runs
    (ASCII whitespace is skipped, padding is optional, leftover bits are dropped). */
module Base64 {
  import opened Common

  /** The character for a 6-bit value. */
  function SextetChar(v: int): char
    requires 0 <= v < 64
  {
    if v < 26 then ('A' as int + v) as char
    else if v < 52 then ('a' as int + (v - 26)) as char
    else if v < 62 then ('0' as int + (v - 52)) as char
    else if v == 62 then '+'
    else '/'
  }

  predicate IsAlphabetChar(c: char)
  {
    ('A' <= c <= 'Z') || ('a' <= c <= 'z') || ('0' <= c <= '9') || c == '+' || c == '/'
  }

  /** The 6-bit value of an alphabet character: the inverse of SextetChar. */
  function SextetValue(c: char): (v: int)
    requires IsAlphabetChar(c)
    ensures 0 <= v < 64 && SextetChar(v) == c
  {
    if 'A' <= c <= 'Z' then c as int - 'A' as int
    else if 'a' <= c <= 'z' then c as int - 'a' as int + 26
    else if '0' <= c <= '9' then c as int - '0' as int + 52
    else if c == '+' then 62
    else 63
  }

  lemma SextetRoundTrip(v: int)
    requires 0 <= v < 64
    ensures IsAlphabetChar(SextetChar(v)) && SextetValue(SextetChar(v)) == v
  {
  }

  /** The 6-bit values for the bytes, three bytes to four values; a final one or
      two bytes give two or three values, their spare low bits zero. */
  function Sextets(b: seq<byte>): (vs: seq<int>)
    ensures |vs| == (4 * |b| + 2) / 3
    ensures forall i :: 0 <= i < |vs| ==> 0 <= vs[i] < 64
    decreases |b|
  {
    if |b| == 0 then []
    else if |b| == 1 then [b[0] / 4, (b[0] % 4) * 16]
    else if |b| == 2 then [b[0] / 4, (b[0] % 4) * 16 + b[1] / 16, (b[1] % 16) * 4]
    else Group(b[0], b[1], b[2]) + Sextets(b[3..])
  }

  /** The four 6-bit values of one group of three bytes. */
  function Group(b0: byte, b1: byte, b2: byte): (vs: seq<int>)
    ensures |vs| == 4 && forall i :: 0 <= i < 4 ==> 0 <= vs[i] < 64
  {
    [b0 / 4, (b0 % 4) * 16 + b1 / 16, (b1 % 16) * 4 + b2 / 64, b2 % 64]
  }

  function Chars(vs: seq<int>): (s: string)
    requires forall i :: 0 <= i < |vs| ==> 0 <= vs[i] < 64
    ensures |s| == |vs|
    ensures forall i :: 0 <= i < |s| ==> IsAlphabetChar(s[i])
  {
    seq(|vs|, i requires 0 <= i < |vs| => SextetRoundTrip(vs[i]); SextetChar(vs[i]))
  }

  /** The characters for the bytes, three bytes to four characters, without padding. */
  function EncodeUnpadded(b: seq<byte>): (s: string)
    ensures |s| == (4 * |b| + 2) / 3
    ensures forall i :: 0 <= i < |s| ==> IsAlphabetChar(s[i])
  {
    Chars(Sextets(b))
  }

  function Padding(n: nat): string
  {
    if n % 3 == 1 then "==" else if n % 3 == 2 then "=" else ""
  }

  /** RFC 4648 Base64 of the bytes: four characters for every started group of
      three bytes, each an alphabet character or the pad '='. */
  function Encode(b: seq<byte>): (s: string)
    ensures |s| == 4 * ((|b| + 2) / 3)
    ensures forall i :: 0 <= i < |s| ==> IsAlphabetChar(s[i]) || s[i] == '='
  {
    EncodeLengths(|b|);
    EncodeUnpadded(b) + Padding(|b|)
  }

  /** ASCII whitespace as the WHATWG Infra standard defines it: TAB, LF, FF, CR, SPACE. */
  predicate IsAsciiWhitespace(c: char)
  {
    c == '\t' || c == '\n' || c as int == 12 || c == '\r' || c == ' '
  }

  function StripWhitespace(s: string): (r: string)
    ensures |r| <= |s|
    decreases |s|
  {
    if s == [] then []
    else (if IsAsciiWhitespace(s[0]) then [] else [s[0]]) + StripWhitespace(s[1..])
  }

  /** When the length is a multiple of four, one or two trailing '=' are removed. */
  function DropPadding(s: string): string
  {
    if |s| % 4 == 0 && |s| >= 2 && s[|s| - 2..] == "==" then s[..|s| - 2]
    else if |s| % 4 == 0 && |s| >= 1 && s[|s| - 1] == '=' then s[..|s| - 1]
    else s
  }

  function Values(s: string): (vs: seq<int>)
    requires forall i :: 0 <= i < |s| ==> IsAlphabetChar(s[i])
    ensures |vs| == |s| && forall i :: 0 <= i < |vs| ==> 0 <= vs[i] < 64
  {
    seq(|s|, i requires 0 <= i < |s| => SextetValue(s[i]))
  }

  /** Bytes of a run of 6-bit values: four values to three bytes; a trailing pair
      gives one byte, a trailing triple two, the spare bits dropped (a single
      trailing value, which Decode refuses first, gives none). */
  function SextetBytes(vs: seq<int>): (b: seq<byte>)
    requires forall i :: 0 <= i < |vs| ==> 0 <= vs[i] < 64
    decreases |vs|
  {
    if |vs| < 2 then []
    else if |vs| == 2 then [vs[0] * 4 + vs[1] / 16]
    else if |vs| == 3 then [vs[0] * 4 + vs[1] / 16, (vs[1] % 16) * 16 + vs[2] / 4]
    else
      [vs[0] * 4 + vs[1] / 16, (vs[1] % 16) * 16 + vs[2] / 4, (vs[2] % 4) * 64 + vs[3]]
      + SextetBytes(vs[4..])
  }

  /** The bytes `atob` recovers from a text, or None where `atob` throws
      (a remainder of one character, or a character outside the alphabet). */
  function Decode(text: string): Option<seq<byte>>
  {
    var s := DropPadding(StripWhitespace(text));
    if |s| % 4 == 1 then None
    else if forall i | 0 <= i < |s| :: IsAlphabetChar(s[i]) then Some(SextetBytes(Values(s)))
    else None
  }

  /** The bit arithmetic of one group: the three bytes come back from their four sextets. */
  lemma GroupArithmetic(b0: byte, b1: byte, b2: byte)
    ensures (b0 / 4) * 4 + ((b0 % 4) * 16 + b1 / 16) / 16 == b0
    ensures (((b0 % 4) * 16 + b1 / 16) % 16) * 16 + ((b1 % 16) * 4 + b2 / 64) / 4 == b1
    ensures (((b1 % 16) * 4 + b2 / 64) % 4) * 64 + b2 % 64 == b2
    ensures (((b0 % 4) * 16 + b1 / 16) % 16) * 16 + ((b1 % 16) * 4) / 4 == b1
  {
  }

  lemma {:induction false} BytesOfSextets(b: seq<byte>)
    ensures SextetBytes(Sextets(b)) == b
    decreases |b|
  {
    if |b| == 0 {
    } else if |b| < 3 {
      GroupArithmetic(b[0], if |b| == 2 then b[1] else 0, 0);
    } else {
      GroupStep(b);
      BytesOfSextets(b[3..]);
      assert b == b[..3] + b[3..];
    }
  }

  /** The first three bytes come back from the first four sextets. */
  lemma {:induction false} GroupStep(b: seq<byte>)
    requires |b| >= 3
    ensures SextetBytes(Sextets(b)) == b[..3] + SextetBytes(Sextets(b[3..]))
  {
    GroupBytes(b[0], b[1], b[2], Sextets(b[3..]));
    assert b[..3] == [b[0], b[1], b[2]];
  }

  /** Four sextets of three bytes, followed by any others, decode to those three bytes first. */
  lemma {:induction false} GroupBytes(b0: byte, b1: byte, b2: byte, rest: seq<int>)
    requires forall i :: 0 <= i < |rest| ==> 0 <= rest[i] < 64
    ensures SextetBytes(Group(b0, b1, b2) + rest) == [b0, b1, b2] + SextetBytes(rest)
  {
    var g := Group(b0, b1, b2);
    var vs := g + rest;
    assert vs[4..] == rest;
    assert SextetBytes(vs) == [g[0] * 4 + g[1] / 16, (g[1] % 16) * 16 + g[2] / 4, (g[2] % 4) * 64 + g[3]]
                              + SextetBytes(rest);
    GroupArithmetic(b0, b1, b2);
  }

  lemma ValuesOfChars(vs: seq<int>)
    requires forall i :: 0 <= i < |vs| ==> 0 <= vs[i] < 64
    ensures Values(Chars(vs)) == vs
  {
    forall i | 0 <= i < |vs| ensures Values(Chars(vs))[i] == vs[i] {
      SextetRoundTrip(vs[i]);
    }
  }

  lemma DecodeEncodeUnpadded(b: seq<byte>)
    ensures SextetBytes(Values(EncodeUnpadded(b))) == b
  {
    ValuesOfChars(Sextets(b));
    BytesOfSextets(b);
  }

  lemma {:induction false} StripKeepsClean(s: string)
    requires forall i :: 0 <= i < |s| ==> !IsAsciiWhitespace(s[i])
    ensures StripWhitespace(s) == s
    decreases |s|
  {
    if s != [] {
      StripKeepsClean(s[1..]);
    }
  }

  /** The lengths of the encoding with and without padding, by the remainder of n / 3. */
  lemma EncodeLengths(n: nat)
    ensures n % 3 == 0 ==> (4 * n + 2) / 3 == 4 * ((n + 2) / 3)
    ensures n % 3 == 1 ==> (4 * n + 2) / 3 + 2 == 4 * ((n + 2) / 3)
    ensures n % 3 == 2 ==> (4 * n + 2) / 3 + 1 == 4 * ((n + 2) / 3)
  {
    var q, r := n / 3, n % 3;
    assert n == 3 * q + r;
    assert 4 * n + 2 == 3 * (4 * q) + (4 * r + 2);
    assert n + 2 == 3 * q + (r + 2);
  }

  /** DropPadding removes exactly the padding of an encoding: two '=' after a body
      two characters past a multiple of four, ... */
  lemma DropTwo(u: string)
    requires |u| % 4 == 2
    ensures DropPadding(u + "==") == u
  {
    var s := u + "==";
    assert s[|s| - 2..] == "==";
    assert s[..|s| - 2] == u;
  }

  /** ... one '=' after a body three past a multiple of four, ... */
  lemma DropOne(u: string)
    requires |u| % 4 == 3 && IsAlphabetChar(u[|u| - 1])
    ensures DropPadding(u + "=") == u
  {
    var s := u + "=";
    assert s[|s| - 2] == u[|u| - 1];
    assert s[|s| - 2..] != "==" by {
      assert s[|s| - 2..][0] == u[|u| - 1];
    }
    assert s[..|s| - 1] == u;
  }

  /** ... and nothing from an unpadded body that ends in an alphabet character. */
  lemma DropNone(u: string)
    requires |u| % 4 == 0 && (|u| > 0 ==> IsAlphabetChar(u[|u| - 1]))
    ensures DropPadding(u) == u
  {
    if |u| >= 2 {
      assert u[|u| - 2..][1] == u[|u| - 1];
    }
  }

  lemma DropPaddingOfEncode(b: seq<byte>)
    ensures DropPadding(Encode(b)) == EncodeUnpadded(b)
  {
    var u := EncodeUnpadded(b);
    EncodeLengths(|b|);
    var r := |b| % 3;
    if r == 1 {
      assert Padding(|b|) == "==";
      DropTwo(u);
    } else if r == 2 {
      assert Padding(|b|) == "=";
      DropOne(u);
    } else {
      assert Padding(|b|) == "";
      assert u + "" == u;
      DropNone(u);
    }
  }

  /** `atob(btoa(x))` gives back every byte sequence exactly. */
  lemma Base64RoundTrip(b: seq<byte>)
    ensures Decode(Encode(b)) == Some(b)
  {
    var s, u := Encode(b), EncodeUnpadded(b);
    assert DropPadding(StripWhitespace(s)) == u by {
      StripKeepsClean(s);
      DropPaddingOfEncode(b);
    }
    assert |u| % 4 != 1 by {
      UnpaddedLength(|b|);
    }
    DecodeEncodeUnpadded(b);
  }

  /** Unpadded Base64 never leaves a single character over. */
  lemma UnpaddedLength(n: nat)
    ensures ((4 * n + 2) / 3) % 4 != 1
  {
    var q, r := n / 3, n % 3;
    assert n == 3 * q + r;
    assert 4 * n + 2 == 3 * (4 * q) + (4 * r + 2);
    assert (4 * n + 2) / 3 == 4 * q + (4 * r + 2) / 3;
  }

  /** The string whose character codes are the bytes (`String.fromCharCode` per byte). */
  function BinaryString(b: seq<byte>): string
  {
    seq(|b|, i requires 0 <= i < |b| => b[i] as char)
  }

  predicate IsBinaryString(s: string)
  {
    forall i :: 0 <= i < |s| ==> s[i] as int < 256
  }

  /** The bytes that are the character codes of a binary string (`charCodeAt` per character). */
  function CharCodes(s: string): seq<byte>
    requires IsBinaryString(s)
  {
    seq(|s|, i requires 0 <= i < |s| => s[i] as int)
  }

  /** `btoa`: Base64 of a binary string, or None where it throws InvalidCharacterError
      (a character code above 255). */
  function Btoa(s: string): (r: Option<string>)
    ensures r.Some? <==> IsBinaryString(s)
    ensures r.Some? ==> Decode(r.value) == Some(CharCodes(s))
  {
    if IsBinaryString(s) then
      Base64RoundTrip(CharCodes(s));
      Some(Encode(CharCodes(s)))
    else None
  }

  /** `atob`: the binary string a Base64 text stands for, or None where it throws. */
  function Atob(text: string): (r: Option<string>)
    ensures r.Some? <==> Decode(text).Some?
    ensures r.Some? ==> IsBinaryString(r.value) && CharCodes(r.value) == Decode(text).value
  {
    match Decode(text)
    case None => None
    case Some(b) => Some(BinaryString(b))
  }
}
