/** The base64 alphabet of section 4 of RFC 4648, the encoding `btoa` produces and the
    "forgiving-base64 decode" of the WHATWG Infra standard, which is what `atob` runs. */
module Base64 {
  import opened Basics
  import opened Strings

  /** A 6-bit group: the value one base64 character carries. */
  type sextet = v: int | 0 <= v < 64

  /** The character of the alphabet (RFC 4648, section 4, table 1) that encodes `v`. */
  function SextetChar(v: sextet): (c: char)
    ensures IsAlphabetChar(c)
  {
    if v < 26 then ('A' as int + v) as char
    else if v < 52 then ('a' as int + v - 26) as char
    else if v < 62 then ('0' as int + v - 52) as char
    else if v == 62 then '+'
    else '/'
  }

  predicate IsAlphabetChar(c: char) {
    'A' <= c <= 'Z' || 'a' <= c <= 'z' || '0' <= c <= '9' || c == '+' || c == '/'
  }

  predicate AllAlphabet(s: string) {
    forall i :: 0 <= i < |s| ==> IsAlphabetChar(s[i])
  }

  /** The value an alphabet character stands for. */
  function SextetValue(c: char): (v: sextet)
    requires IsAlphabetChar(c)
    ensures SextetChar(v) == c
  {
    if 'A' <= c <= 'Z' then c as int - 'A' as int
    else if 'a' <= c <= 'z' then c as int - 'a' as int + 26
    else if '0' <= c <= '9' then c as int - '0' as int + 52
    else if c == '+' then 62
    else 63
  }

  lemma SextetRoundTrip(v: sextet)
    ensures IsAlphabetChar(SextetChar(v)) && SextetValue(SextetChar(v)) == v
  {
  }

  // ---------------------------------------------------------------- encoding

  /** Three bytes as four characters. */
  function EncodeGroup(a: byte, b: byte, c: byte): (g: string)
    ensures |g| == 4 && AllAlphabet(g)
  {
    [SextetChar(a / 4), SextetChar(a % 4 * 16 + b / 16), SextetChar(b % 16 * 4 + c / 64), SextetChar(c % 64)]
  }

  /** The encoding without its trailing `=` padding: a final group of one byte gives two
      characters and one of two bytes gives three, the unused bits being zero. */
  function EncodeUnpadded(bs: seq<byte>): (s: string)
    ensures AllAlphabet(s)
    ensures |s| == (|bs| * 4 + 2) / 3 && |s| % 4 != 1
    decreases |bs|
  {
    if |bs| == 0 then ""
    else if |bs| == 1 then [SextetChar(bs[0] / 4), SextetChar(bs[0] % 4 * 16)]
    else if |bs| == 2 then
      [SextetChar(bs[0] / 4), SextetChar(bs[0] % 4 * 16 + bs[1] / 16), SextetChar(bs[1] % 16 * 4)]
    else
      GroupStepLength(|bs|);
      var rest := EncodeUnpadded(bs[3..]);
      GroupStepLength(|rest| + 4);
      var group := EncodeGroup(bs[0], bs[1], bs[2]);
      AllAlphabetConcat(group, rest);
      group + rest
  }

  lemma AllAlphabetConcat(s: string, t: string)
    requires AllAlphabet(s) && AllAlphabet(t)
    ensures AllAlphabet(s + t)
  {
    forall i | 0 <= i < |s + t| ensures IsAlphabetChar((s + t)[i]) {
      if i >= |s| {
        assert (s + t)[i] == t[i - |s|];
      }
    }
  }

  lemma GroupStepLength(n: nat)
    requires n >= 3
    ensures (n * 4 + 2) / 3 == 4 + ((n - 3) * 4 + 2) / 3
    ensures n * 3 / 4 == 3 + (n - 4) * 3 / 4
    ensures n >= 4 ==> (n - 4) % 4 == n % 4
  {
  }

  /** Base64 encoding with padding (RFC 4648, section 4): every 24-bit group becomes four
      characters and the output length is a multiple of four. */
  function Encode(bs: seq<byte>): (s: string)
    ensures |s| == 4 * ((|bs| + 2) / 3) && |s| % 4 == 0
    ensures forall i :: 0 <= i < |s| ==> IsAlphabetChar(s[i]) || s[i] == '='
  {
    EncodedLength(|bs|);
    EncodeUnpadded(bs) + (if |bs| % 3 == 1 then "==" else if |bs| % 3 == 2 then "=" else "")
  }

  /** The lengths of the unpadded and padded encodings of `n` bytes, written with the number of
      full groups `k`: `4k`, `4k + 2` or `4k + 3` characters, then padded to `4k` or `4k + 4`. */
  lemma EncodedLength(n: nat)
    ensures var k, r := n / 3, n % 3;
            && (n * 4 + 2) / 3 == 4 * k + (if r == 0 then 0 else r + 1)
            && (n + 2) / 3 == k + (if r == 0 then 0 else 1)
            && (4 * k) % 4 == 0 && (4 * k + 4) % 4 == 0
            && (4 * k + 2) % 4 == 2 && (4 * k + 3) % 4 == 3
  {
    var k, r := n / 3, n % 3;
    assert n == 3 * k + r;
  }

  // ---------------------------------------------------------------- decoding

  /** Four characters back to three bytes. */
  function DecodeGroup(w: char, x: char, y: char, z: char): seq<byte>
    requires IsAlphabetChar(w) && IsAlphabetChar(x) && IsAlphabetChar(y) && IsAlphabetChar(z)
  {
    var w, x, y, z := SextetValue(w), SextetValue(x), SextetValue(y), SextetValue(z);
    [w * 4 + x / 16, x % 16 * 16 + y / 4, y % 4 * 64 + z]
  }

  /** The bit-buffer loop of the forgiving decoder: 24 bits make three bytes; a final 12 or 18
      bits make one or two bytes, the 4 or 2 bits left over being dropped whatever they are. */
  function DecodeUnpadded(s: string): (bs: seq<byte>)
    requires AllAlphabet(s) && |s| % 4 != 1
    ensures |bs| == |s| * 3 / 4
    decreases |s|
  {
    if |s| == 0 then []
    else if |s| == 2 then [SextetValue(s[0]) * 4 + SextetValue(s[1]) / 16]
    else if |s| == 3 then
      [SextetValue(s[0]) * 4 + SextetValue(s[1]) / 16,
       SextetValue(s[1]) % 16 * 16 + SextetValue(s[2]) / 4]
    else
      GroupStepLength(|s|);
      DecodeGroup(s[0], s[1], s[2], s[3]) + DecodeUnpadded(s[4..])
  }

  /** TAB, LF, FF, CR and SPACE. */
  predicate IsAsciiWhitespace(c: char) {
    c == '\t' || c == '\n' || c as int == 0x0C || c == '\r' || c == ' '
  }

  /** The text with every ASCII whitespace character removed, the others kept in order. */
  function StripWhitespace(s: string): (r: string)
    ensures forall i :: 0 <= i < |r| ==> !IsAsciiWhitespace(r[i])
    ensures forall i :: 0 <= i < |s| && !IsAsciiWhitespace(s[i]) ==> s[i] in r
    ensures (forall i :: 0 <= i < |s| ==> !IsAsciiWhitespace(s[i])) ==> r == s
    decreases |s|
  {
    if s == [] then []
    else if IsAsciiWhitespace(s[0]) then StripWhitespace(s[1..])
    else [s[0]] + StripWhitespace(s[1..])
  }

  /** Stripping removes every whitespace character and nothing else: each other character
      occurs in the result exactly as often as in the input. */
  lemma {:induction false} StripWhitespaceCounts(s: string)
    ensures forall c :: multiset(StripWhitespace(s))[c] == if IsAsciiWhitespace(c) then 0 else multiset(s)[c]
    decreases |s|
  {
    if s != [] {
      StripWhitespaceCounts(s[1..]);
      assert s == [s[0]] + s[1..];
    }
  }

  /** Stripping works character by character, so it keeps the order of what it keeps. */
  lemma {:induction false} StripWhitespaceAppend(a: string, b: string)
    ensures StripWhitespace(a + b) == StripWhitespace(a) + StripWhitespace(b)
    decreases |a|
  {
    if a == [] {
      assert a + b == b;
    } else {
      assert (a + b)[1..] == a[1..] + b;
      StripWhitespaceAppend(a[1..], b);
    }
  }

  /** Drops one or two trailing `=`. */
  function StripPadding(s: string): (r: string)
    ensures r <= s && |s| - 2 <= |r|
    ensures forall i :: |r| <= i < |s| ==> s[i] == '='
    ensures |s| >= 2 && s[|s| - 2] == '=' && s[|s| - 1] == '=' ==> |r| == |s| - 2
    ensures |s| >= 1 && s[|s| - 1] == '=' && !(|s| >= 2 && s[|s| - 2] == '=') ==> |r| == |s| - 1
    ensures |s| == 0 || s[|s| - 1] != '=' ==> r == s
  {
    if |s| >= 2 && s[|s| - 2] == '=' && s[|s| - 1] == '=' then s[..|s| - 2]
    else if |s| >= 1 && s[|s| - 1] == '=' then s[..|s| - 1]
    else s
  }

  /** `atob(s)` as bytes: whitespace removed; with a length that is a multiple of four, one or
      two trailing `=` removed; then a length of 1 modulo 4 or any character outside the
      alphabet fails (the InvalidCharacterError that `atob` throws). */
  function Atob(s: string): (r: Option<seq<byte>>)
    ensures (exists i :: 0 <= i < |s| && !IsAlphabetChar(s[i]) && !IsAsciiWhitespace(s[i]) && s[i] != '=')
            ==> r.None?
  {
    var compact := StripWhitespace(s);
    var data := if |compact| % 4 == 0 then StripPadding(compact) else compact;
    assert (exists i :: 0 <= i < |s| && !IsAlphabetChar(s[i]) && !IsAsciiWhitespace(s[i]) && s[i] != '=')
           ==> !AllAlphabet(data) by {
      if exists i :: 0 <= i < |s| && !IsAlphabetChar(s[i]) && !IsAsciiWhitespace(s[i]) && s[i] != '=' {
        ForeignCharSurvives(s, compact, data);
      }
    }
    if |data| % 4 == 1 || !AllAlphabet(data) then None
    else Some(DecodeUnpadded(data))
  }

  /** A character outside the alphabet, whitespace and `=` is still there after whitespace
      and padding are stripped. */
  lemma ForeignCharSurvives(s: string, compact: string, data: string)
    requires compact == StripWhitespace(s)
    requires data <= compact && forall i :: |data| <= i < |compact| ==> compact[i] == '='
    requires exists i :: 0 <= i < |s| && !IsAlphabetChar(s[i]) && !IsAsciiWhitespace(s[i]) && s[i] != '='
    ensures !AllAlphabet(data)
  {
    var i :| 0 <= i < |s| && !IsAlphabetChar(s[i]) && !IsAsciiWhitespace(s[i]) && s[i] != '=';
    assert s[i] in compact;
    var j :| 0 <= j < |compact| && compact[j] == s[i];
    assert data[j] == s[i];
  }

  // ---------------------------------------------------------------- binary strings

  /** The string `atob` returns: one character per byte, the byte being its code point. */
  function BinaryString(bs: seq<byte>): (s: string)
    ensures |s| == |bs| && IsLatin1(s)
    ensures forall i :: 0 <= i < |s| ==> s[i] as int == bs[i]
  {
    seq(|bs|, i requires 0 <= i < |bs| => bs[i] as char)
  }

  /** The bytes `btoa` encodes: the code points of a string that has none above U+00FF. */
  function BinaryBytes(s: string): (bs: seq<byte>)
    requires IsLatin1(s)
    ensures BinaryString(bs) == s
  {
    seq(|s|, i requires 0 <= i < |s| => s[i] as int)
  }

  /** `btoa(s)`: None where `btoa` throws because some code point is above U+00FF. */
  function Btoa(s: string): (r: Option<string>)
    ensures r.Some? <==> IsLatin1(s)
    ensures r.Some? ==> |r.value| == 4 * ((|s| + 2) / 3)
  {
    if IsLatin1(s) then Some(Encode(BinaryBytes(s))) else None
  }

  // ---------------------------------------------------------------- round trip

  lemma GroupArithmetic(a: byte, b: byte, c: byte)
    ensures a / 4 * 4 + (a % 4 * 16 + b / 16) / 16 == a
    ensures (a % 4 * 16 + b / 16) % 16 * 16 + (b % 16 * 4 + c / 64) / 4 == b
    ensures (b % 16 * 4 + c / 64) % 4 * 64 + c % 64 == c
  {
  }

  /** Four characters of `EncodeGroup` decode to the three bytes they came from. */
  lemma GroupRoundTrip(a: byte, b: byte, c: byte)
    ensures var g := EncodeGroup(a, b, c); DecodeGroup(g[0], g[1], g[2], g[3]) == [a, b, c]
  {
    var w, x, y, z := a / 4, a % 4 * 16 + b / 16, b % 16 * 4 + c / 64, c % 64;
    var g := EncodeGroup(a, b, c);
    SextetRoundTrip(w);
    SextetRoundTrip(x);
    SextetRoundTrip(y);
    SextetRoundTrip(z);
    assert SextetValue(g[0]) == w && SextetValue(g[1]) == x;
    assert SextetValue(g[2]) == y && SextetValue(g[3]) == z;
    GroupArithmetic(a, b, c);
  }

  /** A final group of one byte survives the round trip. */
  lemma OneByteRoundTrip(a: byte)
    ensures DecodeUnpadded(EncodeUnpadded([a])) == [a]
  {
    var x, y := a / 4, a % 4 * 16;
    SextetRoundTrip(x);
    SextetRoundTrip(y);
    var s := EncodeUnpadded([a]);
    assert s == [SextetChar(x), SextetChar(y)];
    assert DecodeUnpadded(s) == [x * 4 + y / 16];
  }

  /** A final group of two bytes survives the round trip. */
  lemma TwoByteRoundTrip(a: byte, b: byte)
    ensures DecodeUnpadded(EncodeUnpadded([a, b])) == [a, b]
  {
    var x, y, z := a / 4, a % 4 * 16 + b / 16, b % 16 * 4;
    SextetRoundTrip(x);
    SextetRoundTrip(y);
    SextetRoundTrip(z);
    var s := EncodeUnpadded([a, b]);
    assert s[0] == SextetChar(x) && s[1] == SextetChar(y) && s[2] == SextetChar(z);
    PairArithmetic(a, b);
    assert DecodeUnpadded(s) == [x * 4 + y / 16, y % 16 * 16 + z / 4];
  }

  lemma PairArithmetic(a: byte, b: byte)
    ensures a / 4 * 4 + (a % 4 * 16 + b / 16) / 16 == a
    ensures (a % 4 * 16 + b / 16) % 16 * 16 + b % 16 * 4 / 4 == b
  {
  }

  /** Decoding a text that starts with a full group decodes that group first. */
  lemma DecodeUnpaddedGroup(g: string, rest: string)
    requires |g| == 4 && AllAlphabet(g) && AllAlphabet(rest) && |rest| % 4 != 1
    ensures AllAlphabet(g + rest) && |g + rest| % 4 != 1
    ensures DecodeUnpadded(g + rest) == DecodeGroup(g[0], g[1], g[2], g[3]) + DecodeUnpadded(rest)
  {
    var s := g + rest;
    assert s[4..] == rest;
    assert |s| % 4 == |rest| % 4 by {
      assert |s| == |rest| + 4;
    }
  }

  /** Decoding the encoding of three bytes followed by any decodable text gives those three
      bytes, then the decoding of the rest. */
  lemma DecodeAfterGroup(a: byte, b: byte, c: byte, rest: string)
    requires AllAlphabet(rest) && |rest| % 4 != 1
    ensures AllAlphabet(EncodeGroup(a, b, c) + rest) && |EncodeGroup(a, b, c) + rest| % 4 != 1
    ensures DecodeUnpadded(EncodeGroup(a, b, c) + rest) == [a, b, c] + DecodeUnpadded(rest)
  {
    DecodeUnpaddedGroup(EncodeGroup(a, b, c), rest);
    GroupRoundTrip(a, b, c);
  }

  lemma FirstThree(bs: seq<byte>)
    requires |bs| >= 3
    ensures bs == [bs[0], bs[1], bs[2]] + bs[3..]
  {
  }

  lemma EncodeUnpaddedGroup(bs: seq<byte>)
    requires |bs| >= 3
    ensures EncodeUnpadded(bs) == EncodeGroup(bs[0], bs[1], bs[2]) + EncodeUnpadded(bs[3..])
  {
  }

  /** One group step of the round trip: if the bytes after the first three survive it, all
      of them do. */
  lemma GroupStep(bs: seq<byte>)
    requires |bs| >= 3
    requires DecodeUnpadded(EncodeUnpadded(bs[3..])) == bs[3..]
    ensures DecodeUnpadded(EncodeUnpadded(bs)) == bs
  {
    EncodeUnpaddedGroup(bs);
    DecodeAfterGroup(bs[0], bs[1], bs[2], EncodeUnpadded(bs[3..]));
    FirstThree(bs);
  }

  lemma {:induction false} DecodeEncodeUnpadded(bs: seq<byte>)
    ensures DecodeUnpadded(EncodeUnpadded(bs)) == bs
    decreases |bs|
  {
    if |bs| == 1 {
      OneByteRoundTrip(bs[0]);
      assert bs == [bs[0]];
    } else if |bs| == 2 {
      TwoByteRoundTrip(bs[0], bs[1]);
      assert bs == [bs[0], bs[1]];
    } else if |bs| >= 3 {
      DecodeEncodeUnpadded(bs[3..]);
      GroupStep(bs);
    }
  }

  /** Padding removal takes off exactly the padding `Encode` adds. */
  lemma StripEncodePadding(bs: seq<byte>)
    ensures StripPadding(Encode(bs)) == EncodeUnpadded(bs)
  {
    var u := EncodeUnpadded(bs);
    if |bs| % 3 == 1 {
      StripTwoPads(u);
    } else if |bs| % 3 == 2 {
      StripOnePad(u);
    } else {
      assert Encode(bs) == u;
      assert |u| > 0 ==> IsAlphabetChar(u[|u| - 1]);
    }
  }

  /** Two `=` after alphabet text are both removed. */
  lemma StripTwoPads(u: string)
    ensures StripPadding(u + "==") == u
  {
    assert (u + "==")[..|u|] == u;
  }

  /** One `=` after an alphabet character is removed, and the character is kept. */
  lemma StripOnePad(u: string)
    requires |u| > 0 && IsAlphabetChar(u[|u| - 1])
    ensures StripPadding(u + "=") == u
  {
    var s := u + "=";
    assert s[|s| - 2] == u[|u| - 1];
    assert s[..|s| - 1] == u;
  }

  lemma EncodeHasNoWhitespace(bs: seq<byte>)
    ensures StripWhitespace(Encode(bs)) == Encode(bs)
  {
    var s := Encode(bs);
    forall i | 0 <= i < |s| ensures !IsAsciiWhitespace(s[i]) {
    }
  }

  /** `Atob` on a whitespace-free text of length a multiple of four whose padding hides a
      decodable text. */
  lemma AtobPadded(s: string, u: string)
    requires StripWhitespace(s) == s && |s| % 4 == 0 && StripPadding(s) == u
    requires AllAlphabet(u) && |u| % 4 != 1
    ensures Atob(s) == Some(DecodeUnpadded(u))
  {
  }

  /** `atob` undoes base64 encoding: decoding the encoding of any bytes gives them back. */
  lemma AtobEncode(bs: seq<byte>)
    ensures Atob(Encode(bs)) == Some(bs)
  {
    var s, u := Encode(bs), EncodeUnpadded(bs);
    EncodeHasNoWhitespace(bs);
    StripEncodePadding(bs);
    DecodeEncodeUnpadded(bs);
    AtobPadded(s, u);
  }
}
