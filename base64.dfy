/**
 * Base 64 encoding as specified by section 4 of RFC 4648 (the standard
 * alphabet, `=` padding), which is what the browser's `btoa` produces from a
 * string of Latin-1 bytes; with the matching decoder.
 */
module Base64 {
  import opened Common
  import opened JsText

  type Byte = x: int | 0 <= x < 256
  type Sextet = x: int | 0 <= x < 64

  /** The encoding alphabet, table 1 of RFC 4648. */
  function Char(v: Sextet): (c: char)
    ensures IsAsciiAlnum(c) || c == '+' || c == '/'
  {
    if v < 26 then ('A' as int + v) as char
    else if v < 52 then ('a' as int + (v - 26)) as char
    else if v < 62 then ('0' as int + (v - 52)) as char
    else if v == 62 then '+'
    else '/'
  }

  /** The position of a character in the alphabet; `None` for `=` and every other character. */
  function SextetOf(c: char): Option<Sextet> {
    if 'A' <= c <= 'Z' then Some(c as int - 'A' as int)
    else if 'a' <= c <= 'z' then Some(c as int - 'a' as int + 26)
    else if '0' <= c <= '9' then Some(c as int - '0' as int + 52)
    else if c == '+' then Some(62)
    else if c == '/' then Some(63)
    else None
  }

  lemma SextetOfChar(v: Sextet)
    ensures SextetOf(Char(v)) == Some(v)
  {
  }

  /** Three bytes become four characters (RFC 4648 section 4, "24-bit groups"). */
  function EncodeGroup(a: Byte, b: Byte, c: Byte): string {
    [Char(a / 4), Char(a % 4 * 16 + b / 16), Char(b % 16 * 4 + c / 64), Char(c % 64)]
  }

  /** A final group of one byte: two characters and two `=`. */
  function EncodeOne(a: Byte): string {
    [Char(a / 4), Char(a % 4 * 16), '=', '=']
  }

  /** A final group of two bytes: three characters and one `=`. */
  function EncodeTwo(a: Byte, b: Byte): string {
    [Char(a / 4), Char(a % 4 * 16 + b / 16), Char(b % 16 * 4), '=']
  }

  predicate IsEncodingChar(c: char) {
    IsAsciiAlnum(c) || c == '+' || c == '/' || c == '='
  }

  /** The encoding of a byte string, with `=` padding of a final one- or two-byte group. */
  function Encode(bs: seq<Byte>): (r: string)
    ensures |r| == 4 * ((|bs| + 2) / 3)
    ensures forall k | 0 <= k < |r| :: IsEncodingChar(r[k])
    decreases |bs|
  {
    if |bs| == 0 then []
    else if |bs| == 1 then EncodeOne(bs[0])
    else if |bs| == 2 then EncodeTwo(bs[0], bs[1])
    else EncodeGroup(bs[0], bs[1], bs[2]) + Encode(bs[3..])
  }

  /** Decodes one group of four characters, of which the last one or two may be padding. */
  function DecodeGroup(g: string): Option<seq<Byte>>
    requires |g| == 4
  {
    var o0, o1, o2, o3 := SextetOf(g[0]), SextetOf(g[1]), SextetOf(g[2]), SextetOf(g[3]);
    if o0.None? || o1.None? then None
    else
      var a := o0.value * 4 + o1.value / 16;
      if g[2] == '=' && g[3] == '=' then Some([a])
      else if o2.None? then None
      else
        var b := o1.value % 16 * 16 + o2.value / 4;
        if g[3] == '=' then Some([a, b])
        else if o3.None? then None
        else Some([a, b, o2.value % 4 * 64 + o3.value])
  }

  /** Decodes a padded encoding; only the last group may carry padding. */
  function Decode(s: string): Option<seq<Byte>>
    decreases |s|
  {
    if s == [] then Some([])
    else if |s| < 4 then None
    else if |s| == 4 then DecodeGroup(s)
    else
      var g, rest := DecodeGroup(s[..4]), Decode(s[4..]);
      if g.Some? && rest.Some? && |g.value| == 3 then Some(g.value + rest.value) else None
  }

  lemma GroupRoundTrip(a: Byte, b: Byte, c: Byte)
    ensures DecodeGroup(EncodeGroup(a, b, c)) == Some([a, b, c])
  {
    var g := EncodeGroup(a, b, c);
    SextetOfChar(a / 4);
    SextetOfChar(a % 4 * 16 + b / 16);
    SextetOfChar(b % 16 * 4 + c / 64);
    SextetOfChar(c % 64);
    assert (a % 4 * 16 + b / 16) / 16 == a % 4;
    assert (a % 4 * 16 + b / 16) % 16 == b / 16;
    assert (b % 16 * 4 + c / 64) / 4 == b % 16;
    assert (b % 16 * 4 + c / 64) % 4 == c / 64;
  }

  lemma OneByteRoundTrip(a: Byte)
    ensures Decode(Encode([a])) == Some([a])
  {
    var g := [Char(a / 4), Char(a % 4 * 16), '=', '='];
    assert Encode([a]) == g;
    SextetOfChar(a / 4);
    SextetOfChar(a % 4 * 16);
    assert (a % 4 * 16) / 16 == a % 4;
    assert DecodeGroup(g) == Some([a]);
  }

  lemma TwoBytesRoundTrip(a: Byte, b: Byte)
    ensures Decode(Encode([a, b])) == Some([a, b])
  {
    var g := [Char(a / 4), Char(a % 4 * 16 + b / 16), Char(b % 16 * 4), '='];
    assert Encode([a, b]) == g;
    SextetOfChar(a / 4);
    SextetOfChar(a % 4 * 16 + b / 16);
    SextetOfChar(b % 16 * 4);
    assert (a % 4 * 16 + b / 16) / 16 == a % 4;
    assert (a % 4 * 16 + b / 16) % 16 == b / 16;
    assert (b % 16 * 4) / 4 == b % 16;
    assert DecodeGroup(g) == Some([a, b]);
  }

  lemma DecodeCons(g: string, tail: string, x: seq<Byte>, y: seq<Byte>)
    requires |g| == 4 && tail != [] && |x| == 3
    requires DecodeGroup(g) == Some(x) && Decode(tail) == Some(y)
    ensures Decode(g + tail) == Some(x + y)
  {
    var s := g + tail;
    assert s[..4] == g && s[4..] == tail;
  }

  lemma EncodeCons(bs: seq<Byte>)
    requires |bs| >= 3
    ensures Encode(bs) == EncodeGroup(bs[0], bs[1], bs[2]) + Encode(bs[3..])
  {
  }

  lemma ThreeBytesRoundTrip(bs: seq<Byte>)
    requires |bs| == 3
    ensures Decode(Encode(bs)) == Some(bs)
  {
    var g := EncodeGroup(bs[0], bs[1], bs[2]);
    EncodeCons(bs);
    GroupRoundTrip(bs[0], bs[1], bs[2]);
    assert Encode(bs[3..]) == [];
    assert Encode(bs) == g;
    assert Decode(g) == DecodeGroup(g);
    assert bs == [bs[0], bs[1], bs[2]];
  }

  lemma DecodeFullGroupThenRest(bs: seq<Byte>)
    requires |bs| > 3
    requires Decode(Encode(bs[3..])) == Some(bs[3..])
    ensures Decode(EncodeGroup(bs[0], bs[1], bs[2]) + Encode(bs[3..])) == Some([bs[0], bs[1], bs[2]] + bs[3..])
  {
    GroupRoundTrip(bs[0], bs[1], bs[2]);
    assert Encode(bs[3..]) != [];
    DecodeCons(EncodeGroup(bs[0], bs[1], bs[2]), Encode(bs[3..]), [bs[0], bs[1], bs[2]], bs[3..]);
  }

  lemma SplitFirstThree(bs: seq<Byte>)
    requires |bs| > 3
    ensures [bs[0], bs[1], bs[2]] + bs[3..] == bs
  {
  }

  lemma DecodeOfEqual(bs: seq<Byte>, s: string, y: Option<seq<Byte>>)
    requires |bs| > 3
    requires s == Encode(bs)
    requires s == EncodeGroup(bs[0], bs[1], bs[2]) + Encode(bs[3..])
    requires Decode(EncodeGroup(bs[0], bs[1], bs[2]) + Encode(bs[3..])) == y
    ensures Decode(s) == y
  {
  }

  lemma FullGroupThenRest(bs: seq<Byte>)
    requires |bs| > 3
    requires Decode(Encode(bs[3..])) == Some(bs[3..])
    ensures Decode(Encode(bs)) == Some(bs)
  {
    DecodeFullGroupThenRest(bs);
    EncodeCons(bs);
    DecodeOfEqual(bs, Encode(bs), Some([bs[0], bs[1], bs[2]] + bs[3..]));
    SplitFirstThree(bs);
  }

  /** Decoding inverts encoding: no two byte strings share an encoding. */
  lemma {:induction false} DecodeEncode(bs: seq<Byte>)
    ensures Decode(Encode(bs)) == Some(bs)
    decreases |bs|
  {
    if |bs| == 0 {
    } else if |bs| == 1 {
      assert bs == [bs[0]];
      OneByteRoundTrip(bs[0]);
    } else if |bs| == 2 {
      assert bs == [bs[0], bs[1]];
      TwoBytesRoundTrip(bs[0], bs[1]);
    } else if |bs| == 3 {
      ThreeBytesRoundTrip(bs);
    } else {
      DecodeEncode(bs[3..]);
      FullGroupThenRest(bs);
    }
  }

  /** The first eight characters of an encoding come from the first six bytes alone. */
  lemma FirstEightChars(bs: seq<Byte>)
    requires |bs| >= 6
    ensures Encode(bs)[..8] == EncodeGroup(bs[0], bs[1], bs[2]) + EncodeGroup(bs[3], bs[4], bs[5])
  {
    var rest := bs[3..];
    assert Encode(bs) == EncodeGroup(bs[0], bs[1], bs[2]) + Encode(rest);
    assert Encode(rest) == EncodeGroup(rest[0], rest[1], rest[2]) + Encode(rest[3..]);
  }
}
