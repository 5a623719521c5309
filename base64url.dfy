/**
 * The "base64url" encoding of section 5 of RFC 4648 (URL- and filename-safe
 * alphabet), as Node.js's `buf.toString("base64url")` produces it: without
 * `=` padding (api/src/index.ts:55).
 * Encode is what the runtime computes; Decode is its inverse, kept to prove
 * that distinct byte strings get distinct encodings.
 */
module Base64Url {
  import opened Wrappers
  import opened Bytes

  type sextet = x: int | 0 <= x < 64

  /** The 64 characters of the URL- and filename-safe alphabet. */
  predicate IsUrlSafe(c: char) {
    'A' <= c <= 'Z' || 'a' <= c <= 'z' || '0' <= c <= '9' || c == '-' || c == '_'
  }

  /** Table 2 of RFC 4648: the character for a 6-bit value. */
  function Letter(v: sextet): (c: char)
    ensures IsUrlSafe(c)
  {
    if v < 26 then ('A' as int + v) as char
    else if v < 52 then ('a' as int + (v - 26)) as char
    else if v < 62 then ('0' as int + (v - 52)) as char
    else if v == 62 then '-'
    else '_'
  }

  /** The 6-bit value of an alphabet character; None outside the alphabet. */
  function Value(c: char): (r: Option<sextet>)
    ensures r.Some? <==> IsUrlSafe(c)
  {
    if 'A' <= c <= 'Z' then Some(c as int - 'A' as int)
    else if 'a' <= c <= 'z' then Some(c as int - 'a' as int + 26)
    else if '0' <= c <= '9' then Some(c as int - '0' as int + 52)
    else if c == '-' then Some(62)
    else if c == '_' then Some(63)
    else None
  }

  lemma ValueLetter(v: sextet)
    ensures Value(Letter(v)) == Some(v)
  {
  }

  /** Three bytes as four characters. */
  function Quad(b0: byte, b1: byte, b2: byte): string {
    [Letter(b0 / 4), Letter(b0 % 4 * 16 + b1 / 16), Letter(b1 % 16 * 4 + b2 / 64), Letter(b2 % 64)]
  }

  /**
   * The unpadded encoding: every full group of three bytes gives four
   * characters, a trailing pair gives three and a trailing single byte two.
   */
  function Encode(bs: seq<byte>): (s: string)
    ensures |s| == (4 * |bs| + 2) / 3
    ensures forall i :: 0 <= i < |s| ==> IsUrlSafe(s[i])
    decreases |bs|
  {
    if |bs| >= 3 then Quad(bs[0], bs[1], bs[2]) + Encode(bs[3..])
    else if |bs| == 2 then [Letter(bs[0] / 4), Letter(bs[0] % 4 * 16 + bs[1] / 16), Letter(bs[1] % 16 * 4)]
    else if |bs| == 1 then [Letter(bs[0] / 4), Letter(bs[0] % 4 * 16)]
    else []
  }

  /** Decodes unpadded base64url; None when a character is outside the alphabet or one is left over. */
  ghost function Decode(s: string): Option<seq<byte>>
    decreases |s|
  {
    if |s| == 0 then Some([])
    else if |s| == 1 || Value(s[0]).None? || Value(s[1]).None? then None
    else
      var v0, v1 := Value(s[0]).value, Value(s[1]).value;
      if |s| == 2 then Some([v0 * 4 + v1 / 16])
      else if Value(s[2]).None? then None
      else
        var v2 := Value(s[2]).value;
        if |s| == 3 then Some([v0 * 4 + v1 / 16, v1 % 16 * 16 + v2 / 4])
        else if Value(s[3]).None? then None
        else
          var v3 := Value(s[3]).value;
          match Decode(s[4..])
          case None => None
          case Some(rest) => Some([v0 * 4 + v1 / 16, v1 % 16 * 16 + v2 / 4, v2 % 4 * 64 + v3] + rest)
  }

  /** The bit regrouping of Quad is undone by the one in Decode. */
  lemma Regroup(b0: byte, b1: byte, b2: byte)
    ensures b0 / 4 * 4 + (b0 % 4 * 16 + b1 / 16) / 16 == b0
    ensures (b0 % 4 * 16 + b1 / 16) % 16 * 16 + (b1 % 16 * 4 + b2 / 64) / 4 == b1
    ensures (b1 % 16 * 4 + b2 / 64) % 4 * 64 + b2 % 64 == b2
  {
  }

  /** One step of Decode on a group of four alphabet characters. */
  lemma DecodeGroup(s: string)
    requires |s| >= 4
    requires Value(s[0]).Some? && Value(s[1]).Some? && Value(s[2]).Some? && Value(s[3]).Some?
    ensures
      var v0, v1, v2, v3 := Value(s[0]).value, Value(s[1]).value, Value(s[2]).value, Value(s[3]).value;
      Decode(s) ==
        match Decode(s[4..])
        case None => None
        case Some(rest) => Some([v0 * 4 + v1 / 16, v1 % 16 * 16 + v2 / 4, v2 % 4 * 64 + v3] + rest)
  {
  }

  lemma DropGroup(q: string, t: string)
    requires |q| == 4
    ensures (q + t)[4..] == t
  {
  }

  lemma DecodeQuad(b0: byte, b1: byte, b2: byte, t: string)
    ensures Decode(Quad(b0, b1, b2) + t) ==
      match Decode(t)
      case None => None
      case Some(rest) => Some([b0, b1, b2] + rest)
  {
    var s := Quad(b0, b1, b2) + t;
    var c0, c1, c2, c3 := b0 / 4, b0 % 4 * 16 + b1 / 16, b1 % 16 * 4 + b2 / 64, b2 % 64;
    assert s[0] == Letter(c0) && s[1] == Letter(c1) && s[2] == Letter(c2) && s[3] == Letter(c3);
    ValueLetter(c0);
    ValueLetter(c1);
    ValueLetter(c2);
    ValueLetter(c3);
    DropGroup(Quad(b0, b1, b2), t);
    DecodeGroup(s);
    Regroup(b0, b1, b2);
  }

  /** A trailing pair of bytes comes back from its three characters. */
  lemma DecodePair(b0: byte, b1: byte)
    ensures Decode(Encode([b0, b1])) == Some([b0, b1])
  {
    var s := Encode([b0, b1]);
    assert s == [Letter(b0 / 4), Letter(b0 % 4 * 16 + b1 / 16), Letter(b1 % 16 * 4)];
    ValueLetter(b0 / 4);
    ValueLetter(b0 % 4 * 16 + b1 / 16);
    ValueLetter(b1 % 16 * 4);
    Regroup(b0, b1, 0);
  }

  /** A trailing single byte comes back from its two characters. */
  lemma DecodeSingle(b0: byte)
    ensures Decode(Encode([b0])) == Some([b0])
  {
    var s := Encode([b0]);
    assert s == [Letter(b0 / 4), Letter(b0 % 4 * 16)];
    ValueLetter(b0 / 4);
    ValueLetter(b0 % 4 * 16);
    Regroup(b0, 0, 0);
  }

  lemma SplitThree(bs: seq<byte>)
    requires |bs| >= 3
    ensures [bs[0], bs[1], bs[2]] + bs[3..] == bs
  {
  }

  /** A full group of three bytes comes back, given that the rest does. */
  lemma DecodeEncodeStep(bs: seq<byte>)
    requires |bs| >= 3
    requires Decode(Encode(bs[3..])) == Some(bs[3..])
    ensures Decode(Encode(bs)) == Some(bs)
  {
    var t := Encode(bs[3..]);
    assert Encode(bs) == Quad(bs[0], bs[1], bs[2]) + t;
    DecodeQuad(bs[0], bs[1], bs[2], t);
    SplitThree(bs);
  }

  /** Decoding undoes encoding. */
  lemma {:induction false} DecodeEncode(bs: seq<byte>)
    ensures Decode(Encode(bs)) == Some(bs)
    decreases |bs|
  {
    if |bs| >= 3 {
      DecodeEncode(bs[3..]);
      DecodeEncodeStep(bs);
    } else if |bs| == 2 {
      assert bs == [bs[0], bs[1]];
      DecodePair(bs[0], bs[1]);
    } else if |bs| == 1 {
      assert bs == [bs[0]];
      DecodeSingle(bs[0]);
    }
  }

  lemma EncodeInjective(a: seq<byte>, b: seq<byte>)
    ensures Encode(a) == Encode(b) <==> a == b
  {
    DecodeEncode(a);
    DecodeEncode(b);
  }
}
