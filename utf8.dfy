/**
 * UTF-8, as Python's `str.encode("utf-8")` produces it, and a strict decoder
 * that undoes it. The output store keeps placed words in this encoding so that
 * non-ASCII text survives the array container.
 */
module Utf8 {
  import opened Strings

  newtype byte = b: int | 0 <= b < 256

  /** A continuation byte 10xxxxxx. */
  predicate IsCont(b: byte) {
    0x80 <= b < 0xC0
  }

  /** The bytes of one Unicode scalar value (one to four of them). */
  function EncodeChar(c: char): (r: seq<byte>)
    ensures 1 <= |r| <= 4
    ensures (|r| == 1) == (c as int < 0x80)
    ensures forall k :: 1 <= k < |r| ==> IsCont(r[k])
  {
    var cp := c as int;
    if cp < 0x80 then [cp as byte]
    else if cp < 0x800 then [(0xC0 + cp / 64) as byte, (0x80 + cp % 64) as byte]
    else if cp < 0x10000 then
      [(0xE0 + cp / 4096) as byte, (0x80 + (cp / 64) % 64) as byte, (0x80 + cp % 64) as byte]
    else
      [(0xF0 + cp / 262144) as byte, (0x80 + (cp / 4096) % 64) as byte,
       (0x80 + (cp / 64) % 64) as byte, (0x80 + cp % 64) as byte]
  }

  /** `s.encode("utf-8")`; every Dafny char is a scalar value, so "ignore" drops nothing. */
  function Encode(s: string): (r: seq<byte>)
    ensures |s| <= |r| <= 4 * |s|
    decreases |s|
  {
    if |s| == 0 then [] else EncodeChar(s[0]) + Encode(s[1..])
  }

  /** Decodes the first scalar value of `b`: the character and how many bytes it used. */
  function DecodeFirst(b: seq<byte>): (r: Option<(char, nat)>)
    ensures r.Some? ==> 1 <= r.value.1 <= |b| && r.value.1 <= 4
  {
    if |b| == 0 then None
    else if b[0] < 0x80 then Some(((b[0] as int) as char, 1))
    else if 0xC2 <= b[0] < 0xE0 then
      if |b| < 2 || !IsCont(b[1]) then None
      else
        var cp := (b[0] as int - 0xC0) * 64 + (b[1] as int - 0x80);
        Some((cp as char, 2))
    else if 0xE0 <= b[0] < 0xF0 then
      if |b| < 3 || !IsCont(b[1]) || !IsCont(b[2]) then None
      else
        var cp := (b[0] as int - 0xE0) * 4096 + (b[1] as int - 0x80) * 64 + (b[2] as int - 0x80);
        if cp < 0x800 || (0xD800 <= cp < 0xE000) then None else Some((cp as char, 3))
    else if 0xF0 <= b[0] < 0xF5 then
      if |b| < 4 || !IsCont(b[1]) || !IsCont(b[2]) || !IsCont(b[3]) then None
      else
        var cp := (b[0] as int - 0xF0) * 262144 + (b[1] as int - 0x80) * 4096
                  + (b[2] as int - 0x80) * 64 + (b[3] as int - 0x80);
        if cp < 0x10000 || cp > 0x10FFFF then None else Some((cp as char, 4))
    else None
  }

  /** Strict UTF-8 decoding: None on any malformed, overlong or surrogate sequence. */
  function Decode(b: seq<byte>): (r: Option<string>)
    ensures r.Some? ==> |r.value| <= |b|
    decreases |b|
  {
    if |b| == 0 then Some([])
    else match DecodeFirst(b)
      case None => None
      case Some((c, n)) =>
        match Decode(b[n..])
        case None => None
        case Some(rest) => Some([c] + rest)
  }

  /** The decoder reads back exactly the character the encoder wrote, whatever follows. */
  lemma DecodeFirstEncodeChar(c: char, rest: seq<byte>)
    ensures DecodeFirst(EncodeChar(c) + rest) == Some((c, |EncodeChar(c)|))
  {
    var cp := c as int;
    var b := EncodeChar(c) + rest;
    if cp < 0x80 {
    } else if cp < 0x800 {
      assert b[0] as int == 0xC0 + cp / 64 && b[1] as int == 0x80 + cp % 64;
      assert (cp / 64) * 64 + cp % 64 == cp;
    } else if cp < 0x10000 {
      assert b[0] as int == 0xE0 + cp / 4096;
      assert b[1] as int == 0x80 + (cp / 64) % 64;
      assert b[2] as int == 0x80 + cp % 64;
      DivSplit(cp);
    } else {
      assert b[0] as int == 0xF0 + cp / 262144;
      assert b[1] as int == 0x80 + (cp / 4096) % 64;
      assert b[2] as int == 0x80 + (cp / 64) % 64;
      assert b[3] as int == 0x80 + cp % 64;
      DivSplit(cp);
      DivSplit(cp / 64);
      assert cp / 64 / 4096 == cp / 262144;
    }
  }

  /** A number is recovered from its base-64 digits. */
  lemma DivSplit(x: nat)
    ensures x / 4096 * 4096 + (x / 64) % 64 * 64 + x % 64 == x
    ensures x / 64 / 64 == x / 4096
  {
    assert x == (x / 64) * 64 + x % 64;
    assert x / 64 == (x / 64 / 64) * 64 + (x / 64) % 64;
  }

  /** Round trip: decoding the encoding of any text gives the text back. */
  lemma {:induction false} DecodeEncode(s: string)
    ensures Decode(Encode(s)) == Some(s)
    decreases |s|
  {
    if |s| > 0 {
      var e := EncodeChar(s[0]);
      DecodeFirstEncodeChar(s[0], Encode(s[1..]));
      assert (e + Encode(s[1..]))[|e|..] == Encode(s[1..]);
      DecodeEncode(s[1..]);
      assert [s[0]] + s[1..] == s;
    }
  }

  /** Python's `[n.encode("utf-8", "ignore") for n in L]`: one byte string per word, in order. */
  function EncodeAll(words: seq<string>): (r: seq<seq<byte>>)
    ensures |r| == |words|
    ensures forall k :: 0 <= k < |words| ==> r[k] == Encode(words[k])
  {
    seq(|words|, k requires 0 <= k < |words| => Encode(words[k]))
  }

  /** Decodes each word of a stored list, failing if any one is malformed. */
  function DecodeAll(stored: seq<seq<byte>>): (r: Option<seq<string>>)
    ensures r.Some? ==> |r.value| == |stored|
    decreases |stored|
  {
    if |stored| == 0 then Some([])
    else match Decode(stored[0])
      case None => None
      case Some(w) =>
        match DecodeAll(stored[1..])
        case None => None
        case Some(ws) => Some([w] + ws)
  }

  /** Round trip of a whole word list: non-ASCII words come back unchanged and in order. */
  lemma {:induction false} DecodeAllEncodeAll(words: seq<string>)
    ensures DecodeAll(EncodeAll(words)) == Some(words)
    decreases |words|
  {
    if |words| > 0 {
      DecodeEncode(words[0]);
      assert EncodeAll(words)[1..] == EncodeAll(words[1..]);
      DecodeAllEncodeAll(words[1..]);
      assert [words[0]] + words[1..] == words;
    }
  }
}
