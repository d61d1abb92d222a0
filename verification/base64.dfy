/**
 * Base 64 as in section 4 of RFC 4648, wrapped into MIME lines (section 6.8 of
 * RFC 2045) the way Python's `base64.encodebytes` writes it: the input is cut
 * into chunks of 57 bytes, each chunk becomes one line of at most 76 symbols,
 * and every line, the last included, ends in a newline.  Decoding, like
 * `base64.b64decode` without validation, refuses text with a character outside
 * ASCII, then drops every character that is neither an alphabet symbol nor the
 * pad `=`.
 */
module Base64 {
  import opened Common
  import Text

  /** A 6-bit value, the weight of one symbol. */
  type sextet = x: int | 0 <= x < 64

  /** Bytes per MIME line: 76 symbols encode 57 bytes. */
  const LineBytes: nat := 57

  /** The symbol for a 6-bit value (the table of section 4 of RFC 4648). */
  function Symbol(v: sextet): char
  {
    if v < 26 then ('A' as int + v) as char
    else if v < 52 then ('a' as int + (v - 26)) as char
    else if v < 62 then ('0' as int + (v - 52)) as char
    else if v == 62 then '+'
    else '/'
  }

  predicate IsSymbol(c: char) {
    ('A' <= c <= 'Z') || ('a' <= c <= 'z') || ('0' <= c <= '9') || c == '+' || c == '/'
  }

  /** The 6-bit value of a symbol, the inverse of `Symbol`. */
  function Value(c: char): (v: sextet)
    requires IsSymbol(c)
    ensures Symbol(v) == c
  {
    if 'A' <= c <= 'Z' then c as int - 'A' as int
    else if 'a' <= c <= 'z' then c as int - 'a' as int + 26
    else if '0' <= c <= '9' then c as int - '0' as int + 52
    else if c == '+' then 62
    else 63
  }

  /** Every value has a symbol, that symbol is never the pad, and decoding it gives the value back. */
  lemma ValueOfSymbol(v: sextet)
    ensures IsSymbol(Symbol(v)) && Symbol(v) != '='
    ensures Value(Symbol(v)) == v
  {
  }

  /** Three bytes as four symbols. */
  function EncodeTriple(b0: byte, b1: byte, b2: byte): string
  {
    [Symbol(b0 / 4), Symbol((b0 % 4) * 16 + b1 / 16), Symbol((b1 % 16) * 4 + b2 / 64), Symbol(b2 % 64)]
  }

  /** Four symbols' values as three bytes. */
  function DecodeQuad(c0: sextet, c1: sextet, c2: sextet, c3: sextet): seq<byte>
  {
    [c0 * 4 + c1 / 16, (c1 % 16) * 16 + c2 / 4, (c2 % 4) * 64 + c3]
  }

  /** The unwrapped encoding: one quad per three bytes, the last group padded with `=`; 4 * ceil(n / 3) symbols for n bytes. */
  function Encode(b: seq<byte>): (s: string)
    ensures |s| == (|b| + 2) / 3 * 4
    decreases |b|
  {
    if |b| < 3 then EncodeTail(b)
    else
      assert (|b| + 2) / 3 == (|b[3..]| + 2) / 3 + 1;
      EncodeTriple(b[0], b[1], b[2]) + Encode(b[3..])
  }

  /** The last, short group: nothing, or one quad padded with `=`. */
  function EncodeTail(b: seq<byte>): string
    requires |b| < 3
  {
    if |b| == 0 then ""
    else if |b| == 1 then [Symbol(b[0] / 4), Symbol((b[0] % 4) * 16), '=', '=']
    else [Symbol(b[0] / 4), Symbol((b[0] % 4) * 16 + b[1] / 16), Symbol((b[1] % 16) * 4), '=']
  }

  /** Strict decoding of unwrapped text; `None` on anything that is not whole, well-padded quads. */
  function Decode(s: string): (r: Option<seq<byte>>)
    ensures r.Some? ==> |r.value| * 4 <= |s| * 3
    decreases |s|
  {
    if |s| == 0 then Some([])
    else if |s| < 4 || !IsSymbol(s[0]) || !IsSymbol(s[1]) then None
    else if |s| == 4 && s[2] == '=' && s[3] == '=' then
      Some([Value(s[0]) * 4 + Value(s[1]) / 16])
    else if !IsSymbol(s[2]) then None
    else if |s| == 4 && s[3] == '=' then
      Some([Value(s[0]) * 4 + Value(s[1]) / 16, (Value(s[1]) % 16) * 16 + Value(s[2]) / 4])
    else if !IsSymbol(s[3]) then None
    else
      match Decode(s[4..])
      case None => None
      case Some(rest) => Some(DecodeQuad(Value(s[0]), Value(s[1]), Value(s[2]), Value(s[3])) + rest)
  }

  /** `base64.encodebytes`: the encoding cut into MIME lines of 57 bytes, each ending in a newline. */
  function EncodeLines(b: seq<byte>): (s: string)
    ensures MimeText(s)
    ensures |b| > 0 ==> |s| > 0 && s[|s| - 1] == '\n'
    decreases |b|
  {
    if |b| == 0 then ""
    else if |b| <= LineBytes then
      EncodeAlphabet(b);
      Encode(b) + "\n"
    else
      EncodeAlphabet(b[..LineBytes]);
      Encode(b[..LineBytes]) + "\n" + EncodeLines(b[LineBytes..])
  }

  /** Text made of alphabet symbols, pads and line breaks only. */
  predicate MimeText(s: string) {
    forall i :: 0 <= i < |s| ==> IsSymbol(s[i]) || s[i] == '=' || s[i] == '\n'
  }

  /** Every character is ASCII, as `str.encode('ascii')` demands. */
  predicate Ascii(s: string) {
    forall i :: 0 <= i < |s| ==> s[i] as int < 128
  }

  /** The characters the decoder looks at: alphabet symbols and the pad. */
  function Strip(s: string): (t: string)
    ensures forall i :: 0 <= i < |t| ==> IsSymbol(t[i]) || t[i] == '='
    ensures |t| <= |s|
    decreases |s|
  {
    if |s| == 0 then ""
    else if IsSymbol(s[|s| - 1]) || s[|s| - 1] == '=' then Strip(s[..|s| - 1]) + [s[|s| - 1]]
    else Strip(s[..|s| - 1])
  }

  /**
   * `base64.b64decode` of the stored text: refuse text that is not ASCII, skip line
   * breaks and other noise, then decode.  At most three bytes come out per four characters.
   */
  function DecodeText(s: string): (r: Option<seq<byte>>)
    ensures r.Some? ==> Ascii(s)
    ensures r.Some? ==> |r.value| * 4 <= |s| * 3
  {
    if Ascii(s) then Decode(Strip(s)) else None
  }

  /** Text with a character outside ASCII is refused even where the rest is valid base 64. */
  lemma NonAsciiRefused()
    ensures DecodeText("\U{E9}QQ==") == None && DecodeText("QQ==\n") == Some([65])
  {
    assert "\U{E9}QQ=="[0] as int == 0xE9;
    assert Strip("QQ==\n") == "QQ==" by {
      assert "QQ==\n"[..4] == "QQ==";
      StripKeeps("QQ==");
    }
  }

  /** The three bytes of a full group come back from its four symbols. */
  lemma TripleRoundTrip(b0: byte, b1: byte, b2: byte)
    ensures DecodeQuad(b0 / 4, (b0 % 4) * 16 + b1 / 16, (b1 % 16) * 4 + b2 / 64, b2 % 64) == [b0, b1, b2]
  {
    assert ((b0 % 4) * 16 + b1 / 16) / 16 == b0 % 4;
    assert ((b0 % 4) * 16 + b1 / 16) % 16 == b1 / 16;
    assert ((b1 % 16) * 4 + b2 / 64) / 4 == b1 % 16;
    assert ((b1 % 16) * 4 + b2 / 64) % 4 == b2 / 64;
  }

  /** A single byte comes back from its padded quad. */
  lemma DecodeSingle(b0: byte)
    ensures Decode(Encode([b0])) == Some([b0])
  {
    ValueOfSymbol(b0 / 4);
    ValueOfSymbol((b0 % 4) * 16);
    assert ((b0 % 4) * 16) / 16 == b0 % 4;
  }

  /** Two bytes come back from their padded quad. */
  lemma DecodePair(b0: byte, b1: byte)
    ensures Decode(Encode([b0, b1])) == Some([b0, b1])
  {
    ValueOfSymbol(b0 / 4);
    ValueOfSymbol((b0 % 4) * 16 + b1 / 16);
    ValueOfSymbol((b1 % 16) * 4);
    assert ((b0 % 4) * 16 + b1 / 16) / 16 == b0 % 4;
    assert ((b0 % 4) * 16 + b1 / 16) % 16 == b1 / 16;
  }

  /** A full quad followed by more text decodes to its three bytes followed by the rest's. */
  lemma DecodeTripleThen(b0: byte, b1: byte, b2: byte, rest: string)
    ensures Decode(EncodeTriple(b0, b1, b2) + rest) ==
      match Decode(rest)
      case None => None
      case Some(tail) => Some([b0, b1, b2] + tail)
  {
    var q := EncodeTriple(b0, b1, b2);
    var s := q + rest;
    ValueOfSymbol(b0 / 4);
    ValueOfSymbol((b0 % 4) * 16 + b1 / 16);
    ValueOfSymbol((b1 % 16) * 4 + b2 / 64);
    ValueOfSymbol(b2 % 64);
    assert s[0] == q[0] && s[1] == q[1] && s[2] == q[2] && s[3] == q[3];
    assert s[4..] == rest;
    DecodeQuadThen(s);
    TripleRoundTrip(b0, b1, b2);
  }

  /** Four symbols in front decode as one group, followed by what the rest decodes to. */
  lemma DecodeQuadThen(s: string)
    requires |s| >= 4 && IsSymbol(s[0]) && IsSymbol(s[1]) && IsSymbol(s[2]) && IsSymbol(s[3])
    ensures Decode(s) ==
      match Decode(s[4..])
      case None => None
      case Some(tail) => Some(DecodeQuad(Value(s[0]), Value(s[1]), Value(s[2]), Value(s[3])) + tail)
  {
  }

  /** Decoding undoes the unwrapped encoding, for every byte string. */
  lemma {:induction false} DecodeEncode(b: seq<byte>)
    ensures Decode(Encode(b)) == Some(b)
    decreases |b|
  {
    if |b| == 1 {
      DecodeSingle(b[0]);
      assert b == [b[0]];
    } else if |b| == 2 {
      DecodePair(b[0], b[1]);
      assert b == [b[0], b[1]];
    } else if |b| > 2 {
      DecodeEncode(b[3..]);
      EncodeGroup(b);
      DecodeGroupThen(b, Encode(b[3..]), Encode(b));
    }
  }

  /** A quad of three bytes followed by the text of the rest decodes to all of them. */
  lemma DecodeGroupThen(b: seq<byte>, rest: string, s: string)
    requires |b| >= 3 && s == EncodeTriple(b[0], b[1], b[2]) + rest && Decode(rest) == Some(b[3..])
    ensures Decode(s) == Some(b)
  {
    DecodeTripleThen(b[0], b[1], b[2], rest);
    assert b == [b[0], b[1], b[2]] + b[3..];
  }

  /** A text of three bytes or more starts with the quad of its first three bytes. */
  lemma EncodeGroup(b: seq<byte>)
    requires |b| >= 3
    ensures Encode(b) == EncodeTriple(b[0], b[1], b[2]) + Encode(b[3..])
  {
  }

  /** The first quad of a longer text depends only on its first three bytes. */
  lemma EncodeAppendStep(a: seq<byte>, b: seq<byte>)
    requires |a| >= 3
    ensures Encode(a + b) == EncodeTriple(a[0], a[1], a[2]) + Encode(a[3..] + b)
  {
    var ab := a + b;
    EncodeGroup(ab);
    assert ab[0] == a[0] && ab[1] == a[1] && ab[2] == a[2];
    assert ab[3..] == a[3..] + b;
  }

  /** Concatenation is associative; stated over plain strings so that `EncodeAppend` regroups without unfolding `Encode`. */
  lemma Regroup(x: string, y: string, z: string)
    ensures x + (y + z) == (x + y) + z
  {
  }

  /** Whole groups encode independently of what follows them. */
  lemma {:induction false} EncodeAppend(a: seq<byte>, b: seq<byte>, groups: nat)
    requires |a| == 3 * groups
    ensures Encode(a + b) == Encode(a) + Encode(b)
    decreases groups
  {
    if groups == 0 {
      assert a + b == b;
    } else {
      var quad := EncodeTriple(a[0], a[1], a[2]);
      EncodeAppendStep(a, b);
      EncodeAppend(a[3..], b, groups - 1);
      EncodeGroup(a);
      Regroup(quad, Encode(a[3..]), Encode(b));
    }
  }

  /** The decoder's filter distributes over concatenation. */
  lemma {:induction false} StripAppend(s: string, t: string)
    ensures Strip(s + t) == Strip(s) + Strip(t)
    decreases |t|
  {
    if |t| == 0 {
      assert s + t == s;
    } else {
      var u := t[..|t| - 1];
      assert (s + t)[..|s + t| - 1] == s + u;
      StripAppend(s, u);
    }
  }

  /** The filter keeps text made only of symbols and pads as it is. */
  lemma {:induction false} StripKeeps(s: string)
    requires forall i :: 0 <= i < |s| ==> IsSymbol(s[i]) || s[i] == '='
    ensures Strip(s) == s
    decreases |s|
  {
    if |s| > 0 {
      StripKeeps(s[..|s| - 1]);
    }
  }

  /** The encoding is made of symbols and pads only. */
  lemma {:induction false} EncodeAlphabet(b: seq<byte>)
    ensures forall i :: 0 <= i < |Encode(b)| ==> IsSymbol(Encode(b)[i]) || Encode(b)[i] == '='
    decreases |b|
  {
    if |b| > 2 {
      EncodeAlphabet(b[3..]);
      ValueOfSymbol(b[0] / 4);
      ValueOfSymbol((b[0] % 4) * 16 + b[1] / 16);
      ValueOfSymbol((b[1] % 16) * 4 + b[2] / 64);
      ValueOfSymbol(b[2] % 64);
    } else if |b| == 2 {
      ValueOfSymbol(b[0] / 4);
      ValueOfSymbol((b[0] % 4) * 16 + b[1] / 16);
      ValueOfSymbol((b[1] % 16) * 4);
    } else if |b| == 1 {
      ValueOfSymbol(b[0] / 4);
      ValueOfSymbol((b[0] % 4) * 16);
    }
  }

  /** Dropping the line breaks from the MIME form leaves the unwrapped encoding. */
  lemma {:induction false} StripLines(b: seq<byte>)
    ensures Strip(EncodeLines(b)) == Encode(b)
    decreases |b|
  {
    assert Strip("\n") == "";
    if |b| == 0 {
    } else if |b| <= LineBytes {
      EncodeAlphabet(b);
      StripAppend(Encode(b), "\n");
      StripKeeps(Encode(b));
    } else {
      var head, tail := b[..LineBytes], b[LineBytes..];
      EncodeAlphabet(head);
      StripKeeps(Encode(head));
      StripAppend(Encode(head), "\n");
      StripAppend(Encode(head) + "\n", EncodeLines(tail));
      StripLines(tail);
      assert b == head + tail;
      EncodeAppend(head, tail, 19);
    }
  }

  /** `b64decode(encodebytes(b)) == b`: the stored text gives back the exact bytes. */
  lemma EncodeLinesRoundTrip(b: seq<byte>)
    ensures DecodeText(EncodeLines(b)) == Some(b)
  {
    StripLines(b);
    DecodeEncode(b);
  }

  /** The encoding holds no line break. */
  lemma NoLineBreak(b: seq<byte>)
    ensures '\n' !in Encode(b)
  {
    EncodeAlphabet(b);
  }

  /** One chunk of at most 57 bytes is at most 76 symbols. */
  lemma ChunkLength(b: seq<byte>)
    requires |b| <= LineBytes
    ensures |Encode(b)| <= 76
  {
    assert (|b| + 2) / 3 <= 19;
  }

  /** No line of the MIME form is longer than 76 symbols (section 6.8 of RFC 2045). */
  lemma {:induction false} LinesAtMost76(b: seq<byte>)
    ensures forall i :: 0 <= i < |Text.Split(EncodeLines(b), "\n")| ==> |Text.Split(EncodeLines(b), "\n")[i]| <= 76
    decreases |b|
  {
    if |b| == 0 {
      NoLines();
    } else if |b| <= LineBytes {
      NoLineBreak(b);
      ChunkLength(b);
      NoLines();
      assert EncodeLines(b) == Encode(b) + "\n" + "";
      LineThen(Encode(b), "");
    } else {
      var head, tail := b[..LineBytes], b[LineBytes..];
      NoLineBreak(head);
      ChunkLength(head);
      LinesAtMost76(tail);
      LineThen(Encode(head), EncodeLines(tail));
    }
  }

  /** The empty text is one empty line. */
  lemma NoLines()
    ensures Text.Split("", "\n") == [""]
  {
    Text.ContainsChar("", '\n');
    Text.SplitFree("", "\n");
  }

  /** A short line without a break, a break, then text of short lines: every line is short. */
  lemma LineThen(line: string, rest: string)
    requires '\n' !in line && |line| <= 76
    requires forall i :: 0 <= i < |Text.Split(rest, "\n")| ==> |Text.Split(rest, "\n")[i]| <= 76
    ensures forall i :: 0 <= i < |Text.Split(line + "\n" + rest, "\n")| ==> |Text.Split(line + "\n" + rest, "\n")[i]| <= 76
  {
    Text.SplitAtChar(line, '\n', rest);
  }
}
