/** The two escapers: printing a blob, and quoting an SQL identifier. Both can be read back. */
module Escapes {
  import opened Feed

  type byte = x: int | 0 <= x < 256

  const BACKSLASH: byte := 0x5C
  const LOWER_X: byte := 0x78
  const QUOTE := '"'

  predicate Plain(b: byte) {
    0x20 <= b <= 0x7E && b != BACKSLASH
  }

  /** An upper-case hexadecimal digit. */
  function HexDigit(n: nat): (b: byte)
    requires n < 16
  {
    if n < 10 then 0x30 + n else 0x41 + n - 10
  }

  function RenderByte(b: byte): seq<byte> {
    if Plain(b) then [b] else [BACKSLASH, LOWER_X, HexDigit(b / 16), HexDigit(b % 16)]
  }

  function Rendered(bytes: seq<byte>): seq<byte> {
    if bytes == [] then [] else Rendered(bytes[..|bytes| - 1]) + RenderByte(bytes[|bytes| - 1])
  }

  method RenderBlob(bytes: seq<byte>) returns (text: seq<byte>)
    ensures text == Rendered(bytes)
  {
    text := [];
    for i := 0 to |bytes|
      invariant text == Rendered(bytes[..i])
    {
      assert bytes[..i + 1][..i] == bytes[..i];
      var c := bytes[i];
      if 0x20 <= c <= 0x7E && c != BACKSLASH {
        text := text + [c];
      } else {
        text := text + [BACKSLASH, LOWER_X, HexDigit(c / 16), HexDigit(c % 16)];
      }
    }
    assert bytes[..|bytes|] == bytes;
  }

  const HEX := "0123456789ABCDEF"

  /** A printable byte other than a backslash stands for itself, and any other is `\x` and its two digits. */
  lemma RenderedByteIs(b: byte)
    ensures 0x20 <= b <= 0x7E && b != '\\' as int ==> RenderByte(b) == [b]
    ensures !(0x20 <= b <= 0x7E && b != '\\' as int) ==>
              && |RenderByte(b)| == 4 && RenderByte(b)[0] as char == '\\' && RenderByte(b)[1] as char == 'x'
              && RenderByte(b)[2] as char == HEX[b / 16] && RenderByte(b)[3] as char == HEX[b % 16]
  {
  }

  function HexValue(b: byte): Option<nat> {
    if 0x30 <= b <= 0x39 then Some(b - 0x30) else if 0x41 <= b <= 0x46 then Some(b - 0x41 + 10) else None
  }

  /** Reading a rendering back, one escape or plain byte at a time. */
  function Unrender(text: seq<byte>): Option<seq<byte>>
    decreases |text|
  {
    if text == [] then Some([])
    else if text[0] == BACKSLASH then
      if |text| < 4 || text[1] != LOWER_X then None
      else
        match (HexValue(text[2]), HexValue(text[3]), Unrender(text[4..]))
        case (Some(h), Some(l), Some(rest)) => if 16 * h + l < 256 then Some([16 * h + l] + rest) else None
        case _ => None
    else
      match Unrender(text[1..])
      case Some(rest) => Some([text[0]] + rest)
      case None => None
  }

  lemma UnrenderByte(b: byte, rest: seq<byte>)
    requires Unrender(rest).Some?
    ensures Unrender(RenderByte(b) + rest) == Some([b] + Unrender(rest).value)
  {
  }

  lemma {:induction false} UnrenderRendered(bytes: seq<byte>, rest: seq<byte>)
    requires Unrender(rest).Some?
    ensures Unrender(Rendered(bytes) + rest) == Some(bytes + Unrender(rest).value)
    decreases |bytes|
  {
    hide Unrender, RenderByte;
    if bytes == [] {
      assert Rendered(bytes) + rest == rest;
      assert bytes + Unrender(rest).value == Unrender(rest).value;
    } else {
      var init, b := bytes[..|bytes| - 1], bytes[|bytes| - 1];
      UnrenderByte(b, rest);
      UnrenderRendered(init, RenderByte(b) + rest);
      assert Rendered(bytes) + rest == Rendered(init) + (RenderByte(b) + rest);
      assert init + ([b] + Unrender(rest).value) == bytes + Unrender(rest).value;
    }
  }

  lemma {:induction false} RenderedIsPrintable(bytes: seq<byte>)
    ensures forall b :: b in Rendered(bytes) ==> 0x20 <= b <= 0x7E
    decreases |bytes|
  {
    if bytes != [] {
      RenderedIsPrintable(bytes[..|bytes| - 1]);
    }
  }

  /** Every byte string is read back from its rendering, which is printable throughout. */
  lemma BlobRoundTrip(bytes: seq<byte>)
    ensures Unrender(Rendered(bytes)) == Some(bytes)
    ensures forall b :: b in Rendered(bytes) ==> 0x20 <= b <= 0x7E
  {
    UnrenderRendered(bytes, []);
    assert Rendered(bytes) + [] == Rendered(bytes) && bytes + [] == bytes;
    RenderedIsPrintable(bytes);
  }

  // ---------------------------------------------------------------------------------------------

  function Doubled(s: string): string {
    if s == [] then [] else (if s[0] == QUOTE then [QUOTE, QUOTE] else [s[0]]) + Doubled(s[1..])
  }

  function QuoteIdent(s: string): string {
    [QUOTE] + Doubled(s) + [QUOTE]
  }

  /** The body of a quoted identifier: up to the first quote that is not doubled, and the text after it. */
  function ScanBody(text: string): Option<(string, string)>
    decreases |text|
  {
    if text == [] then None
    else if text[0] != QUOTE then
      match ScanBody(text[1..])
      case None => None
      case Some(r) => Some(([text[0]] + r.0, r.1))
    else if |text| > 1 && text[1] == QUOTE then
      match ScanBody(text[2..])
      case None => None
      case Some(r) => Some(([QUOTE] + r.0, r.1))
    else Some(([], text[1..]))
  }

  /** Scanning a quoted identifier as SQL does. */
  function Scan(text: string): Option<(string, string)> {
    if text != [] && text[0] == QUOTE then ScanBody(text[1..]) else None
  }

  lemma {:induction false} ScanDoubled(s: string, rest: string)
    requires rest == [] || rest[0] != QUOTE
    ensures ScanBody(Doubled(s) + [QUOTE] + rest) == Some((s, rest))
    decreases |s|
  {
    var text := Doubled(s) + [QUOTE] + rest;
    if s == [] {
      assert text[1..] == rest;
    } else {
      var tail := Doubled(s[1..]) + [QUOTE] + rest;
      ScanDoubled(s[1..], rest);
      if s[0] == QUOTE {
        assert text == [QUOTE, QUOTE] + tail;
        assert text[2..] == tail;
        assert [QUOTE] + s[1..] == s;
      } else {
        assert text == [s[0]] + tail;
        assert text[1..] == tail;
        assert [s[0]] + s[1..] == s;
      }
    }
  }

  /** A quoted identifier is scanned back whole, and the scan stops exactly at its end. */
  lemma QuoteRoundTrip(s: string, rest: string)
    requires rest == [] || rest[0] != QUOTE
    ensures Scan(QuoteIdent(s) + rest) == Some((s, rest))
  {
    ScanDoubled(s, rest);
    assert (QuoteIdent(s) + rest)[1..] == Doubled(s) + [QUOTE] + rest;
  }
}
