/** UTF-8 (RFC 3629): the bytes of a text, and what the byte-level checks make of them. */
module Utf8 {
  import opened Basics
  import opened Text
  import opened MetadataOwner

  function EncodeChar(c: char): seq<byte> {
    var v := c as int;
    if v < 0x80 then [v]
    else if v < 0x800 then [0xC0 + v / 64, 0x80 + v % 64]
    else if v < 0x10000 then [0xE0 + v / 4096, 0x80 + v / 64 % 64, 0x80 + v % 64]
    else [0xF0 + v / 262144, 0x80 + v / 4096 % 64, 0x80 + v / 64 % 64, 0x80 + v % 64]
  }

  function Encode(text: string): seq<byte>
    decreases |text|
  {
    if text == "" then [] else EncodeChar(text[0]) + Encode(text[1..])
  }

  lemma Halves(v: nat)
    ensures v == v / 64 * 64 + v % 64
    ensures v / 64 / 64 == v / 4096 && v / 4096 / 64 == v / 262144
    ensures v / 64 == v / 4096 * 64 + v / 64 % 64 && v / 4096 == v / 262144 * 64 + v / 4096 % 64
  {
  }

  /** The bytes of a character are one well-formed sequence, as long as `str::len` counts them. */
  lemma EncodedLeads(c: char, rest: seq<byte>)
    ensures Lead(EncodeChar(c) + rest) == |EncodeChar(c)| == Utf8Width(c)
  {
    var v := c as int;
    Halves(v);
    var s := EncodeChar(c) + rest;
    assert forall i | 0 <= i < |EncodeChar(c)| :: s[i] == EncodeChar(c)[i];
  }

  lemma Digits2(a: int, b: int)
    requires 0 <= a && 0 <= b < 64
    ensures (a * 64 + b) / 64 == a && (a * 64 + b) % 64 == b
  {
  }

  lemma Digits3(a: int, b: int, c: int)
    requires 0 <= a && 0 <= b < 64 && 0 <= c < 64
    ensures var v := a * 4096 + b * 64 + c;
      v / 4096 == a && v / 64 % 64 == b && v % 64 == c
  {
    Digits2(a, b);
    Digits2(a * 64 + b, c);
  }

  lemma Digits4(a: int, b: int, c: int, d: int)
    requires 0 <= a && 0 <= b < 64 && 0 <= c < 64 && 0 <= d < 64
    ensures var v := a * 262144 + b * 4096 + c * 64 + d;
      v / 262144 == a && v / 4096 % 64 == b && v / 64 % 64 == c && v % 64 == d
  {
    Digits3(a, b, c);
    Digits2(a * 4096 + b * 64 + c, d);
  }

  /** And every well-formed sequence is the bytes of a character. */
  lemma LeadIsEncoded(s: seq<byte>) returns (c: char)
    requires Lead(s) > 0
    ensures Lead(s) <= |s| && s[..Lead(s)] == EncodeChar(c)
  {
    if Lead(s) == 1 {
      c := s[0] as char;
    } else if Lead(s) == 2 {
      var a: int, b: int := s[0], s[1];
      Digits2(a - 0xC0, b - 0x80);
      c := ((a - 0xC0) * 64 + (b - 0x80)) as char;
    } else if Lead(s) == 3 {
      c := Three(s[0], s[1], s[2]);
    } else {
      c := Four(s[0], s[1], s[2], s[3]);
    }
  }

  lemma Three(x: int, y: int, z: int) returns (c: char)
    requires 0xE0 <= x <= 0xEF && 0x80 <= y < 0xC0 && 0x80 <= z < 0xC0
    requires (x == 0xE0 ==> y >= 0xA0) && (x == 0xED ==> y < 0xA0)
    ensures EncodeChar(c) == [x, y, z]
  {
    Digits3(x - 0xE0, y - 0x80, z - 0x80);
    c := ((x - 0xE0) * 4096 + (y - 0x80) * 64 + (z - 0x80)) as char;
  }

  lemma Four(w: int, x: int, y: int, z: int) returns (c: char)
    requires 0xF0 <= w <= 0xF4 && 0x80 <= x < 0xC0 && 0x80 <= y < 0xC0 && 0x80 <= z < 0xC0
    requires (w == 0xF0 ==> x >= 0x90) && (w == 0xF4 ==> x < 0x90)
    ensures EncodeChar(c) == [w, x, y, z]
  {
    Digits4(w - 0xF0, x - 0x80, y - 0x80, z - 0x80);
    c := ((w - 0xF0) * 262144 + (x - 0x80) * 4096 + (y - 0x80) * 64 + (z - 0x80)) as char;
  }

  lemma {:induction false} EncodedLength(text: string)
    ensures |Encode(text)| == ByteLen(text)
    decreases |text|
  {
    if text != "" {
      EncodedLeads(text[0], []);
      EncodedLength(text[1..]);
    }
  }

  lemma ControlLeads(c: char, rest: seq<byte>)
    ensures var s := EncodeChar(c) + rest;
      IsControl(c) <==> s[0] < 0x20 || s[0] == 0x7F || (s[0] == 0xC2 && s[1] < 0xA0)
  {
    Halves(c as int);
  }

  /** A session is printable if and only if its bytes are those of a text without control characters. */
  lemma {:induction false} PrintableExactly(s: seq<byte>) returns (text: string)
    ensures Printable(s) ==> s == Encode(text) && forall i | 0 <= i < |text| :: !IsControl(text[i])
    decreases |s|
  {
    text := "";
    if s != [] && Printable(s) {
      var c := LeadIsEncoded(s);
      var rest := s[Lead(s)..];
      assert s == EncodeChar(c) + rest;
      ControlLeads(c, rest);
      var tail := PrintableExactly(rest);
      text := [c] + tail;
      assert text[1..] == tail;
    }
  }

  lemma {:induction false} TextPrints(text: string)
    ensures Printable(Encode(text)) <==> forall i | 0 <= i < |text| :: !IsControl(text[i])
    decreases |text|
  {
    if text != "" {
      var rest := Encode(text[1..]);
      var s := EncodeChar(text[0]) + rest;
      EncodedLeads(text[0], rest);
      ControlLeads(text[0], rest);
      TextPrints(text[1..]);
      assert s[Lead(s)..] == rest;
      assert (forall i | 0 <= i < |text| :: !IsControl(text[i])) <==>
        !IsControl(text[0]) && forall i | 0 <= i < |text[1..]| :: !IsControl(text[1..][i]) by {
        assert forall i | 0 < i < |text| :: text[i] == text[1..][i - 1];
      }
    }
  }

  /** The white space of Unicode, character by character. */
  lemma WhitespaceExactly(c: char)
    ensures IsWhitespace(c) <==> c in "\t\n\U{b}\U{c}\r \U{85}\U{a0}\U{1680}" || '\U{2000}' <= c <= '\U{200a}'
                                 || c in "\U{2028}\U{2029}\U{202f}\U{205f}\U{3000}"
  {
  }
}
