/** The metadata owner: a process identity and a session name carried as lower-case hex of its
    UTF-8 bytes. */
module MetadataOwner {
  import opened Basics
  import opened Decimal
  import opened Text
  import opened Codec

  type byte = n: int | 0 <= n < 256

  // ----- UTF-8 ----------------------------------------------------------------------------------

  predicate Continuation(b: byte) {
    0x80 <= b < 0xC0
  }

  /** The length of the well-formed sequence at the head of `s`, 0 when there is none. */
  function Lead(s: seq<byte>): nat {
    if s == [] then 0
    else if s[0] < 0x80 then 1
    else if 0xC2 <= s[0] <= 0xDF && |s| >= 2 && Continuation(s[1]) then 2
    else if 0xE0 <= s[0] <= 0xEF && |s| >= 3 && Continuation(s[1]) && Continuation(s[2])
            && (s[0] == 0xE0 ==> s[1] >= 0xA0) && (s[0] == 0xED ==> s[1] < 0xA0) then 3
    else if 0xF0 <= s[0] <= 0xF4 && |s| >= 4 && Continuation(s[1]) && Continuation(s[2]) && Continuation(s[3])
            && (s[0] == 0xF0 ==> s[1] >= 0x90) && (s[0] == 0xF4 ==> s[1] < 0x90) then 4
    else 0
  }

  /** UTF-8 text without a control character (C0, DEL or C1). */
  predicate Printable(s: seq<byte>)
    decreases |s|
  {
    s != [] ==>
      && Lead(s) > 0
      && !(s[0] < 0x20 || s[0] == 0x7F)
      && !(s[0] == 0xC2 && s[1] < 0xA0)
      && Printable(s[Lead(s)..])
  }

  // ----- hex ------------------------------------------------------------------------------------

  function HexValue(c: char): nat
    requires IsHex(c)
  {
    if c <= '9' then c as int - '0' as int else c as int - 'a' as int + 10
  }

  lemma HexDigits(d: nat, c: char)
    requires d < 16
    ensures IsHex(HexDigit(d)) && HexValue(HexDigit(d)) == d
    ensures IsHex(c) ==> HexValue(c) < 16 && HexDigit(HexValue(c)) == c
  {
  }

  function Hex(s: seq<byte>): string
    decreases |s|
  {
    if s == [] then "" else [HexDigit(s[0] / 16), HexDigit(s[0] % 16)] + Hex(s[1..])
  }

  predicate HexText(t: string) {
    |t| % 2 == 0 && forall i | 0 <= i < |t| :: IsHex(t[i])
  }

  function Unhex(t: string): seq<byte>
    requires HexText(t)
    decreases |t|
  {
    if t == "" then [] else
    var b := 16 * HexValue(t[0]) + HexValue(t[1]);
    [if b < 256 then b else 0] + Unhex(t[2..])
  }

  lemma HexStep(c: char, d: char, b: byte)
    requires IsHex(c) && IsHex(d)
    ensures HexValue(c) < 16 && HexValue(d) < 16
    ensures 16 * HexValue(c) + HexValue(d) == b <==> c == HexDigit(b / 16) && d == HexDigit(b % 16)
  {
    HexDigits(b / 16, c);
    HexDigits(b % 16, d);
  }

  lemma {:induction false} HexShape(s: seq<byte>)
    ensures HexText(Hex(s)) && |Hex(s)| == 2 * |s|
    decreases |s|
  {
    if s != [] {
      HexShape(s[1..]);
      HexDigits(s[0] / 16, 'a');
      HexDigits(s[0] % 16, 'a');
    }
  }

  /** The two digits of a byte. */
  predicate Digits(c: char, d: char, b: byte) {
    c == HexDigit(b / 16) && d == HexDigit(b % 16)
  }

  lemma HeadDecoded(t: string, s: seq<byte>)
    requires HexText(t) && t != "" && s != []
    ensures HexText(t[2..])
    ensures Unhex(t) == s <==> Digits(t[0], t[1], s[0]) && Unhex(t[2..]) == s[1..]
  {
    HexStep(t[0], t[1], s[0]);
    assert s == [s[0]] + s[1..];
    assert Unhex(t) == [16 * HexValue(t[0]) + HexValue(t[1])] + Unhex(t[2..]);
  }

  lemma HeadEncoded(t: string, s: seq<byte>)
    requires |t| >= 2 && s != []
    ensures t == Hex(s) <==> Digits(t[0], t[1], s[0]) && t[2..] == Hex(s[1..])
  {
    assert t == [t[0], t[1]] + t[2..];
    assert Hex(s) == [HexDigit(s[0] / 16), HexDigit(s[0] % 16)] + Hex(s[1..]);
  }

  /** Hex decoding and encoding are inverse. */
  lemma {:induction false} HexExact(t: string, s: seq<byte>)
    ensures HexText(Hex(s)) && |Hex(s)| == 2 * |s|
    ensures HexText(t) ==> (Unhex(t) == s <==> t == Hex(s))
    decreases |s|, |t|
  {
    HexShape(s);
    if s != [] && t != "" && HexText(t) {
      HeadDecoded(t, s);
      HeadEncoded(t, s);
      HexExact(t[2..], s[1..]);
    }
  }

  // ----- the owner --------------------------------------------------------------------------------

  datatype Owner = Owner(process: ProcessIdentity, session: seq<byte>) {
    predicate Valid() { process.Valid() && 1 <= |session| <= 1024 && Printable(session) }

    function Encode(): string { process.Encode() + "|" + Hex(session) }
  }

  function ParseOwner(raw: string): Option<Owner> {
    if ByteLen(raw) > MAX_PROCESS_BYTES + 1 + 2048 then None else
    match SplitOnce(raw, '|')
    case None => None
    case Some((process, session)) =>
      match ParseProcess(process)
      case None => None
      case Some(p) =>
        if session == "" || |session| > 2048 || !HexText(session) then None
        else if !Printable(Unhex(session)) then None
        else Some(Owner.Owner(p, Unhex(session)))
  }

  lemma OwnerExact(raw: string, v: Owner)
    ensures ParseOwner(raw) == Some(v) <==> v.Valid() && raw == v.Encode()
  {
    SplitOnceExact(raw, '|', v.process.Encode(), Hex(v.session));
    HexExact(Hex(v.session), v.session);
    if v.Valid() {
      ProcessShape(v.process);
      ProcessExact(v.process.Encode(), v.process);
      HexAscii(Hex(v.session));
      Concatenated(v.process.Encode(), '|', Hex(v.session), '~');
      AsciiLength(v.Encode());
    }
    if ParseOwner(raw) == Some(v) {
      var parts := SplitOnce(raw, '|').value;
      SplitOnceExact(raw, '|', parts.0, parts.1);
      ProcessExact(parts.0, v.process);
      HexExact(parts.1, v.session);
    }
  }

  lemma HexAscii(t: string)
    requires HexText(t)
    ensures Ascii(t) && Free(t, '~')
  {
  }
}
