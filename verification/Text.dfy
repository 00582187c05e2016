/** String operations shared by the codecs and the scanners: first occurrence, splitting and
    joining on a separator, whitespace and UTF-8 length. */
module Text {
  import opened Basics

  lemma Regroup<T>(a: seq<T>, b: seq<T>, c: seq<T>)
    ensures a + b + c == a + (b + c)
  {
  }

  lemma Associate<T>(a: seq<T>, b: seq<T>, c: seq<T>, d: seq<T>)
    ensures a + b + c + d == a + (b + c + d)
  {
  }

  /** A lower-case hexadecimal digit. */
  function HexDigit(d: nat): char
    requires d < 16
  {
    if d < 10 then ('0' as int + d) as char else ('a' as int + d - 10) as char
  }

  /** The index of the first occurrence of `needle`. */
  function Find(s: string, needle: string): Option<nat>
    decreases |s|
  {
    if needle <= s then Some(0)
    else if s == "" then None
    else match Find(s[1..], needle)
      case None => None
      case Some(i) => Some(i + 1)
  }

  lemma {:induction false} FindMeaning(s: string, needle: string)
    ensures var found := Find(s, needle);
      && (found.Some? ==> found.value + |needle| <= |s| && s[found.value..found.value + |needle|] == needle)
    decreases |s|
  {
    if !(needle <= s) && s != "" {
      FindMeaning(s[1..], needle);
      var found := Find(s[1..], needle);
      if found.Some? {
        assert s[found.value + 1..found.value + 1 + |needle|] == s[1..][found.value..found.value + |needle|];
      }
    }
  }

  predicate OccursAt(s: string, needle: string, at: nat) {
    at + |needle| <= |s| && s[at..at + |needle|] == needle
  }

  lemma {:induction false} FindExact(s: string, needle: string)
    ensures Find(s, needle).Some? <==> exists at: nat :: OccursAt(s, needle, at)
    ensures forall at: nat | OccursAt(s, needle, at) :: Find(s, needle).value <= at
    decreases |s|
  {
    FindMeaning(s, needle);
    if Find(s, needle).Some? { assert OccursAt(s, needle, Find(s, needle).value); }
    if needle <= s {
    } else if s != "" {
      FindExact(s[1..], needle);
      forall at: nat | OccursAt(s, needle, at)
        ensures Find(s, needle).Some? && Find(s, needle).value <= at
      {
        assert at > 0;
        assert s[1..][at - 1..at - 1 + |needle|] == s[at..at + |needle|];
        assert OccursAt(s[1..], needle, at - 1);
      }
    }
  }

  /** `str::split_once`. */
  function SplitOnce(s: string, sep: char): Option<(string, string)>
    decreases |s|
  {
    if s == "" then None
    else if s[0] == sep then Some(("", s[1..]))
    else match SplitOnce(s[1..], sep)
      case None => None
      case Some((l, r)) => Some(([s[0]] + l, r))
  }

  /** Splitting at the first separator undoes joining, in both directions. */
  lemma {:induction false} SplitOnceExact(s: string, sep: char, l: string, r: string)
    ensures SplitOnce(s, sep) == Some((l, r)) <==> s == l + [sep] + r && sep !in l
    decreases |s|
  {
    if s != "" && s[0] != sep {
      if l != "" {
        SplitOnceExact(s[1..], sep, l[1..], r);
        if s == l + [sep] + r {
          assert s[1..] == l[1..] + [sep] + r;
        }
        if SplitOnce(s, sep) == Some((l, r)) {
          assert s == [s[0]] + s[1..];
        }
        assert l == [l[0]] + l[1..];
      }
    } else if s != "" {
      assert s == "" + [sep] + s[1..];
      if s == l + [sep] + r && l == "" {
        assert s[1..] == r;
      } else if s == l + [sep] + r {
        assert l[0] == s[0];
      }
    }
  }

  /** `str::split` on a character: always at least one piece. */
  function Split(s: string, sep: char): (pieces: seq<string>)
    decreases |s|
  {
    match SplitOnce(s, sep)
    case None => [s]
    case Some((l, r)) => SplitShrinks(s, sep); [l] + Split(r, sep)
  }

  lemma SplitShrinks(s: string, sep: char)
    ensures SplitOnce(s, sep).Some? ==> |SplitOnce(s, sep).value.1| < |s|
  {
    if SplitOnce(s, sep).Some? {
      SplitOnceExact(s, sep, SplitOnce(s, sep).value.0, SplitOnce(s, sep).value.1);
    }
  }

  function JoinWith(pieces: seq<string>, sep: string): string {
    if pieces == [] then ""
    else if |pieces| == 1 then pieces[0]
    else pieces[0] + sep + JoinWith(pieces[1..], sep)
  }

  function Join(pieces: seq<string>, sep: char): string {
    JoinWith(pieces, [sep])
  }

  lemma {:induction false} NoSeparator(s: string, sep: char)
    ensures SplitOnce(s, sep).None? <==> sep !in s
    decreases |s|
  {
    if s != "" && s[0] != sep {
      NoSeparator(s[1..], sep);
    }
  }

  /** Splitting inverts joining pieces without the separator. */
  lemma {:induction false} SplitJoin(pieces: seq<string>, sep: char)
    requires pieces != [] && forall i | 0 <= i < |pieces| :: sep !in pieces[i]
    ensures Split(Join(pieces, sep), sep) == pieces
    decreases |pieces|
  {
    var s := Join(pieces, sep);
    if |pieces| == 1 {
      NoSeparator(s, sep);
    } else {
      SplitOnceExact(s, sep, pieces[0], Join(pieces[1..], sep));
      SplitJoin(pieces[1..], sep);
    }
  }

  /** Joining inverts splitting, and no piece holds the separator. */
  lemma {:induction false} JoinSplit(s: string, sep: char)
    ensures Split(s, sep) != [] && Join(Split(s, sep), sep) == s
    ensures forall i | 0 <= i < |Split(s, sep)| :: sep !in Split(s, sep)[i]
    decreases |s|
  {
    NoSeparator(s, sep);
    if SplitOnce(s, sep).Some? {
      var l, r := SplitOnce(s, sep).value.0, SplitOnce(s, sep).value.1;
      SplitOnceExact(s, sep, l, r);
      JoinSplit(r, sep);
      assert Split(s, sep)[1..] == Split(r, sep);
    }
  }

  predicate IsWhitespace(c: char) {
    var n := c as int;
    || 9 <= n <= 13 || n == 0x20 || n == 0x85 || n == 0xA0 || n == 0x1680
    || 0x2000 <= n <= 0x200A || n == 0x2028 || n == 0x2029 || n == 0x202F || n == 0x205F || n == 0x3000
  }

  /** `char::is_control` */
  predicate IsControl(c: char) {
    c as int < 0x20 || 0x7f <= c as int < 0xa0
  }

  function TrimStart(s: string): string
    decreases |s|
  {
    if s != "" && IsWhitespace(s[0]) then TrimStart(s[1..]) else s
  }

  lemma {:induction false} TrimStartSkips(ws: string, s: string)
    requires forall i | 0 <= i < |ws| :: IsWhitespace(ws[i])
    requires s == "" || !IsWhitespace(s[0])
    ensures TrimStart(ws + s) == s
    decreases |ws|
  {
    if ws == "" {
      assert ws + s == s;
    } else {
      assert (ws + s)[1..] == ws[1..] + s;
      TrimStartSkips(ws[1..], s);
    }
  }

  function Utf8Width(c: char): (n: nat)
    ensures 1 <= n <= 4
  {
    var v := c as int;
    if v < 0x80 then 1 else if v < 0x800 then 2 else if v < 0x10000 then 3 else 4
  }

  /** `str::len`, in bytes. */
  function ByteLen(s: string): nat
    decreases |s|
  {
    if s == "" then 0 else Utf8Width(s[0]) + ByteLen(s[1..])
  }

  predicate Ascii(s: string) {
    forall i | 0 <= i < |s| :: s[i] as int < 0x80
  }

  lemma {:induction false} AsciiLength(s: string)
    requires Ascii(s)
    ensures ByteLen(s) == |s|
    decreases |s|
  {
    if s != "" {
      AsciiLength(s[1..]);
    }
  }
}
