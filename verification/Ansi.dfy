/** Stripping terminal control sequences (ECMA-48 sections 5.4 and 5.6): the loop of `strip_ansi`
    against a five-state automaton, and what stripping means for whole texts. */
module Ansi {

  const ESC: char := '\U{1b}'
  const BEL: char := '\U{7}'

  datatype Mode = Ground | Escape | Csi | Osc | OscEscape

  predicate IsFinal(c: char) {
    0x40 <= c as int <= 0x7e
  }

  /** The mode after one character. An operating system command ended by an escape that no backslash
      follows gives the next character back to the ground mode. */
  function Next(q: Mode, c: char): Mode {
    match q
    case Ground => if c == ESC then Escape else Ground
    case Escape => if c == '[' then Csi else if c == ']' then Osc else Ground
    case Csi => if IsFinal(c) then Ground else Csi
    case Osc => if c == BEL then Ground else if c == ESC then OscEscape else Osc
    case OscEscape => if c == '\\' then Ground else if c == ESC then Escape else Ground
  }

  predicate Shows(q: Mode, c: char) {
    c != ESC && (q == Ground || (q == OscEscape && c != '\\'))
  }

  function Visible(q: Mode, s: string): string
    decreases |s|
  {
    if s == "" then ""
    else (if Shows(q, s[0]) then [s[0]] else "") + Visible(Next(q, s[0]), s[1..])
  }

  function After(q: Mode, s: string): Mode
    decreases |s|
  {
    if s == "" then q else After(Next(q, s[0]), s[1..])
  }

  function Strip(s: string): string {
    Visible(Ground, s)
  }

  lemma One(q: Mode, c: char)
    ensures Visible(q, [c]) == (if Shows(q, c) then [c] else "") && After(q, [c]) == Next(q, c)
  {
    assert [c][1..] == "";
  }

  // ----- what stripping keeps -------------------------------------------------------------------

  lemma {:induction false} VisibleAppend(q: Mode, s: string, t: string)
    ensures Visible(q, s + t) == Visible(q, s) + Visible(After(q, s), t)
    ensures After(q, s + t) == After(After(q, s), t)
    decreases |s|
  {
    if s == "" {
      assert s + t == t;
    } else {
      assert (s + t)[1..] == s[1..] + t;
      VisibleAppend(Next(q, s[0]), s[1..], t);
    }
  }

  lemma {:induction false} NoEscapeLeft(q: Mode, s: string)
    ensures ESC !in Visible(q, s)
    decreases |s|
  {
    if s != "" { NoEscapeLeft(Next(q, s[0]), s[1..]); }
  }

  lemma {:induction false} PlainUnchanged(s: string)
    requires ESC !in s
    ensures Visible(Ground, s) == s && After(Ground, s) == Ground
    decreases |s|
  {
    if s != "" {
      PlainUnchanged(s[1..]);
      assert s == [s[0]] + s[1..];
    }
  }

  /** Stripping leaves no escape, and a second pass changes nothing. */
  lemma StripIdempotent(s: string)
    ensures ESC !in Strip(s) && Strip(Strip(s)) == Strip(s)
  {
    NoEscapeLeft(Ground, s);
    PlainUnchanged(Strip(s));
  }

  /** Stripping distributes over concatenation with every text exactly when the first part ends with
      its last control sequence complete. */
  lemma StripDistributes(s: string)
    ensures After(Ground, s) == Ground <==> forall t :: Strip(s + t) == Strip(s) + Strip(t)
  {
    forall t ensures Visible(Ground, s + t) == Strip(s) + Visible(After(Ground, s), t) {
      VisibleAppend(Ground, s, t);
    }
    var q := After(Ground, s);
    if q != Ground {
      var t := if q == OscEscape then "\\" else "x";
      One(Ground, t[0]);
      One(q, t[0]);
      assert t == [t[0]];
      assert Strip(s + t) != Strip(s) + Strip(t);
    }
  }

  lemma {:induction false} ParametersConsumed(params: string)
    requires forall i | 0 <= i < |params| :: !IsFinal(params[i])
    ensures Visible(Csi, params) == "" && After(Csi, params) == Csi
    decreases |params|
  {
    if params != "" { ParametersConsumed(params[1..]); }
  }

  lemma {:induction false} CommandConsumed(text: string)
    requires ESC !in text && BEL !in text
    ensures Visible(Osc, text) == "" && After(Osc, text) == Osc
    decreases |text|
  {
    if text != "" { CommandConsumed(text[1..]); }
  }

  /** A whole control sequence vanishes wherever it stands between complete texts. */
  lemma ControlSequenceVanishes(s: string, params: string, final: char, t: string)
    requires After(Ground, s) == Ground
    requires IsFinal(final) && forall i | 0 <= i < |params| :: !IsFinal(params[i])
    ensures Strip(s + ([ESC, '['] + params + [final]) + t) == Strip(s) + Strip(t)
  {
    ParametersConsumed(params);
    Leads('[');
    One(Csi, final);
    VisibleAppend(Ground, [ESC, '['], params);
    VisibleAppend(Ground, [ESC, '['] + params, [final]);
    VisibleAppend(Ground, s, [ESC, '['] + params + [final]);
    VisibleAppend(Ground, s + ([ESC, '['] + params + [final]), t);
  }

  lemma Leads(c: char)
    requires c == '[' || c == ']'
    ensures Visible(Ground, [ESC, c]) == "" && After(Ground, [ESC, c]) == if c == '[' then Csi else Osc
  {
    One(Ground, ESC);
    One(Escape, c);
    VisibleAppend(Ground, [ESC], [c]);
    assert [ESC] + [c] == [ESC, c];
  }

  /** So does a whole operating system command, ended by a bell or by a string terminator. */
  lemma SystemCommandVanishes(s: string, text: string, bell: bool, t: string)
    requires After(Ground, s) == Ground && ESC !in text && BEL !in text
    ensures Strip(s + ([ESC, ']'] + text + (if bell then [BEL] else [ESC, '\\'])) + t) == Strip(s) + Strip(t)
  {
    var end := if bell then [BEL] else [ESC, '\\'];
    CommandConsumed(text);
    Leads(']');
    assert Visible(Osc, end) == "" && After(Osc, end) == Ground by {
      One(Osc, end[0]);
      One(OscEscape, '\\');
      VisibleAppend(Osc, [ESC], ['\\']);
      assert end == if bell then [BEL] else [ESC] + ['\\'];
    }
    VisibleAppend(Ground, [ESC, ']'], text);
    VisibleAppend(Ground, [ESC, ']'] + text, end);
    VisibleAppend(Ground, s, [ESC, ']'] + text + end);
    VisibleAppend(Ground, s + ([ESC, ']'] + text + end), t);
  }

  /** The final characters are those from `@` to `~`. */
  lemma FinalsExactly(c: char)
    ensures IsFinal(c) <==> '@' <= c <= '~'
  {
  }

  lemma ReadAfresh(t: string)
    requires t != "" ==> t[0] != '\\'
    ensures Visible(OscEscape, t) == Visible(Ground, t)
  {
  }

  lemma CommandBroken(text: string)
    requires ESC !in text && BEL !in text
    ensures var cut := [ESC, ']'] + text + [ESC];
      Visible(Ground, cut) == "" && After(Ground, cut) == OscEscape
  {
    CommandConsumed(text);
    Leads(']');
    One(Osc, ESC);
    VisibleAppend(Ground, [ESC, ']'], text);
    VisibleAppend(Ground, [ESC, ']'] + text, [ESC]);
  }

  /** An operating system command that another escape breaks off vanishes too, and what follows that
      escape is read afresh. */
  lemma BrokenCommandVanishes(s: string, text: string, t: string)
    requires After(Ground, s) == Ground && ESC !in text && BEL !in text && (t != "" ==> t[0] != '\\')
    ensures Strip(s + ([ESC, ']'] + text + [ESC]) + t) == Strip(s) + Strip(t)
  {
    var cut := [ESC, ']'] + text + [ESC];
    CommandBroken(text);
    VisibleAppend(Ground, s, cut);
    VisibleAppend(Ground, s + cut, t);
    ReadAfresh(t);
  }

  /** Any other escape takes one character with it. */
  lemma EscapePairVanishes(s: string, c: char, t: string)
    requires After(Ground, s) == Ground && c != '[' && c != ']'
    ensures Strip(s + [ESC, c] + t) == Strip(s) + Strip(t)
  {
    One(Ground, ESC);
    One(Escape, c);
    VisibleAppend(Ground, [ESC], [c]);
    assert [ESC] + [c] == [ESC, c];
    VisibleAppend(Ground, s, [ESC, c]);
    VisibleAppend(Ground, s + [ESC, c], t);
  }

  // ----- the loop -------------------------------------------------------------------------------

  lemma Unfold(q: Mode, s: string, i: nat)
    requires i < |s|
    ensures Visible(q, s[i..]) == (if Shows(q, s[i]) then [s[i]] else "") + Visible(Next(q, s[i]), s[i + 1..])
  {
    assert s[i..][1..] == s[i + 1..];
  }

  /** What one character of plain text, or an escape before more text, does to the result so far. */
  lemma GroundStep(out: string, s: string, i: nat)
    requires i < |s|
    ensures s[i] != ESC ==> out + Visible(Ground, s[i..]) == (out + [s[i]]) + Visible(Ground, s[i + 1..])
    ensures s[i] == ESC ==> out + Visible(Ground, s[i..]) == out + Visible(Escape, s[i + 1..])
  {
    Unfold(Ground, s, i);
  }

  method StripAnsi(s: string) returns (out: string)
    ensures out == Strip(s)
  {
    out := "";
    var i := 0;
    assert s[0..] == s;
    while i < |s|
      invariant 0 <= i <= |s|
      invariant out + Visible(Ground, s[i..]) == Strip(s)
    {
      GroundStep(out, s, i);
      var c := s[i];
      i := i + 1;
      if c != ESC {
        out := out + [c];
      } else if i < |s| {
        i := SkipSequence(s, i);
      }
    }
  }

  /** To just past the sequence an escape opened: its kind, then the rest of that kind. */
  method SkipSequence(s: string, start: nat) returns (i: nat)
    requires start < |s|
    ensures start < i <= |s|
    ensures Visible(Escape, s[start..]) == Visible(Ground, s[i..])
  {
    Unfold(Escape, s, start);
    i := start + 1;
    if s[start] == '[' {
      i := SkipControlSequence(s, i);
    } else if s[start] == ']' {
      i := SkipSystemCommand(s, i);
    }
  }

  /** To just past the final character of a control sequence. */
  method SkipControlSequence(s: string, start: nat) returns (i: nat)
    requires start <= |s|
    ensures start <= i <= |s|
    ensures Visible(Csi, s[start..]) == Visible(Ground, s[i..])
  {
    i := start;
    while i < |s|
      invariant start <= i <= |s|
      invariant Visible(Csi, s[start..]) == Visible(Csi, s[i..])
    {
      Unfold(Csi, s, i);
      i := i + 1;
      if IsFinal(s[i - 1]) {
        return;
      }
    }
  }

  /** To just past the terminator of an operating system command. */
  method SkipSystemCommand(s: string, start: nat) returns (i: nat)
    requires start <= |s|
    ensures start <= i <= |s|
    ensures Visible(Osc, s[start..]) == Visible(Ground, s[i..])
  {
    i := start;
    while i < |s|
      invariant start <= i <= |s|
      invariant Visible(Osc, s[start..]) == Visible(Osc, s[i..])
    {
      Unfold(Osc, s, i);
      var f := s[i];
      i := i + 1;
      if f == BEL {
        return;
      }
      if f == ESC {
        if i < |s| {
          Unfold(OscEscape, s, i);
          Unfold(Ground, s, i);
          if s[i] == '\\' {
            i := i + 1;
          }
        }
        return;
      }
    }
  }
}
