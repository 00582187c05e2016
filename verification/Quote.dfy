/** Printing a group of tmux commands as one argument, and reading it back. The reader is an
    automaton over the rules the printer relies on: text is literal inside single quotes, a quote and
    an octal escape stand outside them, a space ends a word and a semicolon ends a command. Anything
    the rules leave open, such as a physical newline inside quotes, is a reading failure here. */
module Quote {
  import opened Basics
  import opened Text

  // ----- printing -------------------------------------------------------------------------------

  /** `str::replace` of one character. */
  function Replace(s: string, c: char, with: string): string
    decreases |s|
  {
    if s == "" then "" else (if s[0] == c then with else [s[0]]) + Replace(s[1..], c, with)
  }

  const QUOTE_ESCAPE: string := ['\'', '\\', '\'', '\'']
  const NEWLINE_ESCAPE: string := ['\'', '\\', '0', '1', '2', '\'']

  function QuoteArgument(value: string): string {
    ['\''] + Replace(Replace(value, '\'', QUOTE_ESCAPE), '\n', NEWLINE_ESCAPE) + ['\'']
  }

  function Quoted(argv: seq<string>): seq<string> {
    seq(|argv|, i requires 0 <= i < |argv| => QuoteArgument(argv[i]))
  }

  function PrintCommand(argv: seq<string>): string {
    JoinWith(Quoted(argv), " ")
  }

  function Printed(commands: seq<seq<string>>): seq<string> {
    seq(|commands|, i requires 0 <= i < |commands| => PrintCommand(commands[i]))
  }

  /** The body of `conditional_group`. */
  function PrintGroup(commands: seq<seq<string>>): string {
    JoinWith(Printed(commands), " ; ")
  }

  // ----- reading --------------------------------------------------------------------------------

  datatype Mode = Plain | InQuotes | Escaped | Octal(digits: nat, value: nat)

  /** Commands read, words of the current command, the word being read and how. */
  datatype Reader = Reader(done: seq<seq<string>>, words: seq<string>, word: Option<string>, mode: Mode) {
    function Append(c: char): Reader { this.(word := Some(word.GetOr("") + [c]), mode := Plain) }

    function EndWord(): Reader { if word.None? then this else this.(words := words + [word.value], word := None) }

    function EndCommand(): Reader {
      var r := EndWord();
      if r.words == [] then r else r.(done := r.done + [r.words], words := [])
    }

    function Step(c: char): Option<Reader> {
      match mode
      case Plain =>
        if c == '\'' then Some(this.(word := Some(word.GetOr("")), mode := InQuotes))
        else if c == '\\' then Some(this.(mode := Escaped))
        else if c == ' ' then Some(EndWord())
        else if c == ';' then Some(EndCommand())
        else None
      case InQuotes =>
        if c == '\'' then Some(this.(mode := Plain))
        else if c == '\n' then None
        else Some(this.(word := Some(word.GetOr("") + [c])))
      case Escaped =>
        if c == '\'' then Some(Append(c))
        else if '0' <= c <= '3' then Some(this.(mode := Octal(1, c as int - '0' as int)))
        else None
      case Octal(digits, value) =>
        if !('0' <= c <= '7') then None
        else
          var v := 8 * value + (c as int - '0' as int);
          if digits < 2 then Some(this.(mode := Octal(digits + 1, v)))
          else if v < 256 then Some(Append(v as char)) else None
    }
  }

  function Run(r: Option<Reader>, s: string): Option<Reader>
    decreases |s|
  {
    if r.None? || s == "" then r else Run(r.value.Step(s[0]), s[1..])
  }

  function Lex(s: string): Option<seq<seq<string>>> {
    var end := Run(Some(Reader([], [], None, Plain)), s);
    if end.None? || !end.value.mode.Plain? then None else Some(end.value.EndCommand().done)
  }

  lemma {:induction false} RunAppend(r: Option<Reader>, s: string, t: string)
    ensures Run(r, s + t) == Run(Run(r, s), t)
    decreases |s|
  {
    if s == "" {
      assert s + t == t;
    } else if r.Some? {
      assert (s + t)[1..] == s[1..] + t;
      RunAppend(r.value.Step(s[0]), s[1..], t);
    }
  }

  lemma RunChar(r: Reader, c: char)
    ensures Run(Some(r), [c]) == r.Step(c)
  {
    assert [c][1..] == "";
  }

  // ----- one argument ---------------------------------------------------------------------------

  /** The printer's two passes as one. */
  function EscapeChar(c: char): string {
    if c == '\'' then QUOTE_ESCAPE else if c == '\n' then NEWLINE_ESCAPE else [c]
  }

  function Body(value: string): string
    decreases |value|
  {
    if value == "" then "" else EscapeChar(value[0]) + Body(value[1..])
  }

  lemma {:induction false} ReplaceAppend(s: string, t: string, c: char, with: string)
    ensures Replace(s + t, c, with) == Replace(s, c, with) + Replace(t, c, with)
    decreases |s|
  {
    if s == "" {
      assert s + t == t;
    } else {
      assert (s + t)[1..] == s[1..] + t;
      ReplaceAppend(s[1..], t, c, with);
    }
  }

  lemma {:induction false} ReplaceAbsent(s: string, c: char, with: string)
    requires c !in s
    ensures Replace(s, c, with) == s
    decreases |s|
  {
    if s != "" {
      assert s == [s[0]] + s[1..];
      ReplaceAbsent(s[1..], c, with);
    }
  }

  lemma {:induction false} PassesFuse(value: string)
    ensures Replace(Replace(value, '\'', QUOTE_ESCAPE), '\n', NEWLINE_ESCAPE) == Body(value)
    decreases |value|
  {
    if value != "" {
      PassesFuse(value[1..]);
      var head := if value[0] == '\'' then QUOTE_ESCAPE else [value[0]];
      ReplaceAppend(head, Replace(value[1..], '\'', QUOTE_ESCAPE), '\n', NEWLINE_ESCAPE);
      if value[0] == '\n' {
        assert Replace(['\n'], '\n', NEWLINE_ESCAPE) == NEWLINE_ESCAPE;
      } else {
        ReplaceAbsent(head, '\n', NEWLINE_ESCAPE);
      }
    }
  }

  lemma RunHead(r: Reader, c: char, s: string)
    ensures Run(Some(r), [c] + s) == Run(r.Step(c), s)
  {
    assert ([c] + s)[1..] == s;
  }

  lemma QuoteReads(r: Reader, w: string)
    requires r.mode == InQuotes && r.word == Some(w)
    ensures Run(Some(r), QUOTE_ESCAPE) == Some(r.(word := Some(w + ['\''])))
  {
    var closed := r.(mode := Plain);
    assert QUOTE_ESCAPE == ['\''] + (['\\'] + (['\''] + ['\'']));
    RunHead(r, '\'', ['\\'] + (['\''] + ['\'']));
    RunHead(closed, '\\', ['\''] + ['\'']);
    RunHead(closed.(mode := Escaped), '\'', ['\'']);
    RunChar(closed.(word := Some(w + ['\''])), '\'');
  }

  lemma OctalReads(r: Reader, w: string)
    requires r.mode == Escaped && r.word == Some(w)
    ensures Run(Some(r), ['0'] + (['1'] + (['2'] + ['\''])))
         == Run(Some(r.(mode := Plain, word := Some(w + ['\n']))), ['\''])
  {
    RunHead(r, '0', ['1'] + (['2'] + ['\'']));
    RunHead(r.(mode := Octal(1, 0)), '1', ['2'] + ['\'']);
    RunHead(r.(mode := Octal(2, 1)), '2', ['\'']);
    assert 10 as char == '\n';
  }

  lemma NewlineReads(r: Reader, w: string)
    requires r.mode == InQuotes && r.word == Some(w)
    ensures Run(Some(r), NEWLINE_ESCAPE) == Some(r.(word := Some(w + ['\n'])))
  {
    var closed := r.(mode := Plain);
    assert NEWLINE_ESCAPE == ['\''] + (['\\'] + (['0'] + (['1'] + (['2'] + ['\'']))));
    RunHead(r, '\'', ['\\'] + (['0'] + (['1'] + (['2'] + ['\'']))));
    RunHead(closed, '\\', ['0'] + (['1'] + (['2'] + ['\''])));
    OctalReads(closed.(mode := Escaped), w);
    RunChar(closed.(word := Some(w + ['\n'])), '\'');
  }

  /** Inside quotes every character comes back as itself, the escaped ones included. */
  lemma CharReads(r: Reader, w: string, c: char)
    requires r.mode == InQuotes && r.word == Some(w)
    ensures Run(Some(r), EscapeChar(c)) == Some(r.(word := Some(w + [c])))
  {
    if c == '\'' {
      QuoteReads(r, w);
    } else if c == '\n' {
      NewlineReads(r, w);
    } else {
      RunChar(r, c);
    }
  }

  lemma {:induction false} BodyReads(r: Reader, w: string, value: string)
    requires r.mode == InQuotes && r.word == Some(w)
    ensures Run(Some(r), Body(value)) == Some(r.(word := Some(w + value)))
    decreases |value|
  {
    if value == "" {
      assert w + value == w;
    } else {
      CharReads(r, w, value[0]);
      RunAppend(Some(r), EscapeChar(value[0]), Body(value[1..]));
      BodyReads(r.(word := Some(w + [value[0]])), w + [value[0]], value[1..]);
      assert w + [value[0]] + value[1..] == w + value;
    }
  }

  /** A printed argument is read as one word, whatever it holds. */
  lemma ArgumentReads(r: Reader, value: string)
    requires r.mode == Plain && r.word == None
    ensures Run(Some(r), QuoteArgument(value)) == Some(r.(word := Some(value)))
  {
    PassesFuse(value);
    var inside := r.(word := Some(""), mode := InQuotes);
    RunChar(r, '\'');
    BodyReads(inside, "", value);
    assert "" + value == value;
    RunChar(inside.(word := Some(value)), '\'');
    RunAppend(Some(r), ['\''], Body(value));
    RunAppend(Some(r), ['\''] + Body(value), ['\'']);
  }

  // ----- commands and groups ------------------------------------------------------------------------

  lemma {:induction false} CommandReads(done: seq<seq<string>>, words: seq<string>, argv: seq<string>)
    requires argv != []
    ensures Run(Some(Reader(done, words, None, Plain)), PrintCommand(argv))
         == Some(Reader(done, words + argv[..|argv| - 1], Some(argv[|argv| - 1]), Plain))
    decreases |argv|
  {
    var start := Reader(done, words, None, Plain);
    ArgumentReads(start, argv[0]);
    if |argv| == 1 {
      assert words + argv[..0] == words;
    } else {
      assert Quoted(argv)[1..] == Quoted(argv[1..]);
      RunAppend(Some(start), QuoteArgument(argv[0]), " ");
      RunChar(start.(word := Some(argv[0])), ' ');
      RunAppend(Some(start), QuoteArgument(argv[0]) + " ", PrintCommand(argv[1..]));
      CommandReads(done, words + [argv[0]], argv[1..]);
      assert words + [argv[0]] + argv[1..][..|argv| - 2] == words + argv[..|argv| - 1];
    }
  }

  lemma CommandEnds(done: seq<seq<string>>, argv: seq<string>)
    requires argv != []
    ensures Reader(done, argv[..|argv| - 1], Some(argv[|argv| - 1]), Plain).EndCommand()
         == Reader(done + [argv], [], None, Plain)
  {
    assert argv[..|argv| - 1] + [argv[|argv| - 1]] == argv;
  }

  lemma {:induction false} GroupReads(done: seq<seq<string>>, commands: seq<seq<string>>)
    requires forall i | 0 <= i < |commands| :: commands[i] != []
    ensures var end := Run(Some(Reader(done, [], None, Plain)), PrintGroup(commands));
            end.Some? && end.value.mode == Plain && end.value.EndCommand().done == done + commands
    decreases |commands|
  {
    var start := Reader(done, [], None, Plain);
    if commands != [] {
      var argv := commands[0];
      CommandReads(done, [], argv);
      assert [] + argv[..|argv| - 1] == argv[..|argv| - 1];
      CommandEnds(done, argv);
      if |commands| > 1 {
        assert Printed(commands)[1..] == Printed(commands[1..]);
        SeparatorReads(done, argv);
        RunAppend(Some(start), PrintCommand(argv), " ; ");
        RunAppend(Some(start), PrintCommand(argv) + " ; ", PrintGroup(commands[1..]));
        GroupReads(done + [argv], commands[1..]);
        assert done + [argv] + commands[1..] == done + commands;
      } else {
        assert commands == [argv];
      }
    }
  }

  lemma SeparatorReads(done: seq<seq<string>>, argv: seq<string>)
    requires argv != []
    ensures Run(Some(Reader(done, argv[..|argv| - 1], Some(argv[|argv| - 1]), Plain)), " ; ")
         == Some(Reader(done + [argv], [], None, Plain))
  {
    var r := Reader(done, argv[..|argv| - 1], Some(argv[|argv| - 1]), Plain);
    CommandEnds(done, argv);
    assert " ; "[1..] == "; " && "; "[1..] == " ";
    assert r.EndWord() == Reader(done, argv, None, Plain);
    RunChar(Reader(done + [argv], [], None, Plain), ' ');
  }

  predicate NoEmptyCommand(commands: seq<seq<string>>) {
    forall i | 0 <= i < |commands| :: commands[i] != []
  }

  lemma {:induction false} NeverReadsEmpty(r: Option<Reader>, s: string)
    requires r.Some? ==> NoEmptyCommand(r.value.done)
    ensures Run(r, s).Some? ==> NoEmptyCommand(Run(r, s).value.done)
    decreases |s|
  {
    if r.Some? && s != "" {
      NeverReadsEmpty(r.value.Step(s[0]), s[1..]);
    }
  }

  /** Printing a group and reading it back gives exactly the argument lists, whatever the arguments
      hold, if and only if no command is empty. */
  lemma GroupRoundTrip(commands: seq<seq<string>>)
    ensures Lex(PrintGroup(commands)) == Some(commands) <==> NoEmptyCommand(commands)
  {
    if NoEmptyCommand(commands) {
      GroupReads([], commands);
      assert [] + commands == commands;
    }
    NeverReadsEmpty(Some(Reader([], [], None, Plain)), PrintGroup(commands));
  }
}
