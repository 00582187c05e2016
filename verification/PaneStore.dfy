/** One pane's tmux user options, the format language of `set-option -F`, and the commands that
    rewrite the options one at a time. tmux expands each command's format against the options the
    commands before it have already changed. */
module PaneStore {
  import opened Basics
  import opened Decimal

  datatype Key =
    | State | Detail | Source | EvidenceAt | Since | StampedAt | Attention | NotifiedAt | TurnAt
    | Hash | Pid | Name
    | ContextPct | ContextAt | Tokens | TokensAt
    | QuotaPct | QuotaWindow | QuotaResetsAt | QuotaAt | CostUsd

  type Options = map<Key, string>

  /** An absent option expands to the empty string. */
  function Get(s: Options, k: Key): string {
    if k in s then s[k] else ""
  }

  datatype Relation = AtMost | Below | Above

  /** The fragment of the tmux format language the renderers emit. */
  datatype Format =
    | Literal(text: string)
    | Stored(key: Key)                                  // #{@key}
    | Same(left: Format, right: Format)                 // #{==:l,r}
    | Both(left: Format, right: Format)                 // #{&&:l,r}
    | Compare(rel: Relation, left: Format, right: Format) // #{e|<=:l,r} and its siblings
    | Choose(test: Format, yes: Format, no: Format)     // #{?test,yes,no}

  predicate Truthy(s: string) {
    s != "" && s != "0"
  }

  function Flag(b: bool): string {
    if b then "1" else "0"
  }

  /** A numeric operand: the empty string counts as zero. */
  function Operand(s: string): Option<nat> {
    var d := if |s| > 1 && s[0] == '+' then s[1..] else s;
    if AllDigits(d) then Some(Value(d)) else None
  }

  /** The instant a stored text defends by strict comparison: what is no number defends none. */
  function Instant(s: string): nat {
    Operand(s).GetOr(0)
  }

  predicate Holds(rel: Relation, a: nat, b: nat) {
    match rel
    case AtMost => a <= b
    case Below => a < b
    case Above => a > b
  }

  /** Format expansion. An arithmetic comparison with a non-numeric operand expands to nothing. */
  function Expand(f: Format, s: Options): string {
    match f
    case Literal(text) => text
    case Stored(key) => Get(s, key)
    case Same(left, right) => Flag(Expand(left, s) == Expand(right, s))
    case Both(left, right) => Flag(Truthy(Expand(left, s)) && Truthy(Expand(right, s)))
    case Compare(rel, left, right) =>
      (match (Operand(Expand(left, s)), Operand(Expand(right, s)))
       case (Some(a), Some(b)) => Flag(Holds(rel, a, b))
       case (_, _) => "")
    case Choose(test, yes, no) => if Truthy(Expand(test, s)) then Expand(yes, s) else Expand(no, s)
  }

  datatype Command =
    | SetFormat(key: Key, format: Format)   // set-option -p -F
    | SetPlain(key: Key, text: string)      // set-option -p
    | Unset(key: Key)                       // set-option -p -u

  function Step(s: Options, c: Command): Options {
    match c
    case SetFormat(key, format) => s[key := Expand(format, s)]
    case SetPlain(key, text) => s[key := text]
    case Unset(key) => s - {key}
  }

  function Run(s: Options, cmds: seq<Command>): Options
    decreases |cmds|
  {
    if cmds == [] then s else Run(Step(s, cmds[0]), cmds[1..])
  }

  lemma {:induction false} RunAppend(s: Options, xs: seq<Command>, ys: seq<Command>)
    ensures Run(s, xs + ys) == Run(Run(s, xs), ys)
    decreases |xs|
  {
    if xs == [] {
      assert xs + ys == ys;
    } else {
      assert (xs + ys)[1..] == xs[1..] + ys;
      RunAppend(Step(s, xs[0]), xs[1..], ys);
    }
  }

  lemma RunPush(s: Options, xs: seq<Command>, c: Command)
    ensures Run(s, xs + [c]) == Step(Run(s, xs), c)
  {
    RunAppend(s, xs, [c]);
  }

  /** A chain leaves alone every option it does not name. */
  lemma {:induction false} RunFrame(s: Options, cmds: seq<Command>, k: Key)
    requires forall c | c in cmds :: c.key != k
    ensures Get(Run(s, cmds), k) == Get(s, k)
    decreases |cmds|
  {
    if cmds != [] {
      assert cmds[0].key != k;
      RunFrame(Step(s, cmds[0]), cmds[1..], k);
    }
  }

  // ----- footprints and interleaving ---------------------------------------------------------

  function Reads(f: Format): set<Key> {
    match f
    case Literal(_) => {}
    case Stored(key) => {key}
    case Same(left, right) => Reads(left) + Reads(right)
    case Both(left, right) => Reads(left) + Reads(right)
    case Compare(_, left, right) => Reads(left) + Reads(right)
    case Choose(test, yes, no) => Reads(test) + Reads(yes) + Reads(no)
  }

  function Touched(c: Command): set<Key> {
    {c.key} + if c.SetFormat? then Reads(c.format) else {}
  }

  function Footprint(cmds: seq<Command>): (keys: set<Key>)
    ensures forall c | c in cmds :: Touched(c) <= keys
  {
    if cmds == [] then {} else Touched(cmds[0]) + Footprint(cmds[1..])
  }

  /** `zs` is some merge of `xs` and `ys` that keeps each list's own order. */
  ghost predicate Interleaves(zs: seq<Command>, xs: seq<Command>, ys: seq<Command>)
    decreases |zs|
  {
    if zs == [] then xs == [] && ys == []
    else
      || (xs != [] && zs[0] == xs[0] && Interleaves(zs[1..], xs[1..], ys))
      || (ys != [] && zs[0] == ys[0] && Interleaves(zs[1..], xs, ys[1..]))
  }

  lemma ExpandIgnores(f: Format, s: Options, t: Options)
    requires forall k | k in Reads(f) :: Get(s, k) == Get(t, k)
    ensures Expand(f, s) == Expand(f, t)
  {
  }

  lemma StepCommutes(s: Options, c: Command, d: Command)
    requires Touched(c) !! Touched(d)
    ensures Step(Step(s, c), d) == Step(Step(s, d), c)
  {
    if c.SetFormat? { ExpandIgnores(c.format, s, Step(s, d)); }
    if d.SetFormat? { ExpandIgnores(d.format, s, Step(s, c)); }
    assert Step(Step(s, c), d) == Step(Step(s, d), c);
  }

  lemma {:induction false} StepPastRun(s: Options, c: Command, xs: seq<Command>)
    requires Touched(c) !! Footprint(xs)
    ensures Run(Step(s, c), xs) == Step(Run(s, xs), c)
    decreases |xs|
  {
    if xs != [] {
      StepCommutes(s, c, xs[0]);
      StepPastRun(Step(s, xs[0]), c, xs[1..]);
    }
  }

  /** Two chains over disjoint options leave the same store in every interleaving. */
  lemma {:induction false} InterleavingIrrelevant(s: Options, zs: seq<Command>, xs: seq<Command>, ys: seq<Command>)
    requires Interleaves(zs, xs, ys)
    requires Footprint(xs) !! Footprint(ys)
    ensures Run(s, zs) == Run(Run(s, xs), ys)
    decreases |zs|
  {
    if zs != [] {
      if xs != [] && zs[0] == xs[0] && Interleaves(zs[1..], xs[1..], ys) {
        InterleavingIrrelevant(Step(s, xs[0]), zs[1..], xs[1..], ys);
      } else {
        assert zs[0] == ys[0] && Interleaves(zs[1..], xs, ys[1..]);
        InterleavingIrrelevant(Step(s, ys[0]), zs[1..], xs, ys[1..]);
        StepPastRun(s, ys[0], xs);
      }
    }
  }

  // ----- the mutable store --------------------------------------------------------------------

  /** The server-side options of one pane. */
  class Pane {
    var options: Options

    constructor (initial: Options)
      ensures options == initial
    {
      options := initial;
    }

    method Execute(c: Command)
      modifies this
      ensures options == Step(old(options), c)
    {
      match c
      case SetFormat(key, format) => options := options[key := Expand(format, options)];
      case SetPlain(key, text) => options := options[key := text];
      case Unset(key) => options := options - {key};
    }

    /** One `;`-joined tmux invocation: the commands run in order, none of them skipped. */
    method Invoke(cmds: seq<Command>)
      modifies this
      ensures options == Run(old(options), cmds)
    {
      var i := 0;
      while i < |cmds|
        invariant 0 <= i <= |cmds|
        invariant Run(options, cmds[i..]) == Run(old(options), cmds)
      {
        assert cmds[i..][1..] == cmds[i + 1..];
        Execute(cmds[i]);
        i := i + 1;
      }
    }
  }
}
