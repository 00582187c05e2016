/** Guarded publishes. Every field of a chain carries the same suppression guard, and the server
    re-evaluates that guard command by command, against a store the chain is already changing. */
module Publish {
  import opened Basics
  import opened Decimal
  import opened PaneStore
  import opened Stamp

  datatype Guard =
    | Unconditional
    | ProtectHook
    | CarveOut(captureAt: u64)
    | RefreshClaim(state: AgentState)
    | HookArbitrate(evidenceAt: u64)
  {
    /** The format that is truthy exactly when the write must be suppressed. */
    function SuppressFormat(): Format {
      var hookSourced := Same(Stored(Source), Literal("hook"));
      match this
      case Unconditional => Literal("0")
      case ProtectHook => hookSourced
      case CarveOut(at) => Both(hookSourced, Compare(AtMost, Literal(Show(at)), Stored(EvidenceAt)))
      case RefreshClaim(state) => Choose(SameState(state), Literal("0"), Literal("1"))
      case HookArbitrate(at) => Both(hookSourced, Compare(Below, Literal(Show(at)), Stored(EvidenceAt)))
    }

    /** Whether the server, looking at `s`, suppresses the write. */
    predicate Blocks(s: Options) {
      Truthy(Expand(SuppressFormat(), s))
    }

    /** The client-side mirror of `Blocks`, over the decoded prior stamp. */
    predicate Suppresses(prev: Option<StampedState>) {
      match this
      case Unconditional => false
      case ProtectHook => prev.Some? && prev.value.source == Hook
      case CarveOut(at) => prev.Some? && prev.value.source == Hook && at <= prev.value.evidenceAt
      case RefreshClaim(state) => prev.None? || prev.value.state != state
      case HookArbitrate(at) => prev.Some? && prev.value.source == Hook && at < prev.value.evidenceAt
    }
  }

  datatype Publish = Publish(
    state: AgentState,
    detail: Option<string>,
    source: Provenance,
    evidenceAt: u64,
    since: u64,
    stampedAt: u64,
    hash: Option<u64>,
    pid: u32,
    name: string,
    setAttention: bool,
    episodeReset: bool,
    guard: Guard)

  // ----- rendering ---------------------------------------------------------------------------

  predicate Corrupts(c: char) {
    c == '#' || c == '{' || c == '}' || c == ',' || c as int <= 0x20 || c as int == 0x7f
  }

  /** A detail that would break the guard chain is dropped. */
  function SafeDetail(detail: Option<string>): string {
    if detail.None? || exists i | 0 <= i < |detail.value| :: Corrupts(detail.value[i]) then "" else detail.value
  }

  /** A detail that is kept is made of visible characters alone, none of which the format language takes for
      its own. */
  lemma SafeDetailExactly(d: string)
    ensures SafeDetail(None) == ""
    ensures (forall i | 0 <= i < |d| :: '!' <= d[i] && d[i] != '\U{7f}' && d[i] !in "#{},") ==> SafeDetail(Some(d)) == d
    ensures (exists i | 0 <= i < |d| :: d[i] <= ' ' || d[i] == '\U{7f}' || d[i] in "#{},") ==> SafeDetail(Some(d)) == ""
  {
  }

  function Guarded(g: Guard, key: Key, update: Format): Command {
    SetFormat(key, Choose(g.SuppressFormat(), Stored(key), update))
  }

  function SameState(state: AgentState): Format {
    Same(Stored(State), Literal(state.Token()))
  }

  function SinceInRange(p: Publish): Format {
    Compare(AtMost, Stored(Since), Literal(Show(SatAdd(p.stampedAt, CLOCK_STEP_SKEW_MS))))
  }

  /** Write-once `since`: kept while the state is unchanged, unless a clock step stranded it. */
  function OnceFormat(p: Publish): Format {
    Choose(Both(SameState(p.state), SinceInRange(p)), Stored(Since), Literal(Show(p.since)))
  }

  function PlainDetail(p: Publish): Command {
    if p.detail.Some? then SetPlain(Detail, p.detail.value) else Unset(Detail)
  }

  /** The five claim fields as plain writes. */
  function PlainCommands(since: string, p: Publish): seq<Command> {
    [SetPlain(Since, since)] + [SetPlain(State, p.state.Token())] + [PlainDetail(p)]
    + [SetPlain(Source, p.source.Token())] + [SetPlain(EvidenceAt, Show(p.evidenceAt))]
  }

  /** An episode boundary overwrites the dead agent's tuple and clears the episode fields. */
  function ResetCommands(p: Publish): seq<Command> {
    PlainCommands(Show(p.since), p)
    + [if p.setAttention then SetPlain(Attention, "1") else Unset(Attention)]
    + [Unset(NotifiedAt)] + [Unset(TurnAt)]
  }

  /** The guarded tuple, `since` first because write-once reads the old state. */
  function GuardedCommands(p: Publish): seq<Command> {
    var claim := [Guarded(p.guard, Since, OnceFormat(p))]
      + [Guarded(p.guard, State, Literal(p.state.Token()))]
      + [Guarded(p.guard, Detail, Literal(SafeDetail(p.detail)))]
      + [Guarded(p.guard, Source, Literal(p.source.Token()))]
      + [Guarded(p.guard, EvidenceAt, Literal(Show(p.evidenceAt)))];
    if p.setAttention then claim + [Guarded(p.guard, Attention, Literal("1"))] else claim
  }

  function TupleCommands(p: Publish): seq<Command> {
    if p.episodeReset then ResetCommands(p) else GuardedCommands(p)
  }

  /** Freshness, baseline and identity: written even by a held tuple, `stamped_at` last. */
  function WithFreshness(cmds: seq<Command>, p: Publish): seq<Command> {
    var hashed := if p.hash.Some? then cmds + [SetPlain(Hash, Show(p.hash.value))] else cmds;
    var owned := hashed + [SetPlain(Pid, Show(p.pid))];
    var named := if p.name != "" then owned + [SetPlain(Name, p.name)] else owned;
    named + [SetPlain(StampedAt, Show(p.stampedAt))]
  }

  function PublishCommands(p: Publish): seq<Command> {
    WithFreshness(TupleCommands(p), p)
  }

  method RenderPublish(p: Publish) returns (cmds: seq<Command>)
    ensures cmds == PublishCommands(p)
  {
    if p.episodeReset {
      cmds := [SetPlain(Since, Show(p.since))];
      cmds := cmds + [SetPlain(State, p.state.Token())];
      if p.detail.Some? {
        cmds := cmds + [SetPlain(Detail, p.detail.value)];
      } else {
        cmds := cmds + [Unset(Detail)];
      }
      cmds := cmds + [SetPlain(Source, p.source.Token())];
      cmds := cmds + [SetPlain(EvidenceAt, Show(p.evidenceAt))];
      if p.setAttention {
        cmds := cmds + [SetPlain(Attention, "1")];
      } else {
        cmds := cmds + [Unset(Attention)];
      }
      cmds := cmds + [Unset(NotifiedAt)];
      cmds := cmds + [Unset(TurnAt)];
    } else {
      cmds := [Guarded(p.guard, Since, OnceFormat(p))];
      cmds := cmds + [Guarded(p.guard, State, Literal(p.state.Token()))];
      cmds := cmds + [Guarded(p.guard, Detail, Literal(SafeDetail(p.detail)))];
      cmds := cmds + [Guarded(p.guard, Source, Literal(p.source.Token()))];
      cmds := cmds + [Guarded(p.guard, EvidenceAt, Literal(Show(p.evidenceAt)))];
      if p.setAttention {
        cmds := cmds + [Guarded(p.guard, Attention, Literal("1"))];
      }
    }
    if p.hash.Some? {
      cmds := cmds + [SetPlain(Hash, Show(p.hash.value))];
    }
    cmds := cmds + [SetPlain(Pid, Show(p.pid))];
    if p.name != "" {
      cmds := cmds + [SetPlain(Name, p.name)];
    }
    cmds := cmds + [SetPlain(StampedAt, Show(p.stampedAt))];
  }

  /** Producer-side write-once, for a server without `-F`: the caller supplies what it read. */
  function AdvisorySince(p: Publish, prevState: Option<AgentState>, prevSince: u64): u64 {
    if prevState == Some(p.state) && !ClockStepped(prevSince, p.stampedAt) then prevSince else p.since
  }

  function AdvisoryCommands(p: Publish, prevState: Option<AgentState>, prevSince: u64): seq<Command> {
    if p.episodeReset then WithFreshness(ResetCommands(p), p) else
    var claim := PlainCommands(Show(AdvisorySince(p, prevState, prevSince)), p);
    WithFreshness(if p.setAttention then claim + [SetPlain(Attention, "1")] else claim, p)
  }

  /** A writes-on-hold refresh: baseline and freshness, never the claim. */
  function HoldCommands(stampedAt: u64, hash: Option<u64>): seq<Command> {
    (if hash.Some? then [SetPlain(Hash, Show(hash.value))] else []) + [SetPlain(StampedAt, Show(stampedAt))]
  }

  /** `if-shell -F`: the predicate is evaluated once for the whole dependent group. */
  function RunGroup(s: Options, test: Format, body: seq<Command>): Options {
    if Truthy(Expand(test, s)) then Run(s, body) else s
  }

  // ----- one evaluation of the guard ---------------------------------------------------------

  /** The arbitrated tuple as the server reads it. */
  datatype Tuple = Tuple(
    since: string, state: string, detail: string, source: string, evidenceAt: string, attention: string)

  function TupleOf(s: Options): Tuple {
    Tuple(Get(s, Since), Get(s, State), Get(s, Detail), Get(s, Source), Get(s, EvidenceAt), Get(s, Attention))
  }

  predicate KeepsSince(t: Tuple, p: Publish) {
    && t.state == p.state.Token()
    && Operand(t.since).Some?
    && Operand(t.since).value <= SatAdd(p.stampedAt, CLOCK_STEP_SKEW_MS)
  }

  /** The whole tuple the publish intends over a stored `t`. */
  function Intended(t: Tuple, p: Publish): Tuple {
    Tuple(if KeepsSince(t, p) then t.since else Show(p.since),
          p.state.Token(), SafeDetail(p.detail), p.source.Token(), Show(p.evidenceAt),
          if p.setAttention then "1" else t.attention)
  }

  /** The suppression rule, read off the stored tuple. */
  predicate Suppressed(g: Guard, t: Tuple) {
    var evidence := Operand(t.evidenceAt);
    match g
    case Unconditional => false
    case ProtectHook => t.source == "hook"
    case CarveOut(at) => t.source == "hook" && evidence.Some? && at <= evidence.value
    case RefreshClaim(state) => t.state != state.Token()
    case HookArbitrate(at) => t.source == "hook" && evidence.Some? && at < evidence.value
  }

  /** What a publish leaves if its guard is evaluated once, before anything is written. */
  function Atomic(t: Tuple, p: Publish): Tuple {
    if Suppressed(p.guard, t) then t else Intended(t, p)
  }

  /** The pairing of guard and claim the producers build (see `Cycle.PlanIsPaired`). */
  predicate Paired(p: Publish) {
    match p.guard
    case Unconditional => true
    case ProtectHook => p.source != Hook
    case CarveOut(_) => p.source != Hook
    case RefreshClaim(state) => p.state == state
    case HookArbitrate(at) => p.source == Hook && p.evidenceAt == at
  }

  /** The one torn case: a hook stamp over a stored non-hook claim whose evidence is newer. The
      chain makes the store hook-sourced before it reaches `@agent_evidence_at`. */
  predicate Tears(t: Tuple, p: Publish) {
    && p.guard.HookArbitrate?
    && t.source != "hook"
    && Operand(t.evidenceAt).Some?
    && p.guard.evidenceAt < Operand(t.evidenceAt).value
  }

  lemma ShownOperand(n: nat)
    ensures Operand(Show(n)) == Some(n) && Show(n) != ""
  {
    ShowValue(n);
    assert IsDigit(Show(n)[0]);
  }

  lemma BothMeaning(l: Format, r: Format, s: Options)
    ensures Truthy(Expand(Both(l, r), s)) <==> Truthy(Expand(l, s)) && Truthy(Expand(r, s))
  {
    assert Flag(true) == "1" && Flag(false) == "0";
  }

  lemma CompareMeaning(rel: Relation, l: Format, r: Format, s: Options)
    ensures Truthy(Expand(Compare(rel, l, r), s)) <==>
      var a, b := Operand(Expand(l, s)), Operand(Expand(r, s));
      a.Some? && b.Some? && Holds(rel, a.value, b.value)
  {
    assert Flag(true) == "1" && Flag(false) == "0";
  }

  lemma SameStateMeaning(state: AgentState, s: Options)
    ensures Truthy(Expand(SameState(state), s)) <==> Get(s, State) == state.Token()
  {
    assert Flag(true) == "1" && Flag(false) == "0";
  }

  lemma ChooseMeaning(test: Format, yes: Format, no: Format, s: Options)
    ensures Expand(Choose(test, yes, no), s) == if Truthy(Expand(test, s)) then Expand(yes, s) else Expand(no, s)
  {
  }

  /** The format the server evaluates is the suppression rule. */
  lemma BlocksMeaning(g: Guard, s: Options)
    ensures g.Blocks(s) <==> Suppressed(g, TupleOf(s))
  {
    var hookSourced := Same(Stored(Source), Literal("hook"));
    assert Expand(hookSourced, s) == Flag(Get(s, Source) == "hook");
    assert Flag(true) == "1" && Flag(false) == "0";
    match g
    case CarveOut(at) =>
      ShownOperand(at);
      BothMeaning(hookSourced, Compare(AtMost, Literal(Show(at)), Stored(EvidenceAt)), s);
      CompareMeaning(AtMost, Literal(Show(at)), Stored(EvidenceAt), s);
    case HookArbitrate(at) =>
      ShownOperand(at);
      BothMeaning(hookSourced, Compare(Below, Literal(Show(at)), Stored(EvidenceAt)), s);
      CompareMeaning(Below, Literal(Show(at)), Stored(EvidenceAt), s);
    case RefreshClaim(state) =>
      SameStateMeaning(state, s);
      ChooseMeaning(SameState(state), Literal("0"), Literal("1"), s);
    case _ =>
  }

  lemma OnceMeaning(p: Publish, s: Options)
    ensures Expand(OnceFormat(p), s) == if KeepsSince(TupleOf(s), p) then Get(s, Since) else Show(p.since)
  {
    ShownOperand(SatAdd(p.stampedAt, CLOCK_STEP_SKEW_MS));
    SameStateMeaning(p.state, s);
    CompareMeaning(AtMost, Stored(Since), Literal(Show(SatAdd(p.stampedAt, CLOCK_STEP_SKEW_MS))), s);
    BothMeaning(SameState(p.state), SinceInRange(p), s);
    ChooseMeaning(Both(SameState(p.state), SinceInRange(p)), Stored(Since), Literal(Show(p.since)), s);
  }

  function Put(t: Tuple, key: Key, text: string): Tuple {
    match key
    case Since => t.(since := text)
    case State => t.(state := text)
    case Detail => t.(detail := text)
    case Source => t.(source := text)
    case EvidenceAt => t.(evidenceAt := text)
    case Attention => t.(attention := text)
    case _ => t
  }

  predicate InTuple(key: Key) {
    key.Since? || key.State? || key.Detail? || key.Source? || key.EvidenceAt? || key.Attention?
  }

  /** The bookkeeping options next to the tuple. */
  datatype Markers = Markers(hash: string, notifiedAt: string, turnAt: string)

  function MarkersOf(s: Options): Markers {
    Markers(Get(s, Hash), Get(s, NotifiedAt), Get(s, TurnAt))
  }

  /** The tuple, its markers and the identity stamps: all a reader of the claim decodes. */
  datatype View = View(tuple: Tuple, markers: Markers, pid: string, stampedAt: string)

  function ViewOf(s: Options): View {
    View(TupleOf(s), MarkersOf(s), Get(s, Pid), Get(s, StampedAt))
  }

  function PutView(v: View, key: Key, text: string): View {
    match key
    case Hash => v.(markers := v.markers.(hash := text))
    case NotifiedAt => v.(markers := v.markers.(notifiedAt := text))
    case TurnAt => v.(markers := v.markers.(turnAt := text))
    case Pid => v.(pid := text)
    case StampedAt => v.(stampedAt := text)
    case _ => v.(tuple := Put(v.tuple, key, text))
  }

  /** One guarded field of the chain, pushed after `cmds`. */
  lemma GuardedPush(s: Options, cmds: seq<Command>, g: Guard, key: Key, update: Format)
    requires InTuple(key)
    ensures var t := TupleOf(Run(s, cmds));
      TupleOf(Run(s, cmds + [Guarded(g, key, update)]))
      == if Suppressed(g, t) then t else Put(t, key, Expand(update, Run(s, cmds)))
    ensures MarkersOf(Run(s, cmds + [Guarded(g, key, update)])) == MarkersOf(Run(s, cmds))
  {
    RunPush(s, cmds, Guarded(g, key, update));
    GuardedStep(Run(s, cmds), g, key, update);
    var text := if Suppressed(g, TupleOf(Run(s, cmds))) then Get(Run(s, cmds), key) else Expand(update, Run(s, cmds));
    TupleWith(Run(s, cmds), key, text);
  }

  lemma GuardedStep(t: Options, g: Guard, key: Key, update: Format)
    ensures Step(t, Guarded(g, key, update))
         == t[key := if Suppressed(g, TupleOf(t)) then Get(t, key) else Expand(update, t)]
  {
    BlocksMeaning(g, t);
    assert Expand(Stored(key), t) == Get(t, key);
  }

  lemma TupleWith(t: Options, key: Key, text: string)
    requires InTuple(key)
    ensures TupleOf(t[key := text]) == Put(TupleOf(t), key, text) && MarkersOf(t[key := text]) == MarkersOf(t)
    ensures text == Get(t, key) ==> Put(TupleOf(t), key, text) == TupleOf(t)
  {
  }

  lemma GuardedLiteral(s: Options, cmds: seq<Command>, g: Guard, key: Key, text: string)
    requires InTuple(key)
    ensures MarkersOf(Run(s, cmds + [Guarded(g, key, Literal(text))])) == MarkersOf(Run(s, cmds))
    ensures var t := TupleOf(Run(s, cmds));
      TupleOf(Run(s, cmds + [Guarded(g, key, Literal(text))])) == if Suppressed(g, t) then t else Put(t, key, text)
  {
    GuardedPush(s, cmds, g, key, Literal(text));
  }

  lemma GuardedHead(s: Options, g: Guard, key: Key, update: Format)
    requires InTuple(key)
    ensures MarkersOf(Run(s, [Guarded(g, key, update)])) == MarkersOf(s)
    ensures var t := TupleOf(s);
      TupleOf(Run(s, [Guarded(g, key, update)])) == if Suppressed(g, t) then t else Put(t, key, Expand(update, s))
  {
    var none: seq<Command> := [];
    GuardedPush(s, none, g, key, update);
    assert none + [Guarded(g, key, update)] == [Guarded(g, key, update)];
  }

  /** The literal fields of the chain, after the `since` write. */
  lemma GuardedRest(s: Options, c1: seq<Command>, g: Guard, state: string, detail: string, source: string,
                    evidence: string)
    returns (t2: Tuple, t3: Tuple, t4: Tuple, t5: Tuple, t6: Tuple)
    ensures var t1 := TupleOf(Run(s, c1)); t2 == if Suppressed(g, t1) then t1 else t1.(state := state)
    ensures t3 == if Suppressed(g, t2) then t2 else t2.(detail := detail)
    ensures t4 == if Suppressed(g, t3) then t3 else t3.(source := source)
    ensures t5 == if Suppressed(g, t4) then t4 else t4.(evidenceAt := evidence)
    ensures t6 == if Suppressed(g, t5) then t5 else t5.(attention := "1")
    ensures var claim := c1 + [Guarded(g, State, Literal(state))] + [Guarded(g, Detail, Literal(detail))]
        + [Guarded(g, Source, Literal(source))] + [Guarded(g, EvidenceAt, Literal(evidence))];
      && TupleOf(Run(s, claim)) == t5 && TupleOf(Run(s, claim + [Guarded(g, Attention, Literal("1"))])) == t6
      && MarkersOf(Run(s, claim)) == MarkersOf(Run(s, c1))
      && MarkersOf(Run(s, claim + [Guarded(g, Attention, Literal("1"))])) == MarkersOf(Run(s, c1))
  {
    var c2 := c1 + [Guarded(g, State, Literal(state))];
    GuardedLiteral(s, c1, g, State, state);
    t2 := TupleOf(Run(s, c2));
    var c3 := c2 + [Guarded(g, Detail, Literal(detail))];
    GuardedLiteral(s, c2, g, Detail, detail);
    t3 := TupleOf(Run(s, c3));
    var c4 := c3 + [Guarded(g, Source, Literal(source))];
    GuardedLiteral(s, c3, g, Source, source);
    t4 := TupleOf(Run(s, c4));
    var c5 := c4 + [Guarded(g, EvidenceAt, Literal(evidence))];
    GuardedLiteral(s, c4, g, EvidenceAt, evidence);
    t5 := TupleOf(Run(s, c5));
    GuardedLiteral(s, c5, g, Attention, "1");
    t6 := TupleOf(Run(s, c5 + [Guarded(g, Attention, Literal("1"))]));
  }

  /** The tuples a guarded chain passes through, one per field; nothing else changes. */
  lemma GuardedTrace(s: Options, p: Publish) returns (t1: Tuple, t2: Tuple, t3: Tuple, t4: Tuple, t5: Tuple)
    ensures var t := TupleOf(s); t1 == if Suppressed(p.guard, t) then t else t.(since := Intended(t, p).since)
    ensures t2 == if Suppressed(p.guard, t1) then t1 else t1.(state := p.state.Token())
    ensures t3 == if Suppressed(p.guard, t2) then t2 else t2.(detail := SafeDetail(p.detail))
    ensures t4 == if Suppressed(p.guard, t3) then t3 else t3.(source := p.source.Token())
    ensures t5 == if Suppressed(p.guard, t4) then t4 else t4.(evidenceAt := Show(p.evidenceAt))
    ensures TupleOf(Run(s, GuardedCommands(p))) ==
      if p.setAttention && !Suppressed(p.guard, t5) then t5.(attention := "1") else t5
    ensures MarkersOf(Run(s, GuardedCommands(p))) == MarkersOf(s)
  {
    GuardedHead(s, p.guard, Since, OnceFormat(p));
    OnceMeaning(p, s);
    var c1 := [Guarded(p.guard, Since, OnceFormat(p))];
    t1 := TupleOf(Run(s, c1));
    var t6;
    t2, t3, t4, t5, t6 :=
      GuardedRest(s, c1, p.guard, p.state.Token(), SafeDetail(p.detail), p.source.Token(), Show(p.evidenceAt));
  }
}
