/** The verdict fold: a precedence ladder over one cycle's evidence and the persisted claim. Every
    instant is injected, in milliseconds. */
module Fold {
  import opened Basics
  import opened Stamp

  datatype Source = ProgramStatus | HookEvent | ScreenRule | Title {
    function Bucket(): Provenance {
      match this
      case HookEvent => Hook
      case ProgramStatus => Hook
      case _ => Capture
    }
  }

  datatype Claim = StateClaim(state: AgentState, detail: Option<string>) | Lifecycle(start: bool)

  datatype Evidence = Evidence(source: Source, claim: Claim, at: u64)

  datatype FoldConfig = FoldConfig(dwellSecs: u64, hookDecaySecs: u64, blockedDecaySecs: u64) {
    function DwellMs(): u64 { SatMillis(dwellSecs) }

    function DecayMs(state: AgentState): u64 {
      if state == Blocked then SatMillis(blockedDecaySecs) else SatMillis(hookDecaySecs)
    }
  }

  datatype SnapshotFacts = SnapshotFacts(pid: u32, foregroundIsAgent: bool, scrolled: bool, historyView: bool)

  datatype ProgramResult = ProgramResult(generation: u64, cycle: u64, failure: bool, pending: bool)

  datatype ProgramSelection = ProgramSelection(
    state: AgentState, detail: Option<string>, at: u64, owner: u64, result: Option<ProgramResult>)

  datatype WriteAction = Commit | Hold

  datatype WritePlan = WritePlan(action: WriteAction, mayOverride: bool, setAttention: bool, episodeReset: bool)

  datatype ProgramVerdict = ProgramVerdict(owner: u64, result: Option<ProgramResult>)

  datatype Verdict = Verdict(
    state: AgentState,
    detail: Option<string>,
    origin: Option<Source>,
    source: Provenance,
    at: u64,
    writes: WritePlan,
    program: Option<ProgramVerdict>)

  // ----- selecting evidence ------------------------------------------------------------------

  predicate IsHookState(e: Evidence) {
    e.source == HookEvent && e.claim.StateClaim?
  }

  predicate IsScreen(e: Evidence, state: AgentState) {
    (e.source == ScreenRule || e.source == Title) && e.claim.StateClaim? && e.claim.state == state
  }

  /** The freshest matching record; the later one of a tie. */
  function Latest(evidence: seq<Evidence>, matches: Evidence -> bool): Option<Evidence> {
    if evidence == [] then None else
    var last := evidence[|evidence| - 1];
    var prior := Latest(evidence[..|evidence| - 1], matches);
    if matches(last) && (prior.None? || prior.value.at <= last.at) then Some(last) else prior
  }

  lemma {:induction false} LatestMeaning(evidence: seq<Evidence>, matches: Evidence -> bool)
    ensures var found := Latest(evidence, matches);
      && (found.None? <==> forall e | e in evidence :: !matches(e))
      && (found.Some? ==> found.value in evidence && matches(found.value))
      && (found.Some? ==> forall e | e in evidence && matches(e) :: e.at <= found.value.at)
  {
    if evidence != [] {
      var rest, last := evidence[..|evidence| - 1], evidence[|evidence| - 1];
      LatestMeaning(rest, matches);
      assert forall e :: e in evidence <==> e in rest || e == last;
    }
  }

  // ----- the ladder ---------------------------------------------------------------------------

  /** Same-pane agent replacement, judged only between two known pids. */
  predicate EpisodeReset(prev: Option<StampedState>, facts: SnapshotFacts) {
    prev.Some? && prev.value.pid != 0 && facts.pid != 0 && prev.value.pid != facts.pid
  }

  function ProtectedHook(prev: Option<StampedState>): Option<StampedState> {
    if prev.Some? && prev.value.source == Hook && prev.value.state != Unknown then prev else None
  }

  /** Attention marks entry into `blocked` and the completion of work. */
  function Noteworthy(state: AgentState, prev: Option<StampedState>): bool {
    match state
    case Blocked => prev.None? || prev.value.state != Blocked
    case Idle => prev.Some? && prev.value.state == Working
    case _ => false
  }

  function FinishPublish(state: AgentState, detail: Option<string>, origin: Option<Source>, source: Provenance,
                         at: u64, mayOverride: bool, prev: Option<StampedState>, reset: bool): Verdict {
    Verdict(state, detail, origin, source, at, WritePlan(Commit, mayOverride, Noteworthy(state, prev), reset), None)
  }

  function PublishFrom(e: Evidence, state: AgentState, mayOverride: bool, prev: Option<StampedState>,
                       reset: bool): Verdict {
    FinishPublish(state, if e.claim.StateClaim? then e.claim.detail else None,
                  Some(e.source), e.source.Bucket(), e.at, mayOverride, prev, reset)
  }

  /** Refresh freshness only; with nothing to hold, publish `unknown` once. */
  function HoldVerdict(prev: Option<StampedState>, reset: bool, now: u64): Verdict {
    match prev
    case Some(p) => Verdict(p.state, p.detail, None, p.source, p.evidenceAt, WritePlan(Hold, false, false, reset), None)
    case None => Verdict(Unknown, None, None, Capture, now, WritePlan(Commit, false, false, reset), None)
  }

  /** Evidence consistent with the stored hook claim advances its evidence time. */
  function Corroborate(p: StampedState, e: Evidence, reset: bool): Verdict {
    Verdict(p.state, p.detail, None, Hook, e.at, WritePlan(Commit, false, false, reset), None)
  }

  datatype ScreenClaims = ScreenClaims(blocker: Option<Evidence>, working: Option<Evidence>, idle: Option<Evidence>)

  function ReadScreen(evidence: seq<Evidence>): ScreenClaims {
    ScreenClaims(
      Latest(evidence, e => IsScreen(e, Blocked)),
      Latest(evidence, e => IsScreen(e, Working)),
      Latest(evidence, e => IsScreen(e, Idle)))
  }

  function Decayed(p: StampedState, visible: set<AgentState>, cfg: FoldConfig, now: u64): bool {
    SatSub(now, p.evidenceAt) > cfg.DecayMs(p.state) && p.state in visible
  }

  /** Screen evidence against a protected hook claim. */
  function FoldAgainstHook(p: StampedState, claims: ScreenClaims, visible: set<AgentState>,
                           cfg: FoldConfig, now: u64, reset: bool): Verdict {
    if p.state == Blocked && claims.blocker.Some? then
      Corroborate(p, claims.blocker.value, reset)
    else if p.state != Blocked && claims.blocker.Some? then
      if claims.blocker.value.at > p.evidenceAt
      then PublishFrom(claims.blocker.value, Blocked, false, Some(p), reset)
      else HoldVerdict(Some(p), reset, now)
    else
      var candidate := if claims.working.Some? then claims.working else claims.idle;
      if candidate.None? then HoldVerdict(Some(p), reset, now) else
      var state := if claims.working.Some? then Working else Idle;
      if state == p.state then Corroborate(p, candidate.value, reset)
      else if !Decayed(p, visible, cfg, now) then HoldVerdict(Some(p), reset, now)
      else if p.state == Working && state == Idle && SatSub(now, p.evidenceAt) <= cfg.DwellMs()
      then HoldVerdict(Some(p), reset, now)
      else PublishFrom(candidate.value, state, true, Some(p), reset)
  }

  function FoldProgram(program: ProgramSelection, prev: Option<StampedState>, reset: bool): Verdict {
    var decision :=
      FinishPublish(program.state, program.detail, Some(ProgramStatus), Hook, program.at, true, prev, reset);
    decision.(
      writes := decision.writes.(setAttention :=
        if program.state == Blocked then prev.None? || prev.value.state != Blocked
        else program.result.Some? && program.result.value.pending),
      program := Some(ProgramVerdict(program.owner, program.result)))
  }

  /** The screen order against a non-hook prior. */
  function FoldScreen(claims: ScreenClaims, prev: Option<StampedState>, cfg: FoldConfig, now: u64,
                      reset: bool): Verdict {
    if claims.blocker.Some? then PublishFrom(claims.blocker.value, Blocked, false, prev, reset)
    else if claims.working.Some? then PublishFrom(claims.working.value, Working, false, prev, reset)
    else if claims.idle.Some? then
      if prev.Some? && prev.value.state == Working && SatSub(now, prev.value.evidenceAt) <= cfg.DwellMs()
      then HoldVerdict(prev, reset, now)
      else PublishFrom(claims.idle.value, Idle, false, prev, reset)
    else HoldVerdict(prev, reset, now)
  }

  function Judge(stored: Option<StampedState>, facts: SnapshotFacts, evidence: seq<Evidence>,
                 visible: set<AgentState>, cfg: FoldConfig, now: u64, program: Option<ProgramSelection>): Verdict {
    var reset := EpisodeReset(stored, facts);
    var prev := if reset then None else stored;
    if program.Some? then FoldProgram(program.value, prev, reset) else
    var hook := Latest(evidence, e => IsHookState(e));
    if hook.Some? && hook.value.claim.StateClaim? then
      FinishPublish(hook.value.claim.state, hook.value.claim.detail, Some(HookEvent), Hook, hook.value.at, true,
                    prev, reset)
    else if !facts.foregroundIsAgent then
      if ProtectedHook(prev).Some? && facts.pid != 0 then HoldVerdict(prev, reset, now)
      else FinishPublish(Unknown, None, None, Process, now, true, prev, reset)
    else if facts.scrolled || facts.historyView then HoldVerdict(prev, reset, now)
    else
      var claims := ReadScreen(evidence);
      match ProtectedHook(prev)
      case Some(p) => FoldAgainstHook(p, claims, visible, cfg, now, reset)
      case None => FoldScreen(claims, prev, cfg, now, reset)
  }

  // ----- when a hook claim may be flipped ---------------------------------------------------------

  predicate ShowsScreen(evidence: seq<Evidence>, state: AgentState) {
    exists e | e in evidence :: IsScreen(e, state)
  }

  predicate HookSilent(evidence: seq<Evidence>) {
    forall e | e in evidence :: !IsHookState(e)
  }

  /** The agent owns a live screen this cycle. */
  predicate LiveScreen(facts: SnapshotFacts) {
    facts.foregroundIsAgent && !facts.scrolled && !facts.historyView
  }

  /** Blocker chrome strictly newer than a working or idle claim. */
  predicate CarvedOut(p: StampedState, evidence: seq<Evidence>) {
    p.state != Blocked && exists e | e in evidence :: IsScreen(e, Blocked) && e.at > p.evidenceAt
  }

  /** Without blocker chrome, the best screen claim (working before idle) contradicts the hook
      past its decay window, on a capture-visible state, and dwell does not hold it. */
  predicate Expired(p: StampedState, evidence: seq<Evidence>, visible: set<AgentState>, cfg: FoldConfig, now: u64) {
    && !ShowsScreen(evidence, Blocked)
    && (ShowsScreen(evidence, Working) || ShowsScreen(evidence, Idle))
    && p.state != (if ShowsScreen(evidence, Working) then Working else Idle)
    && Decayed(p, visible, cfg, now)
    && !(p.state == Working && SatSub(now, p.evidenceAt) <= cfg.DwellMs())
  }

  predicate Flips(p: StampedState, facts: SnapshotFacts, evidence: seq<Evidence>,
                  visible: set<AgentState>, cfg: FoldConfig, now: u64) {
    || (!facts.foregroundIsAgent && facts.pid == 0)
    || (LiveScreen(facts) && (CarvedOut(p, evidence) || Expired(p, evidence, visible, cfg, now)))
  }

  lemma ScreenMeaning(evidence: seq<Evidence>)
    ensures var claims := ReadScreen(evidence);
      && (claims.blocker.Some? <==> ShowsScreen(evidence, Blocked))
      && (claims.working.Some? <==> ShowsScreen(evidence, Working))
      && (claims.idle.Some? <==> ShowsScreen(evidence, Idle))
      && (claims.blocker.Some? ==> IsScreen(claims.blocker.value, Blocked) && claims.blocker.value in evidence)
      && (claims.blocker.Some? ==> forall e | e in evidence && IsScreen(e, Blocked) :: e.at <= claims.blocker.value.at)
      && (claims.working.Some? ==> IsScreen(claims.working.value, Working) && claims.working.value in evidence)
      && (claims.idle.Some? ==> IsScreen(claims.idle.value, Idle) && claims.idle.value in evidence)
  {
    LatestMeaning(evidence, e => IsScreen(e, Blocked));
    LatestMeaning(evidence, e => IsScreen(e, Working));
    LatestMeaning(evidence, e => IsScreen(e, Idle));
  }

  /** The exact flip condition of a protected hook claim. */
  lemma FlipExactly(p: StampedState, facts: SnapshotFacts, evidence: seq<Evidence>,
                    visible: set<AgentState>, cfg: FoldConfig, now: u64)
    requires ProtectedHook(Some(p)) == Some(p)
    requires !EpisodeReset(Some(p), facts) && HookSilent(evidence)
    ensures Judge(Some(p), facts, evidence, visible, cfg, now, None).state != p.state
        <==> Flips(p, facts, evidence, visible, cfg, now)
  {
    LatestMeaning(evidence, e => IsHookState(e));
    ScreenMeaning(evidence);
  }

  // ----- evidence that carries no authority -----------------------------------------------------

  /** Raw program reports and lifecycle records. */
  predicate Powerless(e: Evidence) {
    e.source == ProgramStatus || e.claim.Lifecycle?
  }

  function Authoritative(evidence: seq<Evidence>): seq<Evidence> {
    if evidence == [] then [] else
    var rest, last := Authoritative(evidence[..|evidence| - 1]), evidence[|evidence| - 1];
    if Powerless(last) then rest else rest + [last]
  }

  lemma {:induction false} LatestAuthoritative(evidence: seq<Evidence>, matches: Evidence -> bool)
    requires forall e | matches(e) :: !Powerless(e)
    ensures Latest(Authoritative(evidence), matches) == Latest(evidence, matches)
  {
    if evidence != [] {
      var rest, last := evidence[..|evidence| - 1], evidence[|evidence| - 1];
      LatestAuthoritative(rest, matches);
      if !Powerless(last) {
        assert (Authoritative(rest) + [last])[..|Authoritative(rest)|] == Authoritative(rest);
      }
    }
  }

  /** Removing raw program reports and lifecycle records never changes the verdict. */
  lemma PowerlessEvidence(stored: Option<StampedState>, facts: SnapshotFacts, evidence: seq<Evidence>,
                          visible: set<AgentState>, cfg: FoldConfig, now: u64, program: Option<ProgramSelection>)
    ensures Judge(stored, facts, Authoritative(evidence), visible, cfg, now, program)
         == Judge(stored, facts, evidence, visible, cfg, now, program)
  {
    LatestAuthoritative(evidence, e => IsHookState(e));
    LatestAuthoritative(evidence, e => IsScreen(e, Blocked));
    LatestAuthoritative(evidence, e => IsScreen(e, Working));
    LatestAuthoritative(evidence, e => IsScreen(e, Idle));
  }
}
