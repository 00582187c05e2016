/** The verdict of the fold, read off the evidence list itself: which record decides, and what of it the
    verdict carries. The cases are disjoint and cover every input. */
module Verdicts {
  import opened Basics
  import opened Stamp
  import opened Fold

  // ----- which record decides -------------------------------------------------------------------

  /** A claim of a state by one of the sources, of the given state if one is named. */
  predicate Claims(e: Evidence, sources: set<Source>, state: Option<AgentState>) {
    e.source in sources && e.claim.StateClaim? && (state.Some? ==> state == Some(e.claim.state))
  }

  /** The newest of them, and the last of equals. */
  predicate Newest(evidence: seq<Evidence>, i: int, sources: set<Source>, state: Option<AgentState>) {
    && 0 <= i < |evidence| && Claims(evidence[i], sources, state)
    && (forall k | 0 <= k < |evidence| && Claims(evidence[k], sources, state) :: evidence[k].at <= evidence[i].at)
    && (forall k | i < k < |evidence| && Claims(evidence[k], sources, state) :: evidence[k].at < evidence[i].at)
  }

  predicate Silent(evidence: seq<Evidence>, sources: set<Source>, state: Option<AgentState>) {
    forall e | e in evidence :: !Claims(e, sources, state)
  }

  const HOOKS: set<Source> := {HookEvent}
  const SCREEN: set<Source> := {ScreenRule, Title}

  /** Where anything makes such a claim, one record is the newest. */
  lemma {:induction false} NewestExists(evidence: seq<Evidence>, sources: set<Source>, state: Option<AgentState>)
    returns (i: int)
    requires !Silent(evidence, sources, state)
    ensures Newest(evidence, i, sources, state)
    decreases |evidence|
  {
    var last := |evidence| - 1;
    var rest := evidence[..last];
    if Silent(rest, sources, state) {
      i := last;
      forall k | 0 <= k < last ensures !Claims(evidence[k], sources, state) {
        assert evidence[k] == rest[k] && rest[k] in rest;
      }
    } else {
      i := NewestExists(rest, sources, state);
      assert forall k | 0 <= k < last :: evidence[k] == rest[k];
      if Claims(evidence[last], sources, state) && evidence[i].at <= evidence[last].at { i := last; }
    }
  }

  lemma {:induction false} LatestIsNewest(evidence: seq<Evidence>, matches: Evidence -> bool, i: int,
                                          sources: set<Source>, state: Option<AgentState>)
    requires forall e | e in evidence :: matches(e) <==> Claims(e, sources, state)
    ensures Newest(evidence, i, sources, state) ==> Latest(evidence, matches) == Some(evidence[i])
    ensures Silent(evidence, sources, state) ==> Latest(evidence, matches) == None
    decreases |evidence|
  {
    if evidence != [] {
      var last := |evidence| - 1;
      var rest := evidence[..last];
      assert forall k | 0 <= k < last :: evidence[k] == rest[k];
      LatestIsNewest(rest, matches, i, sources, state);
      LatestMeaning(rest, matches);
      assert evidence[last] in evidence;
      if Newest(evidence, i, sources, state) && i == last {
        var prior := Latest(rest, matches);
        if prior.Some? {
          var k :| 0 <= k < |rest| && rest[k] == prior.value;
          assert Claims(evidence[k], sources, state);
        }
      }
    }
  }

  lemma HookIs(evidence: seq<Evidence>, i: int)
    ensures Newest(evidence, i, HOOKS, None) ==> Latest(evidence, e => IsHookState(e)) == Some(evidence[i])
    ensures Silent(evidence, HOOKS, None) ==> Latest(evidence, e => IsHookState(e)) == None
  {
    LatestIsNewest(evidence, e => IsHookState(e), i, HOOKS, None);
  }

  lemma ScreenIs(evidence: seq<Evidence>, state: AgentState, i: int)
    ensures Newest(evidence, i, SCREEN, Some(state)) ==> Latest(evidence, e => IsScreen(e, state)) == Some(evidence[i])
    ensures Silent(evidence, SCREEN, Some(state)) ==> Latest(evidence, e => IsScreen(e, state)) == None
  {
    LatestIsNewest(evidence, e => IsScreen(e, state), i, SCREEN, Some(state));
  }

  // ----- the conditions ---------------------------------------------------------------------------

  /** Another agent runs on the pane than the one that was stamped, both known. */
  lemma ResetExactly(stored: Option<StampedState>, facts: SnapshotFacts)
    ensures EpisodeReset(stored, facts)
       <==> facts.pid != 0 && stored.Some? && stored.value.pid !in {0, facts.pid}
  {
  }

  /** Attention: entering `blocked`, or finishing work. */
  lemma AttentionExactly(state: AgentState, prev: Option<StampedState>)
    ensures Noteworthy(state, prev)
       <==> || (state == Blocked && !(prev.Some? && prev.value.state == Blocked))
            || (state == Idle && prev.Some? && prev.value.state == Working)
  {
  }

  lemma WindowsExactly(p: StampedState, visible: set<AgentState>, cfg: FoldConfig, now: u64)
    ensures Decayed(p, visible, cfg, now)
       <==> && p.state in visible
            && now - p.evidenceAt > 1000 * (if p.state == Blocked then cfg.blockedDecaySecs else cfg.hookDecaySecs)
    ensures SatSub(now, p.evidenceAt) <= cfg.DwellMs() <==> now - p.evidenceAt <= 1000 * cfg.dwellSecs
  {
  }

  /** A claim of an agent since replaced counts for nothing. */
  function Kept(stored: Option<StampedState>, facts: SnapshotFacts): Option<StampedState> {
    if EpisodeReset(stored, facts) then None else stored
  }

  /** A verdict that leaves the stored claim as it is, or says `unknown` where there is none. */
  predicate Holds(v: Verdict, kept: Option<StampedState>, now: u64) {
    if kept.Some? then
      && v.writes.action == Hold && v.state == kept.value.state && v.detail == kept.value.detail
      && v.source == kept.value.source && v.at == kept.value.evidenceAt
    else
      && v.writes.action == Commit && v.state == Unknown && v.detail == None && v.source == Capture && v.at == now
  }

  /** A verdict that publishes what a record claims. */
  predicate Publishes(v: Verdict, e: Evidence, state: AgentState, source: Provenance, mayOverride: bool,
                      kept: Option<StampedState>) {
    && v.state == state && v.detail == (if e.claim.StateClaim? then e.claim.detail else None)
    && v.origin == Some(e.source) && v.source == source && v.at == e.at
    && v.writes.action == Commit && v.writes.mayOverride == mayOverride
    && v.writes.setAttention == Noteworthy(state, kept)
  }

  // ----- the cases --------------------------------------------------------------------------------

  /** A program report decides alone, whatever else is seen. */
  lemma ProgramDecides(stored: Option<StampedState>, facts: SnapshotFacts, evidence: seq<Evidence>,
                       visible: set<AgentState>, cfg: FoldConfig, now: u64, p: ProgramSelection)
    ensures var v := Judge(stored, facts, evidence, visible, cfg, now, Some(p));
      && v.state == p.state && v.detail == p.detail && v.at == p.at
      && v.source == Hook && v.origin == Some(ProgramStatus)
      && v.writes.action == Commit && v.writes.mayOverride
      && v.writes.episodeReset == EpisodeReset(stored, facts)
      && v.program == Some(ProgramVerdict(p.owner, p.result))
      && (v.writes.setAttention <==>
          if p.state == Blocked then !(Kept(stored, facts).Some? && Kept(stored, facts).value.state == Blocked)
          else p.result.Some? && p.result.value.pending)
  {
  }

  /** Otherwise the newest hook claim decides alone: its state, its detail, its instant, and the right to
      override, whatever is stored, shown or in the foreground. */
  lemma HookDecides(stored: Option<StampedState>, facts: SnapshotFacts, evidence: seq<Evidence>,
                    visible: set<AgentState>, cfg: FoldConfig, now: u64, i: int)
    requires Newest(evidence, i, HOOKS, None)
    ensures var v := Judge(stored, facts, evidence, visible, cfg, now, None);
      && Publishes(v, evidence[i], evidence[i].claim.state, Hook, true, Kept(stored, facts))
      && v.writes.episodeReset == EpisodeReset(stored, facts) && v.program == None
  {
    HookIs(evidence, i);
  }

  /** Without a hook claim, a foreign foreground holds a live agent's hook claim and is `unknown`
      otherwise, with the right to override. */
  lemma ForeignDecides(stored: Option<StampedState>, facts: SnapshotFacts, evidence: seq<Evidence>,
                       visible: set<AgentState>, cfg: FoldConfig, now: u64)
    requires Silent(evidence, HOOKS, None) && !facts.foregroundIsAgent
    ensures var v, kept := Judge(stored, facts, evidence, visible, cfg, now, None), Kept(stored, facts);
      if kept.Some? && kept.value.source == Hook && kept.value.state != Unknown && facts.pid != 0
      then Holds(v, kept, now)
      else && v.state == Unknown && v.detail == None && v.source == Process && v.at == now
           && v.writes.action == Commit && v.writes.mayOverride && !v.writes.setAttention
           && v.writes.episodeReset == EpisodeReset(stored, facts)
  {
    HookIs(evidence, 0);
  }

  /** A scrolled screen, or one that shows history, says nothing. */
  lemma HistoryDecides(stored: Option<StampedState>, facts: SnapshotFacts, evidence: seq<Evidence>,
                       visible: set<AgentState>, cfg: FoldConfig, now: u64)
    requires Silent(evidence, HOOKS, None) && facts.foregroundIsAgent && (facts.scrolled || facts.historyView)
    ensures var v := Judge(stored, facts, evidence, visible, cfg, now, None);
      Holds(v, Kept(stored, facts), now) && !v.writes.mayOverride && !v.writes.setAttention
  {
    HookIs(evidence, 0);
  }

  predicate Live(facts: SnapshotFacts) {
    facts.foregroundIsAgent && !facts.scrolled && !facts.historyView
  }

  /** The screen claim that counts: a blocker before work before idleness, the newest of its kind. */
  predicate Shows(evidence: seq<Evidence>, i: int, state: AgentState) {
    && Newest(evidence, i, SCREEN, Some(state))
    && (state != Blocked ==> Silent(evidence, SCREEN, Some(Blocked)))
    && (state == Idle ==> Silent(evidence, SCREEN, Some(Working)))
  }

  predicate ShowsNothing(evidence: seq<Evidence>) {
    && Silent(evidence, SCREEN, Some(Blocked)) && Silent(evidence, SCREEN, Some(Working))
    && Silent(evidence, SCREEN, Some(Idle))
  }

  /** A live screen over no protected hook claim: what it shows is published without the right to
      override, except that idleness waits out the dwell of a working claim. */
  lemma ScreenDecides(stored: Option<StampedState>, facts: SnapshotFacts, evidence: seq<Evidence>,
                      visible: set<AgentState>, cfg: FoldConfig, now: u64, i: int, state: AgentState)
    requires Silent(evidence, HOOKS, None) && Live(facts) && Shows(evidence, i, state) && state != Unknown
    requires var kept := Kept(stored, facts); kept.None? || kept.value.source != Hook || kept.value.state == Unknown
    ensures var v, kept := Judge(stored, facts, evidence, visible, cfg, now, None), Kept(stored, facts);
      if && state == Idle && kept.Some? && kept.value.state == Working
         && now - kept.value.evidenceAt <= 1000 * cfg.dwellSecs
      then Holds(v, kept, now)
      else Publishes(v, evidence[i], state, Capture, false, kept)
           && v.writes.episodeReset == EpisodeReset(stored, facts)
  {
    HookIs(evidence, 0);
    ScreenIs(evidence, Blocked, i);
    ScreenIs(evidence, Working, i);
    ScreenIs(evidence, Idle, i);
  }

  /** A live screen that shows nothing. */
  lemma NothingDecides(stored: Option<StampedState>, facts: SnapshotFacts, evidence: seq<Evidence>,
                       visible: set<AgentState>, cfg: FoldConfig, now: u64)
    requires Silent(evidence, HOOKS, None) && Live(facts) && ShowsNothing(evidence)
    ensures var v := Judge(stored, facts, evidence, visible, cfg, now, None);
      Holds(v, Kept(stored, facts), now) && !v.writes.mayOverride && !v.writes.setAttention
  {
    HookIs(evidence, 0);
    ScreenIs(evidence, Blocked, 0);
    ScreenIs(evidence, Working, 0);
    ScreenIs(evidence, Idle, 0);
  }

  /** A live screen over a protected hook claim: agreement advances its instant; a newer blocker takes
      over; anything else waits until the claim has decayed, and then overrides it. */
  lemma ScreenAgainstHook(p: StampedState, facts: SnapshotFacts, evidence: seq<Evidence>,
                          visible: set<AgentState>, cfg: FoldConfig, now: u64, i: int, state: AgentState)
    requires Silent(evidence, HOOKS, None) && Live(facts) && Shows(evidence, i, state) && state != Unknown
    requires !EpisodeReset(Some(p), facts) && p.source == Hook && p.state != Unknown
    ensures var v, e := Judge(Some(p), facts, evidence, visible, cfg, now, None), evidence[i];
      if state == p.state then
        && v.state == p.state && v.detail == p.detail && v.source == Hook && v.at == e.at
        && v.writes == WritePlan(Commit, false, false, false)
      else if state == Blocked then
        if e.at > p.evidenceAt then Publishes(v, e, Blocked, Capture, false, Some(p)) else Holds(v, Some(p), now)
      else if && p.state in visible
              && now - p.evidenceAt > 1000 * (if p.state == Blocked then cfg.blockedDecaySecs else cfg.hookDecaySecs)
              && !(p.state == Working && state == Idle && now - p.evidenceAt <= 1000 * cfg.dwellSecs)
      then Publishes(v, e, state, Capture, true, Some(p))
      else Holds(v, Some(p), now)
  {
    HookIs(evidence, 0);
    ScreenIs(evidence, Blocked, i);
    ScreenIs(evidence, Working, i);
    ScreenIs(evidence, Idle, i);
    WindowsExactly(p, visible, cfg, now);
  }

  /** Every live screen falls under one of the cases. */
  lemma ScreenCases(evidence: seq<Evidence>) returns (i: int, state: AgentState)
    ensures ShowsNothing(evidence) || (state != Unknown && Shows(evidence, i, state))
  {
    i, state := 0, Unknown;
    if !Silent(evidence, SCREEN, Some(Blocked)) {
      state := Blocked;
    } else if !Silent(evidence, SCREEN, Some(Working)) {
      state := Working;
    } else if !Silent(evidence, SCREEN, Some(Idle)) {
      state := Idle;
    }
    if state != Unknown { i := NewestExists(evidence, SCREEN, Some(state)); }
  }
}
