/** Which rules win: at most one claim per state, from the candidate with the highest priority and
    then the lowest index, whatever the order in which rules are met. */
module Selection {
  import opened Basics
  import opened Regions

  // ----- rules ----------------------------------------------------------------------------------

  datatype Rule = Rule(
    state: AgentState, detail: Option<string>, priority: int, region: Region, skipStateUpdate: bool, matcher: Matcher)

  predicate Hit(rule: Rule, re: (nat, string) -> bool, snap: Snapshot) {
    Matches(rule.matcher, re, ExtractRegion(rule.region, snap))
  }

  datatype Report = Report(index: nat, rule: Rule, matched: bool)

  datatype Claim = Claim(index: nat, fromTitle: bool, state: AgentState, detail: Option<string>, at: u64)

  datatype Evaluation = Evaluation(evidence: seq<Claim>, reports: seq<Report>, historyView: bool)

  function ClaimOf(rules: seq<Rule>, w: nat, at: u64): Claim
    requires w < |rules|
  {
    Claim(w, rules[w].region.Title?, rules[w].state, rules[w].detail, at)
  }

  /** Reports on the rules, in order. */
  predicate Reported(rules: seq<Rule>, re: (nat, string) -> bool, snap: Snapshot, reports: seq<Report>) {
    |reports| <= |rules| && forall i | 0 <= i < |reports| :: reports[i] == Report(i, rules[i], Hit(rules[i], re, snap))
  }

  lemma ReportedGrows(rules: seq<Rule>, re: (nat, string) -> bool, snap: Snapshot, reports: seq<Report>, r: Report)
    requires Reported(rules, re, snap, reports) && |reports| < |rules|
    requires r == Report(|reports|, rules[|reports|], Hit(rules[|reports|], re, snap))
    ensures Reported(rules, re, snap, reports + [r])
  {
  }

  /** Some rule that matched shows a view of the history. */
  predicate HistoryShown(reports: seq<Report>) {
    exists i | 0 <= i < |reports| :: reports[i].matched && reports[i].rule.skipStateUpdate
  }

  lemma HistoryGrows(reports: seq<Report>, r: Report)
    ensures HistoryShown(reports + [r]) <==> HistoryShown(reports) || (r.matched && r.rule.skipStateUpdate)
  {
    assert (reports + [r])[|reports|] == r;
    forall i | 0 <= i < |reports| && reports[i].matched && reports[i].rule.skipStateUpdate
      ensures HistoryShown(reports + [r])
    {
      assert (reports + [r])[i] == reports[i];
    }
  }

  lemma HistoryOfRules(rules: seq<Rule>, re: (nat, string) -> bool, snap: Snapshot, reports: seq<Report>)
    requires Reported(rules, re, snap, reports) && |reports| == |rules|
    ensures HistoryShown(reports)
       <==> exists i | 0 <= i < |rules| :: Hit(rules[i], re, snap) && rules[i].skipStateUpdate
  {
    forall i | 0 <= i < |rules|
      ensures reports[i].matched == Hit(rules[i], re, snap)
      ensures reports[i].rule == rules[i]
    {
      assert reports[i] == Report(i, rules[i], Hit(rules[i], re, snap));
    }
  }

  /** A rule that matched and may claim a state. */
  predicate Candidate(reports: seq<Report>, j: nat, state: AgentState) {
    j < |reports| && reports[j].matched && !reports[j].rule.skipStateUpdate && reports[j].rule.state == state
  }

  /** The candidate of a state with the highest priority, and the lowest index among those. */
  ghost predicate Wins(reports: seq<Report>, w: nat, state: AgentState) {
    && Candidate(reports, w, state)
    && forall j: nat | Candidate(reports, j, state) ::
         || reports[j].rule.priority < reports[w].rule.priority
         || (reports[j].rule.priority == reports[w].rule.priority && w <= j)
  }

  // ----- selection ------------------------------------------------------------------------------

  /** The winning rule index of each state met so far. */
  type Best = map<AgentState, nat>

  predicate Outranks(r: Report, holder: Report) {
    r.rule.priority > holder.rule.priority
  }

  /** A state has an entry exactly when it has a candidate, and the entry names the winner. */
  ghost predicate Selected(reports: seq<Report>, best: Best) {
    && (forall state | state in best :: Wins(reports, best[state], state))
    && (forall j: nat, state | Candidate(reports, j, state) :: state in best)
  }

  /** The order of the tokens as text: blocked, idle, unknown, working. */
  function ByToken(r: nat): AgentState
    requires r < 4
  {
    if r == 0 then Blocked else if r == 1 then Idle else if r == 2 then Unknown else Working
  }

  /** The claims: one for each state that has a candidate, made by its winner, in token order. */
  ghost predicate Emitted(rules: seq<Rule>, reports: seq<Report>, evidence: seq<Claim>, at: u64)
    requires |reports| == |rules|
  {
    && Winners(rules, reports, evidence, at)
    && (forall state :: (exists j: nat :: Candidate(reports, j, state)) ==> Claimed(evidence, state))
    && InOrder(evidence)
  }

  predicate InOrder(evidence: seq<Claim>) {
    forall i, k | 0 <= i < k < |evidence| :: Rank(evidence[i].state) < Rank(evidence[k].state)
  }

  ghost predicate Winners(rules: seq<Rule>, reports: seq<Report>, evidence: seq<Claim>, at: u64)
    requires |reports| == |rules|
  {
    forall k | 0 <= k < |evidence| ::
      && Wins(reports, evidence[k].index, evidence[k].state)
      && evidence[k] == ClaimOf(rules, evidence[k].index, at)
  }

  /** The claims of the states whose token comes before the `r`th. */
  ghost predicate EmittedBelow(rules: seq<Rule>, reports: seq<Report>, best: Best, evidence: seq<Claim>,
                               at: u64, r: nat)
    requires |reports| == |rules|
  {
    && Winners(rules, reports, evidence, at)
    && Covers(best, evidence, r)
    && OrderedBelow(evidence, r)
  }

  predicate Covers(best: Best, evidence: seq<Claim>, r: nat) {
    forall state | Rank(state) < r && state in best :: Claimed(evidence, state)
  }

  predicate OrderedBelow(evidence: seq<Claim>, r: nat) {
    InOrder(evidence) && forall k | 0 <= k < |evidence| :: Rank(evidence[k].state) < r
  }

  lemma OrderJoins(evidence: seq<Claim>, more: seq<Claim>, r: nat)
    requires OrderedBelow(evidence, r) && |more| <= 1 && (|more| == 1 ==> Rank(more[0].state) == r)
    ensures OrderedBelow(evidence + more, r + 1)
  {
  }

  lemma CoversMore(best: Best, evidence: seq<Claim>, more: seq<Claim>, state: AgentState)
    requires Covers(best, evidence, Rank(state)) && (state in best ==> Claimed(more, state))
    ensures Covers(best, evidence + more, Rank(state) + 1)
  {
    forall s | Rank(s) < Rank(state) + 1 && s in best ensures Claimed(evidence + more, s) {
      ClaimedIn(evidence, more, s);
    }
  }

  lemma ClaimedIn(evidence: seq<Claim>, more: seq<Claim>, state: AgentState)
    ensures Claimed(evidence + more, state) <==> Claimed(evidence, state) || Claimed(more, state)
  {
    forall k | 0 <= k < |evidence| && evidence[k].state == state ensures Claimed(evidence + more, state) {
      assert (evidence + more)[k].state == state;
    }
    forall k | 0 <= k < |more| && more[k].state == state ensures Claimed(evidence + more, state) {
      assert (evidence + more)[|evidence| + k].state == state;
    }
  }

  lemma WinnerClaims(rules: seq<Rule>, reports: seq<Report>, best: Best, state: AgentState, at: u64)
    requires |reports| == |rules| && state in best && Wins(reports, best[state], state)
    requires forall i | 0 <= i < |rules| :: reports[i].rule == rules[i]
    ensures Winners(rules, reports, [ClaimOf(rules, best[state], at)], at)
    ensures ClaimOf(rules, best[state], at).state == state
  {
  }

  lemma WinnersJoin(rules: seq<Rule>, reports: seq<Report>, evidence: seq<Claim>, more: seq<Claim>, at: u64)
    requires |reports| == |rules| && Winners(rules, reports, evidence, at) && Winners(rules, reports, more, at)
    ensures Winners(rules, reports, evidence + more, at)
  {
  }

  lemma EmitOne(rules: seq<Rule>, reports: seq<Report>, best: Best, evidence: seq<Claim>, at: u64, r: nat,
                state: AgentState, more: seq<Claim>)
    requires |reports| == |rules| && Rank(state) == r
    requires EmittedBelow(rules, reports, best, evidence, at, r)
    requires Winners(rules, reports, more, at) && |more| <= 1 && (|more| == 1 ==> more[0].state == state)
    requires state in best ==> |more| == 1
    ensures EmittedBelow(rules, reports, best, evidence + more, at, r + 1)
  {
    WinnersJoin(rules, reports, evidence, more, at);
    OrderJoins(evidence, more, r);
    if |more| == 1 { assert more[0].state == state; }
    CoversMore(best, evidence, more, state);
  }

  lemma EmittedAll(rules: seq<Rule>, reports: seq<Report>, best: Best, evidence: seq<Claim>, at: u64)
    requires |reports| == |rules| && Selected(reports, best)
    requires EmittedBelow(rules, reports, best, evidence, at, 4)
    ensures Emitted(rules, reports, evidence, at)
  {
  }

  predicate Claimed(evidence: seq<Claim>, state: AgentState) {
    exists k | 0 <= k < |evidence| :: evidence[k].state == state
  }

  function Rank(state: AgentState): nat {
    match state
    case Blocked => 0
    case Idle => 1
    case Unknown => 2
    case Working => 3
  }

  /** A state has one winner. */
  lemma WinsOnce(reports: seq<Report>, w: nat, v: nat, state: AgentState)
    requires Wins(reports, w, state) && Wins(reports, v, state)
    ensures w == v
  {
    assert Candidate(reports, w, state) && Candidate(reports, v, state);
  }

  predicate Ascending(states: seq<AgentState>) {
    forall i, k | 0 <= i < k < |states| :: Rank(states[i]) < Rank(states[k])
  }

  /** Two ascending lists of the same states are one. */
  lemma {:induction false} AscendingOnce(xs: seq<AgentState>, ys: seq<AgentState>)
    requires Ascending(xs) && Ascending(ys) && forall state :: state in xs <==> state in ys
    ensures xs == ys
    decreases |xs|
  {
    Heads(xs, ys);
    if xs != [] {
      assert xs[0] in ys && ys != [] && ys[0] in xs;
      assert xs[0] == ys[0] by {
        var i :| 0 <= i < |ys| && ys[i] == xs[0];
        var k :| 0 <= k < |xs| && xs[k] == ys[0];
        SameRank(xs[0], ys[0]);
      }
      forall state ensures state in xs[1..] <==> state in ys[1..] {
        TailHas(xs, state);
        TailHas(ys, state);
      }
      AscendingOnce(xs[1..], ys[1..]);
    }
  }

  lemma Heads(xs: seq<AgentState>, ys: seq<AgentState>)
    requires forall state :: state in xs <==> state in ys
    ensures xs == [] <==> ys == []
  {
    if xs != [] { assert xs[0] in ys; }
    if ys != [] { assert ys[0] in xs; }
  }

  lemma TailHas(xs: seq<AgentState>, state: AgentState)
    requires xs != [] && Ascending(xs)
    ensures state in xs[1..] <==> state in xs && state != xs[0]
  {
  }

  lemma SameRank(a: AgentState, b: AgentState)
    ensures Rank(a) == Rank(b) ==> a == b
  {
  }

  function StatesOf(evidence: seq<Claim>): seq<AgentState> {
    seq(|evidence|, i requires 0 <= i < |evidence| => evidence[i].state)
  }

  /** The claims are settled by the reports: nothing else may be claimed, in no other order. */
  lemma EmittedOnce(rules: seq<Rule>, reports: seq<Report>, xs: seq<Claim>, ys: seq<Claim>, at: u64)
    requires |reports| == |rules| && Emitted(rules, reports, xs, at) && Emitted(rules, reports, ys, at)
    ensures xs == ys
  {
    forall state ensures state in StatesOf(xs) <==> state in StatesOf(ys) {
      ClaimedExactly(rules, reports, xs, at, state);
      ClaimedExactly(rules, reports, ys, at, state);
    }
    AscendingOnce(StatesOf(xs), StatesOf(ys));
    assert |xs| == |StatesOf(xs)| && |ys| == |StatesOf(ys)|;
    forall i | 0 <= i < |xs| ensures xs[i] == ys[i] {
      assert StatesOf(xs)[i] == StatesOf(ys)[i];
      WinsOnce(reports, xs[i].index, ys[i].index, xs[i].state);
    }
  }

  lemma ClaimedExactly(rules: seq<Rule>, reports: seq<Report>, evidence: seq<Claim>, at: u64, state: AgentState)
    requires |reports| == |rules| && Emitted(rules, reports, evidence, at)
    ensures state in StatesOf(evidence) <==> exists j: nat :: Candidate(reports, j, state)
  {
    if state in StatesOf(evidence) {
      var k :| 0 <= k < |evidence| && StatesOf(evidence)[k] == state;
      assert Wins(reports, evidence[k].index, state);
    }
    if exists j: nat :: Candidate(reports, j, state) {
      assert Claimed(evidence, state);
      var k :| 0 <= k < |evidence| && evidence[k].state == state;
      assert StatesOf(evidence)[k] == state;
    }
  }

  /** The order of the ranks is the order of the tokens as texts, which differ in their first letter. */
  lemma RankIsTokenOrder(a: AgentState, b: AgentState)
    ensures Rank(a) < Rank(b) <==> a.Token()[0] < b.Token()[0]
    ensures ByToken(Rank(a)) == a && Rank(a) < 4
  {
  }

  // ----- one rule more --------------------------------------------------------------------------

  lemma CandidatesGrow(reports: seq<Report>, r: Report, j: nat, state: AgentState)
    ensures Candidate(reports + [r], j, state)
       <==> Candidate(reports, j, state)
            || (j == |reports| && r.matched && !r.rule.skipStateUpdate && r.rule.state == state)
  {
  }

  /** A report that is no candidate changes no winner. */
  lemma Passed(reports: seq<Report>, best: Best, r: Report)
    requires Selected(reports, best) && (!r.matched || r.rule.skipStateUpdate)
    ensures Selected(reports + [r], best)
  {
    forall j: nat, state ensures Candidate(reports + [r], j, state) <==> Candidate(reports, j, state) {
      CandidatesGrow(reports, r, j, state);
    }
    forall state | state in best ensures Wins(reports + [r], best[state], state) {
      assert Wins(reports, best[state], state);
    }
  }

  /** The entry a candidate leaves behind for its state wins among all reports so far. */
  lemma Entered(reports: seq<Report>, best: Best, r: Report, after: Best)
    requires Selected(reports, best) && r.matched && !r.rule.skipStateUpdate
    requires r.rule.state in best ==> best[r.rule.state] < |reports|
    requires after == if r.rule.state in best && !Outranks(r, reports[best[r.rule.state]]) then best
                      else best[r.rule.state := |reports|]
    ensures Selected(reports + [r], after)
  {
    var grown := reports + [r];
    forall j: nat, state
      ensures Candidate(grown, j, state) <==> Candidate(reports, j, state) || (j == |reports| && r.rule.state == state)
    {
      CandidatesGrow(reports, r, j, state);
    }
    forall state | state in after ensures Wins(grown, after[state], state) {
      if state in best {
        assert Wins(reports, best[state], state);
      }
    }
  }
}
