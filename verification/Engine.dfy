/** The screen-rule engine: every rule is matched and reported, the winners become claims. */
module Engine {
  import opened Basics
  import opened Regions
  import opened Selection

  /** One rule's report enters the selection: a candidate takes the place of no rule, or of one
      with a lower priority. */
  method Consider(reports: seq<Report>, best: Best, r: Report) returns (after: Best)
    requires Selected(reports, best)
    ensures Selected(reports + [r], after)
  {
    after := best;
    if !r.matched || r.rule.skipStateUpdate {
      Passed(reports, best, r);
      return;
    }
    if r.rule.state in best {
      assert Wins(reports, best[r.rule.state], r.rule.state);
      if Outranks(r, reports[best[r.rule.state]]) {
        after := best[r.rule.state := |reports|];
      }
    } else {
      after := best[r.rule.state := |reports|];
    }
    Entered(reports, best, r, after);
  }

  method Evaluate(rules: seq<Rule>, re: (nat, string) -> bool, snap: Snapshot) returns (e: Evaluation)
    ensures |e.reports| == |rules| && Reported(rules, re, snap, e.reports)
    ensures e.historyView <==> exists i | 0 <= i < |rules| :: Hit(rules[i], re, snap) && rules[i].skipStateUpdate
    ensures Emitted(rules, e.reports, e.evidence, snap.capturedAt)
  {
    var reports, historyView, best := [], false, map[];
    for index := 0 to |rules|
      invariant |reports| == index && Reported(rules, re, snap, reports)
      invariant historyView <==> HistoryShown(reports)
      invariant Selected(reports, best)
    {
      var matched := Match(rules[index].matcher, re, ExtractRegion(rules[index].region, snap));
      var report := Report(index, rules[index], matched);
      if report.matched && rules[index].skipStateUpdate {
        historyView := true;
      }
      HistoryGrows(reports, report);
      ReportedGrows(rules, re, snap, reports, report);
      best := Consider(reports, best, report);
      reports := reports + [report];
    }
    HistoryOfRules(rules, re, snap, reports);
    var evidence := Emit(rules, reports, best, snap.capturedAt);
    e := Evaluation(evidence, reports, historyView);
  }

  /** The winners, in the order of their states' tokens. */
  method Emit(rules: seq<Rule>, reports: seq<Report>, best: Best, at: u64) returns (evidence: seq<Claim>)
    requires |reports| == |rules| && Selected(reports, best)
    requires forall i | 0 <= i < |rules| :: reports[i].rule == rules[i]
    ensures Emitted(rules, reports, evidence, at)
  {
    evidence := [];
    for r := 0 to 4
      invariant EmittedBelow(rules, reports, best, evidence, at, r)
    {
      var state := ByToken(r);
      var more := [];
      if state in best {
        assert Wins(reports, best[state], state);
        WinnerClaims(rules, reports, best, state, at);
        more := [ClaimOf(rules, best[state], at)];
      }
      EmitOne(rules, reports, best, evidence, at, r, state, more);
      evidence := evidence + more;
    }
    EmittedAll(rules, reports, best, evidence, at);
  }
}
