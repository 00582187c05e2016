/** Hook publishes racing for one pane, in an arbitrary order; the server arbitrates each by evidence
    time. Here each publish runs to its end before the next one starts: as a whole chain, or as a
    grouped transaction read and committed in one step (see `Overlap` for those that overlap). */
module Races {
  import opened Basics
  import opened Decimal
  import opened PaneStore
  import opened Stamp
  import opened Publish
  import opened Atomicity
  import opened Grouped
  import opened Arrivals

  /** The publish the hook intake builds. */
  predicate HookStamp(p: Publish) {
    !p.episodeReset && p.source == Hook && p.guard == HookArbitrate(p.evidenceAt)
  }

  predicate HookStamps(ps: seq<Publish>) {
    forall i | 0 <= i < |ps| :: HookStamp(ps[i])
  }

  /** The arbitrated claim: the tuple without the write-once and presentation fields. */
  datatype Claim = Claim(state: string, detail: string, source: string, evidenceAt: string)

  function ClaimIn(t: Tuple): Claim {
    Claim(t.state, t.detail, t.source, t.evidenceAt)
  }

  function ClaimBy(p: Publish): Claim {
    Claim(p.state.Token(), SafeDetail(p.detail), Hook.Token(), Show(p.evidenceAt))
  }

  function RunAll(s: Options, ps: seq<Publish>): Options
    decreases |ps|
  {
    if ps == [] then s else RunAll(Run(s, PublishCommands(ps[0])), ps[1..])
  }

  /** One whole chain, seen on the tuple. */
  function Land(t: Tuple, p: Publish): Tuple {
    if Tears(t, p) then Torn(t, p) else Atomic(t, p)
  }

  function LandAll(t: Tuple, ps: seq<Publish>): Tuple
    decreases |ps|
  {
    if ps == [] then t else LandAll(Land(t, ps[0]), ps[1..])
  }

  lemma {:induction false} RunAllLands(s: Options, ps: seq<Publish>)
    requires HookStamps(ps)
    ensures TupleOf(RunAll(s, ps)) == LandAll(TupleOf(s), ps)
    decreases |ps|
  {
    if ps != [] {
      AllOrNothing(s, ps[0]);
      RunAllLands(Run(s, PublishCommands(ps[0])), ps[1..]);
    }
  }

  function EvidenceTime(p: Publish): u64 {
    p.evidenceAt
  }

  /** One hook stamp, by cases. */
  lemma LandOne(t: Tuple, p: Publish)
    requires HookStamp(p)
    ensures var e, next := Instant(t.evidenceAt), Land(t, p);
      if e <= p.evidenceAt then
        ClaimIn(next) == ClaimBy(p) && Instant(next.evidenceAt) == p.evidenceAt
      else
        && Instant(next.evidenceAt) == e
        && ClaimIn(next) == if t.source == Hook.Token() then ClaimIn(t) else ClaimBy(p).(evidenceAt := t.evidenceAt)
  {
    ShownOperand(p.evidenceAt);
  }

  /** The arbitrated claim of a pane, as a register of evidence times. */
  function ClaimRegister(t: Tuple): Register<Claim>
  {
    Register(Instant(t.evidenceAt), ClaimIn(t))
  }

  /** A hook-sourced pane under hook stamps is a register that keeps the newest claim. */
  lemma {:induction false} HookStoreRegister(t: Tuple, ps: seq<Publish>)
    requires HookStamps(ps) && t.source == Hook.Token()
    ensures ClaimRegister(LandAll(t, ps)) == OfferAll(ClaimRegister(t), ps, EvidenceTime, ClaimBy)
    decreases |ps|
  {
    if ps != [] {
      LandOne(t, ps[0]);
      var next := Land(t, ps[0]);
      assert next.source == ClaimIn(next).source;
      assert ClaimRegister(next) == ClaimRegister(t).Offer(EvidenceTime(ps[0]), ClaimBy(ps[0]));
      HookStoreRegister(next, ps[1..]);
    }
  }

  /** On a hook-sourced store the last of the newest events wins, unless the stored claim is newer. */
  lemma HookStoreRace(t: Tuple, ps: seq<Publish>)
    requires HookStamps(ps) && t.source == Hook.Token()
    ensures AllOlder(ps, EvidenceTime, Instant(t.evidenceAt)) ==> ClaimIn(LandAll(t, ps)) == ClaimIn(t)
    ensures forall i | LastNewest(ps, i, EvidenceTime) && Instant(t.evidenceAt) <= ps[i].evidenceAt ::
              ClaimIn(LandAll(t, ps)) == ClaimBy(ps[i])
  {
    HookStoreRegister(t, ps);
    if AllOlder(ps, EvidenceTime, Instant(t.evidenceAt)) {
      OlderChangeNothing(ClaimRegister(t), ps, EvidenceTime, ClaimBy);
    }
    forall i | LastNewest(ps, i, EvidenceTime) && Instant(t.evidenceAt) <= ps[i].evidenceAt
      ensures ClaimIn(LandAll(t, ps)) == ClaimBy(ps[i])
    {
      NewestWins(ClaimRegister(t), ps, EvidenceTime, ClaimBy, i);
    }
  }

  /** The outcome of a race on any pane, hook-sourced or not. */
  lemma RaceOutcome(t: Tuple, ps: seq<Publish>)
    requires ps != [] && HookStamps(ps)
    ensures forall i | LastNewest(ps, i, EvidenceTime) && Instant(t.evidenceAt) <= ps[i].evidenceAt ::
              ClaimIn(LandAll(t, ps)) == ClaimBy(ps[i])
    ensures AllOlder(ps, EvidenceTime, Instant(t.evidenceAt)) ==>
              ClaimIn(LandAll(t, ps)) ==
                if t.source == Hook.Token() then ClaimIn(t) else ClaimBy(ps[0]).(evidenceAt := t.evidenceAt)
  {
    if t.source == Hook.Token() {
      HookStoreRace(t, ps);
    } else {
      forall i | LastNewest(ps, i, EvidenceTime) && Instant(t.evidenceAt) <= ps[i].evidenceAt
        ensures ClaimIn(LandAll(t, ps)) == ClaimBy(ps[i])
      {
        NewestTakesOver(t, ps, i);
      }
      if AllOlder(ps, EvidenceTime, Instant(t.evidenceAt)) {
        assert ps[0] in ps;
        LandOne(t, ps[0]);
        var next := Land(t, ps[0]);
        assert next.source == ClaimIn(next).source;
        HookStoreRace(next, ps[1..]);
        assert AllOlder(ps[1..], EvidenceTime, Instant(t.evidenceAt));
      }
    }
  }

  /** A store of another source: the first chain lands, whole or torn, and the rest meet a hook claim. */
  lemma NewestTakesOver(t: Tuple, ps: seq<Publish>, i: int)
    requires HookStamps(ps) && t.source != Hook.Token()
    requires LastNewest(ps, i, EvidenceTime) && Instant(t.evidenceAt) <= ps[i].evidenceAt
    ensures ClaimIn(LandAll(t, ps)) == ClaimBy(ps[i])
  {
    LandOne(t, ps[0]);
    var next := Land(t, ps[0]);
    assert next.source == ClaimIn(next).source;
    assert EvidenceTime(ps[0]) <= EvidenceTime(ps[i]);
    HookStoreRace(next, ps[1..]);
    if i == 0 {
      TailOlder(ps, EvidenceTime);
    } else {
      NewestOfRest(ps, i);
    }
  }

  lemma NewestOfRest(ps: seq<Publish>, i: int)
    requires LastNewest(ps, i, EvidenceTime) && i > 0
    ensures LastNewest(ps[1..], i - 1, EvidenceTime) && ps[1..][i - 1] == ps[i]
  {
  }

  predicate Agreeing(ps: seq<Publish>) {
    forall p, q | p in ps && q in ps :: p.state == q.state && SafeDetail(p.detail) == SafeDetail(q.detail)
  }

  /** Where the order of the chains is irrelevant: some event is not older than the store and the newest
      ones agree, or all are older and meet a hook claim or agree. */
  ghost predicate Orderless(t: Tuple, ps: seq<Publish>) {
    if AllOlder(ps, EvidenceTime, Instant(t.evidenceAt)) then t.source == Hook.Token() || Agreeing(ps)
    else NewestAgree(ps, EvidenceTime, ClaimBy)
  }

  lemma StampsReordered(ps: seq<Publish>, qs: seq<Publish>)
    requires multiset(ps) == multiset(qs) && HookStamps(ps)
    ensures |ps| == |qs| && (forall p :: p in ps <==> p in qs) && HookStamps(qs)
  {
    SameElements(ps, qs);
    forall i | 0 <= i < |qs| ensures HookStamp(qs[i]) {
      assert qs[i] in ps;
    }
  }

  /** There, any two orders of the same events leave the same claim. */
  lemma RaceConverges(t: Tuple, ps: seq<Publish>, qs: seq<Publish>)
    requires HookStamps(ps) && multiset(ps) == multiset(qs) && Orderless(t, ps)
    ensures ClaimIn(LandAll(t, ps)) == ClaimIn(LandAll(t, qs))
  {
    StampsReordered(ps, qs);
    if ps != [] {
      RaceOutcome(t, ps);
      RaceOutcome(t, qs);
      if AllOlder(ps, EvidenceTime, Instant(t.evidenceAt)) {
        assert ps[0] in ps && qs[0] in ps;
      } else {
        var i := LastNewestExists(ps, EvidenceTime);
        var k := LastNewestExists(qs, EvidenceTime);
        assert IsNewest(qs[k], ps, EvidenceTime);
        assert exists p :: p in ps && Instant(t.evidenceAt) <= EvidenceTime(p);
      }
    }
  }

  /** The same on the mutable side: whole chains executed against the pane's options. */
  lemma StoresConverge(s: Options, ps: seq<Publish>, qs: seq<Publish>)
    requires HookStamps(ps) && multiset(ps) == multiset(qs) && Orderless(TupleOf(s), ps)
    ensures ClaimIn(TupleOf(RunAll(s, ps))) == ClaimIn(TupleOf(RunAll(s, qs)))
    ensures forall i | LastNewest(ps, i, EvidenceTime) && Instant(Get(s, EvidenceAt)) <= ps[i].evidenceAt ::
              ClaimIn(TupleOf(RunAll(s, qs))) == ClaimBy(ps[i])
  {
    StampsReordered(ps, qs);
    RunAllLands(s, ps);
    RunAllLands(s, qs);
    if ps != [] { RaceOutcome(TupleOf(s), ps); }
    RaceConverges(TupleOf(s), ps, qs);
  }

  /** And nowhere else do they for every permutation. */
  lemma RaceConvergesIff(t: Tuple, ps: seq<Publish>)
    requires HookStamps(ps)
    ensures (forall qs: seq<Publish> | multiset(qs) == multiset(ps) ::
               ClaimIn(LandAll(t, qs)) == ClaimIn(LandAll(t, ps)))
        <==> Orderless(t, ps)
  {
    if Orderless(t, ps) {
      forall qs: seq<Publish> | multiset(qs) == multiset(ps)
        ensures ClaimIn(LandAll(t, qs)) == ClaimIn(LandAll(t, ps))
      {
        RaceConverges(t, ps, qs);
      }
    } else if AllOlder(ps, EvidenceTime, Instant(t.evidenceAt)) {
      var i := DissentingIndex(ps);
      var qs := Promote(ps, i);
      StampsReordered(ps, qs);
      RaceOutcome(t, ps);
      RaceOutcome(t, qs);
      StateTokenRoundTrip(ps[0].state, ps[i].state.Token());
      StateTokenRoundTrip(ps[i].state, ps[i].state.Token());
      assert ClaimIn(LandAll(t, qs)) != ClaimIn(LandAll(t, ps));
    } else {
      NewestDissent(t, ps);
    }
  }

  /** Newest events that disagree win in turn, as the order has it. */
  lemma NewestDissent(t: Tuple, ps: seq<Publish>)
    requires HookStamps(ps) && !AllOlder(ps, EvidenceTime, Instant(t.evidenceAt))
    requires !NewestAgree(ps, EvidenceTime, ClaimBy)
    ensures exists qs: seq<Publish> ::
      multiset(qs) == multiset(ps) && ClaimIn(LandAll(t, qs)) != ClaimIn(LandAll(t, ps))
  {
    var p, q :| IsNewest(p, ps, EvidenceTime) && IsNewest(q, ps, EvidenceTime) && ClaimBy(p) != ClaimBy(q);
    var ps1 := WonBy(t, ps, p);
    var ps2 := WonBy(t, ps, q);
    assert ClaimIn(LandAll(t, ps1)) != ClaimIn(LandAll(t, ps2));
  }

  lemma WonBy(t: Tuple, ps: seq<Publish>, p: Publish) returns (qs: seq<Publish>)
    requires HookStamps(ps) && !AllOlder(ps, EvidenceTime, Instant(t.evidenceAt)) && IsNewest(p, ps, EvidenceTime)
    ensures multiset(qs) == multiset(ps) && ClaimIn(LandAll(t, qs)) == ClaimBy(p)
  {
    var i :| 0 <= i < |ps| && ps[i] == p;
    qs := MovedLast(ps, i);
    StampsReordered(ps, qs);
    assert LastNewest(qs, |qs| - 1, EvidenceTime);
    RaceOutcome(t, qs);
  }

  lemma DissentingIndex(ps: seq<Publish>) returns (i: nat)
    requires !Agreeing(ps)
    ensures 0 < i < |ps|
    ensures ps[i].state != ps[0].state || SafeDetail(ps[i].detail) != SafeDetail(ps[0].detail)
  {
    var p, q :| p in ps && q in ps && !(p.state == q.state && SafeDetail(p.detail) == SafeDetail(q.detail));
    var r := if p.state == ps[0].state && SafeDetail(p.detail) == SafeDetail(ps[0].detail) then q else p;
    i :| 0 <= i < |ps| && ps[i] == r;
  }

  /** `ps` with its `i`-th event moved to the front. */
  lemma Promote(ps: seq<Publish>, i: nat) returns (qs: seq<Publish>)
    requires 0 < i < |ps|
    ensures qs != [] && qs[0] == ps[i] && multiset(qs) == multiset(ps)
  {
    qs := [ps[i]] + ps[..i] + ps[i + 1..];
    assert ps == ps[..i] + [ps[i]] + ps[i + 1..];
  }

  // ----- the same race on transactions that do not overlap -------------------------------------------

  function GroupAll(s: Options, ps: seq<Publish>): Options
    decreases |ps|
  {
    if ps == [] then s else GroupAll(Group(s, ps[0]), ps[1..])
  }

  /** The claim a group writes: its detail needs no filter. */
  function GroupedBy(p: Publish): Claim {
    Claim(p.state.Token(), p.detail.GetOr(""), Hook.Token(), Show(p.evidenceAt))
  }

  /** A pane under grouped hook stamps, as a register: only a hook claim defends its instant. */
  function GroupRegister(s: Options): Register<Claim> {
    Register(if Get(s, Source) == Hook.Token() then Instant(Get(s, EvidenceAt)) else 0, ClaimIn(TupleOf(s)))
  }

  lemma GroupLands(s: Options, p: Publish)
    requires HookStamp(p)
    ensures GroupRegister(Group(s, p)) == GroupRegister(s).Offer(p.evidenceAt, GroupedBy(p))
    ensures p.evidenceAt < GroupRegister(s).time ==> Group(s, p) == s
  {
    GroupEntered(s, p);
    BlocksMeaning(p.guard, s);
    AdvisoryTexts(s, p);
    ShownOperand(p.evidenceAt);
    var after := Run(s, AdvisoryFor(s, p));
    assert ClaimIn(TupleOf(after)) == GroupedBy(p);
    assert Get(after, Source) == TupleOf(after).source && Get(after, EvidenceAt) == TupleOf(after).evidenceAt;
  }

  /** A run of grouped hook stamps is a register, on every store. */
  lemma {:induction false} GroupRefines(s: Options, ps: seq<Publish>)
    requires HookStamps(ps)
    ensures GroupRegister(GroupAll(s, ps)) == OfferAll(GroupRegister(s), ps, EvidenceTime, GroupedBy)
    decreases |ps|
  {
    if ps != [] {
      GroupLands(s, ps[0]);
      GroupRefines(Group(s, ps[0]), ps[1..]);
    }
  }

  /** The last of the newest events stands if the pane's hook claim is not newer; else nothing is
      written. */
  lemma GroupRace(s: Options, ps: seq<Publish>)
    requires HookStamps(ps)
    ensures forall i | LastNewest(ps, i, EvidenceTime) && GroupRegister(s).time <= ps[i].evidenceAt ::
              ClaimIn(TupleOf(GroupAll(s, ps))) == GroupedBy(ps[i])
    ensures AllOlder(ps, EvidenceTime, GroupRegister(s).time) ==> GroupAll(s, ps) == s
  {
    GroupRefines(s, ps);
    forall i | LastNewest(ps, i, EvidenceTime) && GroupRegister(s).time <= ps[i].evidenceAt
      ensures ClaimIn(TupleOf(GroupAll(s, ps))) == GroupedBy(ps[i])
    {
      NewestWins(GroupRegister(s), ps, EvidenceTime, GroupedBy, i);
    }
    if AllOlder(ps, EvidenceTime, GroupRegister(s).time) { OlderWriteNothing(s, ps); }
  }

  lemma {:induction false} OlderWriteNothing(s: Options, ps: seq<Publish>)
    requires HookStamps(ps) && AllOlder(ps, EvidenceTime, GroupRegister(s).time)
    ensures GroupAll(s, ps) == s
    decreases |ps|
  {
    if ps != [] {
      assert ps[0] in ps;
      GroupLands(s, ps[0]);
      OlderWriteNothing(s, ps[1..]);
    }
  }

  /** All orders of transactions that do not overlap leave the same claim if and only if the stored hook
      claim is newer than every event or the newest events agree: unlike for chains, a claim of another
      source makes no difference. */
  lemma GroupsConverge(s: Options, ps: seq<Publish>)
    requires HookStamps(ps)
    ensures (forall qs: seq<Publish> | multiset(qs) == multiset(ps) ::
               ClaimIn(TupleOf(GroupAll(s, qs))) == ClaimIn(TupleOf(GroupAll(s, ps))))
        <==> AllOlder(ps, EvidenceTime, GroupRegister(s).time) || NewestAgree(ps, EvidenceTime, GroupedBy)
  {
    var r := GroupRegister(s);
    if AllOlder(ps, EvidenceTime, r.time) || NewestAgree(ps, EvidenceTime, GroupedBy) {
      forall qs: seq<Publish> | multiset(qs) == multiset(ps)
        ensures ClaimIn(TupleOf(GroupAll(s, qs))) == ClaimIn(TupleOf(GroupAll(s, ps)))
      {
        OrdersConverge(r, ps, qs, EvidenceTime, GroupedBy);
        GroupsAlike(s, ps, qs);
      }
    } else {
      var qs := SomeOrderDiffers(r, ps, EvidenceTime, GroupedBy);
      GroupsAlike(s, ps, qs);
    }
  }

  lemma GroupsAlike(s: Options, ps: seq<Publish>, qs: seq<Publish>)
    requires HookStamps(ps) && multiset(qs) == multiset(ps)
    ensures ClaimIn(TupleOf(GroupAll(s, qs))) == ClaimIn(TupleOf(GroupAll(s, ps)))
       <==> OfferAll(GroupRegister(s), qs, EvidenceTime, GroupedBy)
            == OfferAll(GroupRegister(s), ps, EvidenceTime, GroupedBy)
  {
    StampsReordered(ps, qs);
    GroupRefines(s, ps);
    GroupRefines(s, qs);
    ClaimSettlesRegister(GroupAll(s, ps), GroupAll(s, qs));
  }

  lemma ClaimSettlesRegister(s: Options, t: Options)
    ensures ClaimIn(TupleOf(s)) == ClaimIn(TupleOf(t)) <==> GroupRegister(s) == GroupRegister(t)
  {
    assert Get(s, Source) == ClaimIn(TupleOf(s)).source && Get(s, EvidenceAt) == ClaimIn(TupleOf(s)).evidenceAt;
    assert Get(t, Source) == ClaimIn(TupleOf(t)).source && Get(t, EvidenceAt) == ClaimIn(TupleOf(t)).evidenceAt;
  }
}
