/** The client-side mirror of a publish: the predicted row, the decoded read-back, and the plain
    (advisory) form used where the server cannot evaluate a guard. */
module Mirror {
  import opened Basics
  import opened Decimal
  import opened PaneStore
  import opened Stamp
  import opened Publish
  import opened Atomicity

  datatype RowProjection = RowProjection(state: AgentState, since: u64, attention: bool)

  /** What a guarded publish leaves in the store, predicted from the decoded prior stamp. */
  function ProjectPublish(prev: Option<StampedState>, p: Publish): RowProjection {
    if !p.episodeReset && p.guard.Suppresses(prev) then
      match prev
      case Some(held) => RowProjection(held.state, held.since, held.attention)
      case None => RowProjection(p.state, p.since, p.setAttention)
    else
      var kept := prev.Some? && !p.episodeReset && prev.value.state == p.state
        && !ClockStepped(prev.value.since, p.stampedAt);
      RowProjection(p.state,
        if kept then prev.value.since else p.since,
        p.setAttention || (!p.episodeReset && prev.Some? && prev.value.attention))
  }

  function RowOf(stamp: StampedState): RowProjection {
    RowProjection(stamp.state, stamp.since, stamp.attention)
  }

  // ----- legacy seconds: the only gap between the two sides ------------------------------------

  /** A threshold that falls between a legacy evidence stamp as the server compares it and the
      scaled value the client compares. */
  predicate GuardGap(g: Guard, s: Options) {
    var raw := RawEpoch(s, EvidenceAt);
    match g
    case CarveOut(at) => Get(s, Source) == "hook" && raw < at <= ToMillis(raw)
    case HookArbitrate(at) => Get(s, Source) == "hook" && raw <= at < ToMillis(raw)
    case _ => false
  }

  /** The same gap on the write-once `since` limit. */
  predicate SinceGap(s: Options, p: Publish) {
    var raw, limit := RawEpoch(s, Since), SatAdd(p.stampedAt, CLOCK_STEP_SKEW_MS);
    Get(s, State) == p.state.Token() && raw <= limit < ToMillis(raw)
  }

  /** The mirror predicts the server's guard over a decoded stamp exactly when no threshold falls in
      the gap. */
  lemma GuardMirrorExact(g: Guard, s: Options, stamp: StampedState)
    requires ReadPane(s).Prior() == Some(stamp)
    ensures g.Suppresses(Some(stamp)) == g.Blocks(s) <==> !GuardGap(g, s)
  {
    DecodedFields(s, stamp);
    BlocksMeaning(g, s);
    HookToken(stamp.source);
    if g.RefreshClaim? {
      StateTokenRoundTrip(g.state, stamp.state.Token());
      StateTokenRoundTrip(stamp.state, stamp.state.Token());
    }
  }

  /** Millisecond stamps leave no gap. */
  lemma NoGapInMillis(g: Guard, s: Options)
    requires !Legacy(RawEpoch(s, EvidenceAt))
    ensures !GuardGap(g, s)
  {
  }

  // ----- undecodable tuples: what the client does not see ------------------------------------------

  /** A stored text the server still honours for a client that sees no claim at all: the tuple does not
      decode, or has no state, and the guard looks at one of its options alone. */
  predicate Unseen(g: Guard, s: Options) {
    var evidence := Operand(Get(s, EvidenceAt));
    && ReadPane(s).Prior().None?
    && match g
       case Unconditional => false
       case ProtectHook => Get(s, Source) == "hook"
       case CarveOut(at) => Get(s, Source) == "hook" && evidence.Some? && at <= evidence.value
       case RefreshClaim(state) => Get(s, State) == state.Token()
       case HookArbitrate(at) => Get(s, Source) == "hook" && evidence.Some? && at < evidence.value
  }

  /** A stored `since` the server keeps and the client does not see. */
  predicate UnseenSince(s: Options, p: Publish) {
    var since := Operand(Get(s, Since));
    && ReadPane(s).Prior().None?
    && Get(s, State) == p.state.Token()
    && since.Some? && since.value <= SatAdd(p.stampedAt, CLOCK_STEP_SKEW_MS)
  }

  // ----- decoding what a publish left -----------------------------------------------------------

  function FieldReads(text: string): Option<u64> {
    if text == "" then Some(0) else ParseU64(text)
  }

  /** The bookkeeping options a publish may leave alone still parse. */
  predicate LeftoversParse(s: Options) {
    FieldReads(Get(s, Hash)).Some? && MarkersParse(s)
  }

  /** The part of the tuple a held publish leaves alone decodes. */
  predicate ClaimParses(s: Options) {
    && ParseState(Get(s, State)).Some?
    && (Get(s, Source) == "" || ParseProvenance(Get(s, Source)).Some?)
    && FieldReads(Get(s, EvidenceAt)).Some? && FieldReads(Get(s, Since)).Some?
  }

  /** The marker options no publish but an episode reset rewrites. */
  predicate MarkersParse(s: Options) {
    FieldReads(Get(s, NotifiedAt)).Some? && FieldReads(Get(s, TurnAt)).Some?
  }

  /** The bookkeeping options the publish leaves alone parse. */
  predicate KeptParse(s: Options, p: Publish) {
    (p.hash.Some? || FieldReads(Get(s, Hash)).Some?) && (p.episodeReset || MarkersParse(s))
  }

  /** A tuple decodes exactly when each of its texts does. */
  lemma DecodesExactly(s: Options)
    ensures ReadPane(s).Prior().Some?
       <==> && ClaimParses(s) && LeftoversParse(s) && FieldReads(Get(s, StampedAt)).Some?
            && FieldReads(Get(s, Pid)).Some? && FieldReads(Get(s, Pid)).value <= U32_MAX
  {
  }

  /** Decoding, driven by the option texts. */
  lemma DecodeTexts(s: Options, state: AgentState, source: Provenance, evidence: u64, since: u64, stamped: u64,
                    pid: u32)
    requires Get(s, State) == state.Token()
    requires Get(s, Source) == source.Token() || (Get(s, Source) == "" && source == Capture)
    requires FieldReads(Get(s, EvidenceAt)) == Some(evidence) && FieldReads(Get(s, Since)) == Some(since)
    requires FieldReads(Get(s, StampedAt)) == Some(stamped) && FieldReads(Get(s, Pid)) == Some(pid)
    requires LeftoversParse(s)
    ensures ReadPane(s).Prior().Some?
    ensures var stamp := ReadPane(s).Prior().value;
      && stamp.state == state && stamp.source == source && stamp.pid == pid
      && stamp.detail == (if Get(s, Detail) == "" then None else Some(Get(s, Detail)))
      && stamp.evidenceAt == ToMillis(evidence) && stamp.since == ToMillis(since)
      && stamp.stampedAt == ToMillis(stamped) && stamp.attention == (Get(s, Attention) == "1")
  {
    StateTokenRoundTrip(state, Get(s, State));
    ProvenanceTokenRoundTrip(source, Get(s, Source));
    DecodesExactly(s);
    var stamp := ReadPane(s).Prior().value;
    DecodedFields(s, stamp);
    DecodedStamps(s, stamp);
    StateTokenRoundTrip(stamp.state, Get(s, State));
    ProvenanceTokenRoundTrip(stamp.source, Get(s, Source));
    ProvenanceTokenRoundTrip(stamp.source, "");
    ProvenanceTokenRoundTrip(source, "");
  }

  lemma DecodedStamps(s: Options, stamp: StampedState)
    requires ReadPane(s).Prior() == Some(stamp)
    ensures stamp.stampedAt == ToMillis(RawEpoch(s, StampedAt)) && stamp.pid == RawEpoch(s, Pid)
  {
  }

  /** A read is settled unless an instant lies ahead of the stamp, and not so far that the clock must
      have been stepped. */
  lemma SettledExactly(s: Options)
    requires ReadPane(s).Prior().Some?
    ensures var stamp := ReadPane(s).Prior().value;
      ReadPane(s).read.value.Settled? <==>
        ClockStepped(stamp.since, stamp.stampedAt)
        || (stamp.since <= stamp.stampedAt && stamp.evidenceAt <= stamp.stampedAt)
  {
  }

  lemma ShownField(n: u64)
    ensures FieldReads(Show(n)) == Some(n)
  {
    ShowValue(n);
    ParseU64Show(n);
  }

  // ----- the row mirror ---------------------------------------------------------------------------

  /** Where the client's guard decides otherwise than the server's. */
  predicate GuardMistaken(g: Guard, s: Options) {
    if ReadPane(s).Prior().Some? then GuardGap(g, s) else Unseen(g, s)
  }

  /** Client and server agree on whether the tuple commits, for every store, exactly where neither a
      legacy gap nor an undecodable tuple misleads the client. */
  lemma MirrorAgrees(s: Options, p: Publish)
    ensures p.guard.Suppresses(ReadPane(s).Prior()) == p.guard.Blocks(s) <==> !GuardMistaken(p.guard, s)
  {
    var prev := ReadPane(s).Prior();
    if prev.Some? {
      GuardMirrorExact(p.guard, s, prev.value);
    } else {
      BlocksMeaning(p.guard, s);
    }
  }

  /** Client-side write-once, as `project_publish` and the advisory form decide it. */
  predicate ClientKeepsSince(prev: Option<StampedState>, p: Publish) {
    prev.Some? && prev.value.state == p.state && !ClockStepped(prev.value.since, p.stampedAt)
  }

  /** What the decoded prior says about the texts the projection depends on. */
  lemma PriorFields(s: Options, p: Publish)
    requires ReadPane(s).Prior().Some?
    ensures var prev := ReadPane(s).Prior().value;
      && prev.since == ToMillis(RawEpoch(s, Since)) && prev.attention == (Get(s, Attention) == "1")
      && (prev.state == p.state <==> Get(s, State) == p.state.Token())
      && Operand(Get(s, Since)) == Some(RawEpoch(s, Since)) && MarkersParse(s) && LeftoversParse(s)
  {
    var prev := ReadPane(s).Prior().value;
    DecodedFields(s, prev);
    DecodesExactly(s);
    StateTokenRoundTrip(p.state, prev.state.Token());
    StateTokenRoundTrip(prev.state, prev.state.Token());
  }

  /** Where the client's write-once decides otherwise than the server's. */
  predicate SinceMistaken(s: Options, p: Publish) {
    if ReadPane(s).Prior().Some? then SinceGap(s, p) else UnseenSince(s, p)
  }

  /** Client-side and server-side write-once decide alike exactly when the limit does not fall in the
      gap and no kept `since` is hidden from the client; otherwise the server keeps what the client
      replaces. */
  lemma KeptSinceExact(s: Options, p: Publish)
    ensures (KeepsSince(TupleOf(s), p) <==> ClientKeepsSince(ReadPane(s).Prior(), p)) <==> !SinceMistaken(s, p)
    ensures SinceMistaken(s, p) ==> KeepsSince(TupleOf(s), p) && !ClientKeepsSince(ReadPane(s).Prior(), p)
  {
    if ReadPane(s).Prior().Some? { PriorFields(s, p); }
  }

  /** Whether the chain writes its tuple rather than holding the stored one. */
  predicate Commits(s: Options, p: Publish) {
    p.episodeReset || !p.guard.Blocks(s)
  }

  /** The instant `since` ends up with when the tuple commits. */
  function CommittedSince(s: Options, p: Publish): u64 {
    if !p.episodeReset && KeepsSince(TupleOf(s), p) then RawEpoch(s, Since) else p.since
  }

  /** A `since` the server keeps is a number a reader accepts. */
  lemma SinceText(s: Options, p: Publish)
    ensures KeepsSince(TupleOf(s), p) ==>
      FieldReads(Get(s, Since)) == Some(RawEpoch(s, Since)) && Operand(Get(s, Since)) == Some(RawEpoch(s, Since))
  {
  }

  /** The option texts a committed publish leaves. */
  lemma CommittedTexts(s: Options, p: Publish)
    requires Paired(p) && Commits(s, p) && (p.episodeReset || !Tears(TupleOf(s), p))
    ensures var after := Run(s, PublishCommands(p)); var t := TupleOf(after);
      && t.state == p.state.Token() && t.source == p.source.Token() && t.evidenceAt == Show(p.evidenceAt)
      && t.since == (if !p.episodeReset && KeepsSince(TupleOf(s), p) then Get(s, Since) else Show(p.since))
      && (t.attention == "1" <==> p.setAttention || (!p.episodeReset && Get(s, Attention) == "1"))
      && Get(after, Pid) == Show(p.pid) && Get(after, StampedAt) == Show(p.stampedAt)
      && (LeftoversParse(after) <==> KeptParse(s, p))
  {
    FreshnessSuffix(s, TupleCommands(p), p);
    if p.hash.Some? { ShownField(p.hash.value); }
    if p.episodeReset {
      ResetOutcome(s, p);
    } else {
      AllOrNothing(s, p);
      GuardedOutcome(s, p);
      BlocksMeaning(p.guard, s);
    }
  }

  /** A committed publish reads back as the claim it carried, whatever the store held before, if and
      only if the bookkeeping options it leaves alone parse. */
  lemma CommittedRead(s: Options, p: Publish)
    requires Paired(p) && Commits(s, p) && (p.episodeReset || !Tears(TupleOf(s), p))
    ensures var after := ReadPane(Run(s, PublishCommands(p)));
      && (after.Prior().Some? <==> KeptParse(s, p))
      && (after.Prior().None? ==> after.Malformed?)
      && (after.Prior().Some? ==>
        var stamp := after.Prior().value;
        && stamp.state == p.state && stamp.source == p.source && stamp.pid == p.pid
        && stamp.evidenceAt == ToMillis(p.evidenceAt) && stamp.stampedAt == ToMillis(p.stampedAt)
        && stamp.since == ToMillis(CommittedSince(s, p))
        && stamp.attention == (p.setAttention || (!p.episodeReset && Get(s, Attention) == "1"))
        && (after.read.value.Settled? <==>
            ClockStepped(stamp.since, stamp.stampedAt)
            || (stamp.since <= stamp.stampedAt && stamp.evidenceAt <= stamp.stampedAt)))
  {
    var after := Run(s, PublishCommands(p));
    CommittedTexts(s, p);
    SinceText(s, p);
    DecodesExactly(after);
    AbsentState(after);
    StateTokenRoundTrip(p.state, "");
    if KeptParse(s, p) {
      ShownField(p.since);
      ShownField(p.evidenceAt);
      ShownField(p.stampedAt);
      ShownField(p.pid);
      DecodeTexts(after, p.state, p.source, p.evidenceAt, CommittedSince(s, p), p.stampedAt, p.pid);
      SettledExactly(after);
    }
  }

  lemma HeldTexts(s: Options, p: Publish)
    requires !p.episodeReset && p.guard.Blocks(s) && Paired(p)
    ensures var after := Run(s, PublishCommands(p));
      && TupleOf(after) == TupleOf(s)
      && Get(after, Pid) == Show(p.pid) && Get(after, StampedAt) == Show(p.stampedAt)
      && (LeftoversParse(after) <==> KeptParse(s, p))
  {
    FreshnessSuffix(s, GuardedCommands(p), p);
    if p.hash.Some? { ShownField(p.hash.value); }
    BlocksMeaning(p.guard, s);
    AllOrNothing(s, p);
    GuardedOutcome(s, p);
  }

  /** A held tuple reads back as its texts stand, under refreshed bookkeeping: exactly when they
      parse. So a refused publish can make an undecodable tuple decode again. */
  lemma HeldRead(s: Options, p: Publish)
    requires !p.episodeReset && p.guard.Blocks(s) && Paired(p)
    ensures var after := ReadPane(Run(s, PublishCommands(p)));
      && (after.Prior().Some? <==> ClaimParses(s) && KeptParse(s, p))
      && (Get(s, State) == "" ==> after == Decoded(None))
      && (after.Prior().Some? ==>
        var stamp := after.Prior().value;
        && stamp.state.Token() == Get(s, State)
        && (stamp.source.Token() == Get(s, Source) || (Get(s, Source) == "" && stamp.source == Capture))
        && stamp.evidenceAt == ToMillis(RawEpoch(s, EvidenceAt)) && stamp.since == ToMillis(RawEpoch(s, Since))
        && stamp.attention == (Get(s, Attention) == "1")
        && stamp.detail == (if Get(s, Detail) == "" then None else Some(Get(s, Detail)))
        && stamp.stampedAt == ToMillis(p.stampedAt) && stamp.pid == p.pid)
  {
    var after := Run(s, PublishCommands(p));
    HeldTexts(s, p);
    DecodesExactly(after);
    AbsentState(after);
    ShownField(p.stampedAt);
    ShownField(p.pid);
    SameClaimTexts(s, after);
    if ReadPane(after).Prior().Some? {
      DecodedFields(after, ReadPane(after).Prior().value);
      var source := ReadPane(after).Prior().value.source;
      DecodeTexts(after, ReadPane(after).Prior().value.state, source, RawEpoch(s, EvidenceAt), RawEpoch(s, Since),
                  p.stampedAt, p.pid);
    }
  }

  lemma SameClaimTexts(s: Options, t: Options)
    requires TupleOf(s) == TupleOf(t)
    ensures ClaimParses(s) <==> ClaimParses(t)
    ensures RawEpoch(s, EvidenceAt) == RawEpoch(t, EvidenceAt) && RawEpoch(s, Since) == RawEpoch(t, Since)
    ensures ClaimParses(t) ==> FieldReads(Get(t, EvidenceAt)) == Some(RawEpoch(s, EvidenceAt))
    ensures ClaimParses(t) ==> FieldReads(Get(t, Since)) == Some(RawEpoch(s, Since))
    ensures Get(s, State) == Get(t, State) && Get(s, Source) == Get(t, Source) && Get(s, Detail) == Get(t, Detail)
    ensures Get(s, Attention) == Get(t, Attention)
  {
    assert TupleOf(s).state == TupleOf(t).state && TupleOf(s).source == TupleOf(t).source;
  }

  /** A held claim that decoded before is read as it was. */
  lemma HeldKeeps(s: Options, p: Publish)
    requires !p.episodeReset && p.guard.Blocks(s) && Paired(p) && ReadPane(s).Prior().Some?
    ensures var prev, after := ReadPane(s).Prior().value, ReadPane(Run(s, PublishCommands(p))).Prior();
      && after.Some? && RowOf(after.value) == RowOf(prev) && after.value.source == prev.source
      && after.value.evidenceAt == prev.evidenceAt && after.value.detail == prev.detail
      && after.value.stampedAt == ToMillis(p.stampedAt) && after.value.pid == p.pid
  {
    var prev := ReadPane(s).Prior().value;
    HeldRead(s, p);
    DecodesExactly(s);
    DecodedFields(s, prev);
    var stamp := ReadPane(Run(s, PublishCommands(p))).Prior().value;
    StateTokenRoundTrip(stamp.state, prev.state.Token());
    StateTokenRoundTrip(prev.state, prev.state.Token());
    ProvenanceTokenRoundTrip(stamp.source, prev.source.Token());
    ProvenanceTokenRoundTrip(prev.source, prev.source.Token());
    ProvenanceTokenRoundTrip(prev.source, "");
    ProvenanceTokenRoundTrip(stamp.source, "");
  }

  /** When the predicted row comes true, read off the stored texts. Over a decoded prior: always for a
      held tuple; for a committed one unless its own `since` is a legacy instant that gets written, or
      the limit falls in the gap; and where the server commits what the client expects held, only if
      nothing changes. */
  predicate Foreseen(s: Options, p: Publish) {
    var raw := RawEpoch(s, Since);
    if p.episodeReset then KeptParse(s, p) && !Legacy(p.since)
    else if ReadPane(s).Prior().None? then ForeseenBlind(s, p)
    else if GuardGap(p.guard, s) then
      && Get(s, State) == p.state.Token()
      && (KeepsSince(TupleOf(s), p) || ToMillis(p.since) == ToMillis(raw))
      && (p.setAttention ==> Get(s, Attention) == "1")
    else if p.guard.Blocks(s) then true
    else if SinceGap(s, p) then p.since == ToMillis(raw)
    else KeepsSince(TupleOf(s), p) || !Legacy(p.since)
  }

  /** Without a decoded prior the client predicts the publish itself: right only if the store decodes
      afterwards, and what it keeps of the texts the client does not see says the same. */
  predicate ForeseenBlind(s: Options, p: Publish) {
    var holds := p.guard.Blocks(s);
    && KeptParse(s, p)
    && (holds ==> ClaimParses(s) && Get(s, State) == p.state.Token())
    && (if holds || KeepsSince(TupleOf(s), p) then ToMillis(RawEpoch(s, Since)) == p.since else !Legacy(p.since))
    && (Get(s, Attention) == "1" ==> p.setAttention)
    && (holds && p.setAttention ==> Get(s, Attention) == "1")
  }

  /** The predicted row is the row the store then decodes to, for every store and guard outside the
      torn case, if and only if it was foreseeable. Over an absent tuple a suppressed publish stores
      nothing. */
  lemma ProjectionExact(s: Options, p: Publish)
    requires Paired(p) && (p.episodeReset || !Tears(TupleOf(s), p))
    ensures var prev, after := ReadPane(s).Prior(), ReadPane(Run(s, PublishCommands(p))).Prior();
      (after.Some? && RowOf(after.value) == ProjectPublish(prev, p)) <==> Foreseen(s, p)
    ensures Get(s, State) == "" && !Commits(s, p) ==> ReadPane(Run(s, PublishCommands(p))) == Decoded(None)
  {
    if Commits(s, p) {
      CommittedRead(s, p);
      CommittedRow(s, p);
    } else if ReadPane(s).Prior().None? {
      HeldRead(s, p);
      BlindHold(s, p);
    } else {
      MirrorAgrees(s, p);
      if GuardGap(p.guard, s) { GapOpens(s, p); }
      HeldRead(s, p);
      HeldKeeps(s, p);
    }
  }

  lemma CommittedRow(s: Options, p: Publish)
    requires Paired(p) && (p.episodeReset || !Tears(TupleOf(s), p)) && Commits(s, p)
    ensures var row := RowProjection(p.state, ToMillis(CommittedSince(s, p)),
                                     p.setAttention || (!p.episodeReset && Get(s, Attention) == "1"));
      (KeptParse(s, p) && row == ProjectPublish(ReadPane(s).Prior(), p)) <==> Foreseen(s, p)
  {
    SinceText(s, p);
    KeptSinceExact(s, p);
    MirrorAgrees(s, p);
    if ReadPane(s).Prior().Some? {
      PriorFields(s, p);
    }
  }

  lemma BlindHold(s: Options, p: Publish)
    requires !Commits(s, p) && ReadPane(s).Prior().None?
    ensures ProjectPublish(ReadPane(s).Prior(), p) == RowProjection(p.state, p.since, p.setAttention)
    ensures forall state: AgentState | state.Token() == Get(s, State) ::
      state == p.state <==> Get(s, State) == p.state.Token()
  {
    forall state: AgentState | state.Token() == Get(s, State)
      ensures state == p.state <==> Get(s, State) == p.state.Token()
    {
      StateTokenRoundTrip(state, Get(s, State));
      StateTokenRoundTrip(p.state, Get(s, State));
    }
  }

  /** In the guard's gap the server commits what the client expects held. */
  lemma GapOpens(s: Options, p: Publish)
    requires ReadPane(s).Prior().Some? && GuardGap(p.guard, s)
    ensures p.guard.Suppresses(ReadPane(s).Prior()) && !p.guard.Blocks(s)
  {
    var prev := ReadPane(s).Prior();
    BlocksMeaning(p.guard, s);
    DecodedFields(s, prev.value);
    HookToken(prev.value.source);
  }

  /** Where client and server agree on the commit, and for a publish whose `since` is a millisecond
      instant within the clock-step slack of its stamp, the prediction fails exactly in the gap of the
      write-once limit, or where undecodable texts that the publish keeps say otherwise. */
  lemma ProjectionFailsInGap(s: Options, p: Publish)
    requires Paired(p) && !p.episodeReset && Commits(s, p) && !Tears(TupleOf(s), p)
    requires !GuardMistaken(p.guard, s)
    requires !Legacy(p.since) && p.since <= SatAdd(p.stampedAt, CLOCK_STEP_SKEW_MS)
    ensures var prev, after := ReadPane(s).Prior(), ReadPane(Run(s, PublishCommands(p))).Prior();
      (after.Some? && RowOf(after.value) == ProjectPublish(prev, p))
      <==> if prev.Some? then !SinceGap(s, p)
           else KeptParse(s, p) && (Get(s, Attention) == "1" ==> p.setAttention)
                && (UnseenSince(s, p) ==> ToMillis(RawEpoch(s, Since)) == p.since)
  {
    MirrorAgrees(s, p);
    KeptSinceExact(s, p);
    ProjectionExact(s, p);
  }

  /** Reading back a committed publish whose instants are milliseconds not after its own stamp: `since`
      is at most the clock-step slack ahead exactly outside the gap, and the read is settled exactly
      when `since` is not ahead at all, or so far ahead that it reads as a clock step. */
  lemma ReadBackSettles(s: Options, p: Publish)
    requires Paired(p) && Commits(s, p) && (p.episodeReset || !Tears(TupleOf(s), p))
    requires p.since <= p.stampedAt && p.evidenceAt <= p.stampedAt
    requires !Legacy(p.since) && !Legacy(p.evidenceAt) && !Legacy(p.stampedAt)
    ensures var after := ReadPane(Run(s, PublishCommands(p)));
      && (after.Prior().Some? <==> KeptParse(s, p))
      && (after.Prior().Some? ==>
        && (after.Prior().value.since <= SatAdd(p.stampedAt, CLOCK_STEP_SKEW_MS)
            <==> p.episodeReset || !SinceGap(s, p))
        && (after.read.value.Settled? <==>
            after.Prior().value.since <= p.stampedAt || (!p.episodeReset && SinceGap(s, p))))
  {
    CommittedRead(s, p);
    SinceText(s, p);
  }

  /** A working hook claim stamped in legacy seconds. */
  function LegacyPane(seconds: u64): Options {
    map[State := Working.Token(), Source := Hook.Token(), EvidenceAt := Show(seconds)]
  }

  lemma LegacyPaneReads(seconds: u64)
    requires Legacy(seconds)
    ensures ReadPane(LegacyPane(seconds)).Prior().Some?
    ensures var stamp := ReadPane(LegacyPane(seconds)).Prior().value;
      stamp.state == Working && stamp.source == Hook && stamp.evidenceAt == 1000 * seconds
  {
    ShownField(seconds);
    DecodeTexts(LegacyPane(seconds), Working, Hook, seconds, 0, 0, 0);
  }

  /** Inside the gap the prediction is wrong: the server lets blocker chrome over a hook claim
      stamped in legacy seconds, while the client predicts the claim held. */
  lemma LegacyGapWitness(seconds: u64, p: Publish)
    requires Legacy(seconds) && p.guard.CarveOut? && seconds < p.guard.captureAt <= 1000 * seconds
    requires p.source == Capture && p.state == Blocked && !p.episodeReset
    ensures ProjectPublish(ReadPane(LegacyPane(seconds)).Prior(), p).state == Working
    ensures Get(Run(LegacyPane(seconds), PublishCommands(p)), State) == Blocked.Token()
  {
    LegacyPaneReads(seconds);
    ShownOperand(seconds);
    AllOrNothing(LegacyPane(seconds), p);
  }

  /** A working claim whose `since` is stamped in legacy seconds. */
  function LegacySincePane(seconds: u64): Options {
    map[State := Working.Token(), Since := Show(seconds)]
  }

  lemma LegacySinceReads(seconds: u64)
    requires Legacy(seconds)
    ensures var s := LegacySincePane(seconds);
      && MarkersParse(s) && LeftoversParse(s)
      && RawEpoch(s, Since) == seconds && Operand(Get(s, Since)) == Some(seconds)
      && ReadPane(s).Prior().Some? && ReadPane(s).Prior().value.since == 1000 * seconds
  {
    ShownField(seconds);
    ShownOperand(seconds);
    DecodeTexts(LegacySincePane(seconds), Working, Capture, 0, seconds, 0, 0);
  }

  /** Inside the write-once gap the prediction is wrong too: the client takes the scaled instant for a
      clock step and predicts the new one, while the server compares the raw seconds and keeps them. */
  lemma SinceGapWitness(seconds: u64, p: Publish)
    requires Legacy(seconds) && seconds <= SatAdd(p.stampedAt, CLOCK_STEP_SKEW_MS) < 1000 * seconds
    requires p.guard == Unconditional && p.state == Working && !p.episodeReset && p.since <= p.stampedAt
    ensures ReadPane(LegacySincePane(seconds)).Prior().Some?
    ensures ProjectPublish(ReadPane(LegacySincePane(seconds)).Prior(), p).since == p.since
    ensures var after := ReadPane(Run(LegacySincePane(seconds), PublishCommands(p))).Prior();
      after.Some? && after.value.since == 1000 * seconds != p.since
  {
    var s := LegacySincePane(seconds);
    LegacySinceReads(seconds);
    BlocksMeaning(p.guard, s);
    CommittedRead(s, p);
  }
}
