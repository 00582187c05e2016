/** The two other ways a publish is committed: the advisory chain of plain writes, and the same
    writes as one group whose guard is evaluated once. Both are compared with the guarded chain
    on what a reader then decodes. */
module Grouped {
  import opened Basics
  import opened Decimal
  import opened PaneStore
  import opened Stamp
  import opened Publish
  import opened Atomicity
  import opened Mirror

  predicate CorruptDetail(detail: Option<string>) {
    detail.Some? && exists i | 0 <= i < |detail.value| :: Corrupts(detail.value[i])
  }

  /** The advisory rendering, given what its caller read from the pane. */
  function AdvisoryFor(s: Options, p: Publish): seq<Command> {
    match ReadPane(s).Prior()
    case Some(prev) => AdvisoryCommands(p, Some(prev.state), prev.since)
    case None => AdvisoryCommands(p, None, 0)
  }

  /** `if-shell -F` over the advisory writes, entered only when the guard does not suppress. */
  function Group(s: Options, p: Publish): Options {
    RunGroup(s, Choose(p.guard.SuppressFormat(), Literal("0"), Literal("1")), AdvisoryFor(s, p))
  }

  function AdvisorySinceFor(s: Options, p: Publish): u64 {
    match ReadPane(s).Prior()
    case Some(prev) => AdvisorySince(p, Some(prev.state), prev.since)
    case None => AdvisorySince(p, None, 0)
  }

  lemma AdvisoryTexts(s: Options, p: Publish)
    requires !p.episodeReset
    ensures var after := Run(s, AdvisoryFor(s, p));
      && TupleOf(after) == Tuple(Show(AdvisorySinceFor(s, p)), p.state.Token(),
                                 if p.detail.Some? then p.detail.value else "", p.source.Token(),
                                 Show(p.evidenceAt), if p.setAttention then "1" else Get(s, Attention))
      && MarkersOf(after) == (if p.hash.Some? then MarkersOf(s).(hash := Show(p.hash.value)) else MarkersOf(s))
      && Get(after, Pid) == Show(p.pid) && Get(after, StampedAt) == Show(p.stampedAt)
  {
    var claim := PlainCommands(Show(AdvisorySinceFor(s, p)), p);
    PlainOutcome(s, Show(AdvisorySinceFor(s, p)), p);
    PlainPush(s, claim, Attention, "1");
    FreshnessSuffix(s, if p.setAttention then claim + [SetPlain(Attention, "1")] else claim, p);
  }

  /** Whether the plain form's `since` reads as the server-side form's: where the client's write-once
      is mistaken only if the new instant happens to be the stored one, and a kept instant only if
      scaling it, which the plain form does before writing, leaves nothing for the reader to scale
      again. */
  predicate SinceReadsAlike(s: Options, p: Publish) {
    var raw := RawEpoch(s, Since);
    if SinceMistaken(s, p) then ToMillis(p.since) == ToMillis(raw)
    else KeepsSince(TupleOf(s), p) ==> !Legacy(ToMillis(raw))
  }

  lemma AdvisorySinceExact(s: Options, p: Publish)
    ensures ToMillis(AdvisorySinceFor(s, p))
         == ToMillis(if KeepsSince(TupleOf(s), p) then RawEpoch(s, Since) else p.since)
        <==> SinceReadsAlike(s, p)
  {
    KeptSinceExact(s, p);
    if ReadPane(s).Prior().Some? { PriorFields(s, p); }
  }

  /** Over a tuple that decodes, millisecond stamps read alike. */
  lemma SinceReadsAlikeInMillis(s: Options, p: Publish)
    requires ReadPane(s).Prior().Some? && !Legacy(RawEpoch(s, Since))
    ensures SinceReadsAlike(s, p)
  {
  }

  lemma FieldsAgree(s: Options, t: Options)
    requires TupleOf(s).(since := "", detail := "") == TupleOf(t).(since := "", detail := "")
    requires MarkersOf(s) == MarkersOf(t) && Get(s, Pid) == Get(t, Pid) && Get(s, StampedAt) == Get(t, StampedAt)
    requires Get(s, State) != ""
    ensures var a, b := NonEmpty(s), NonEmpty(t);
      && State in b && a[State] == b[State] && SourceField(a) == SourceField(b)
      && IntField(a, EvidenceAt) == IntField(b, EvidenceAt) && IntField(a, StampedAt) == IntField(b, StampedAt)
      && IntField(a, Pid) == IntField(b, Pid) && OptIntField(a, NotifiedAt) == OptIntField(b, NotifiedAt)
      && IntField(a, TurnAt) == IntField(b, TurnAt) && OptIntField(a, Hash) == OptIntField(b, Hash)
      && Get(a, Attention) == Get(b, Attention)
      && Get(a, Detail) == Get(s, Detail) && Get(b, Detail) == Get(t, Detail)
      && IntField(a, Since) == FieldReads(Get(s, Since)) && IntField(b, Since) == FieldReads(Get(t, Since))
  {
  }

  /** Decoding, from the fields: apart from detail and `since` alike, two option maps decode alike
      exactly when those do too. */
  lemma DecodedAlike(a: Options, b: Options)
    requires FromOptions(a).Prior().Some? && State in b && a[State] == b[State] && SourceField(a) == SourceField(b)
    requires IntField(a, EvidenceAt) == IntField(b, EvidenceAt) && IntField(a, StampedAt) == IntField(b, StampedAt)
    requires IntField(a, Pid) == IntField(b, Pid) && OptIntField(a, NotifiedAt) == OptIntField(b, NotifiedAt)
    requires IntField(a, TurnAt) == IntField(b, TurnAt) && OptIntField(a, Hash) == OptIntField(b, Hash)
    requires Get(a, Attention) == Get(b, Attention) && IntField(b, Since).Some?
    ensures FromOptions(a) == FromOptions(b)
        <==> Get(a, Detail) == Get(b, Detail)
             && ToMillis(IntField(a, Since).value) == ToMillis(IntField(b, Since).value)
  {
  }

  /** Decoding is determined by the option texts: two stores that differ in `since` and detail alone
      read alike exactly when the details are the same text and the `since` values the same instant. */
  lemma ReadsDetermined(s: Options, t: Options)
    requires TupleOf(s).(since := "", detail := "") == TupleOf(t).(since := "", detail := "")
    requires MarkersOf(s) == MarkersOf(t) && Get(s, Pid) == Get(t, Pid) && Get(s, StampedAt) == Get(t, StampedAt)
    requires FieldReads(Get(s, Since)).Some? && FieldReads(Get(t, Since)).Some?
    requires ReadPane(s).Prior().Some?
    ensures ReadPane(s) == ReadPane(t)
        <==> && Get(s, Detail) == Get(t, Detail)
             && ToMillis(FieldReads(Get(s, Since)).value) == ToMillis(FieldReads(Get(t, Since)).value)
  {
    FieldsAgree(s, t);
    DecodedAlike(NonEmpty(s), NonEmpty(t));
  }

  /** The advisory chain is read back exactly as the unconditional guarded chain is, if and only if
      neither can be read for a bookkeeping option both leave alone, or no detail had to be dropped to
      protect the format and the two `since` values read alike. */
  lemma AdvisoryMatchesUnconditional(s: Options, p: Publish)
    requires p.guard == Unconditional
    ensures ReadPane(Run(s, AdvisoryFor(s, p))) == ReadPane(Run(s, PublishCommands(p)))
        <==> p.episodeReset || !KeptParse(s, p) || (!CorruptDetail(p.detail) && SinceReadsAlike(s, p))
  {
    if !p.episodeReset {
      var guarded, advisory := Run(s, PublishCommands(p)), Run(s, AdvisoryFor(s, p));
      CommittedRead(s, p);
      GroupRead(s, p);
      if KeptParse(s, p) {
        AdvisoryTexts(s, p);
        CommittedTexts(s, p);
        CommittedMarkers(s, p);
        AdvisorySinceExact(s, p);
        SinceText(s, p);
        ShownField(p.since);
        ShownField(AdvisorySinceFor(s, p));
        ReadsDetermined(guarded, advisory);
      }
    }
  }

  lemma CommittedMarkers(s: Options, p: Publish)
    requires Paired(p) && Commits(s, p) && !p.episodeReset && !Tears(TupleOf(s), p)
    ensures var after := Run(s, PublishCommands(p));
      && MarkersOf(after) == (if p.hash.Some? then MarkersOf(s).(hash := Show(p.hash.value)) else MarkersOf(s))
      && TupleOf(after).detail == SafeDetail(p.detail)
      && TupleOf(after).attention == if p.setAttention then "1" else Get(s, Attention)
  {
    FreshnessSuffix(s, GuardedCommands(p), p);
    GuardedOutcome(s, p);
    BlocksMeaning(p.guard, s);
  }

  /** Two reads that show the same claim. */
  predicate SameClaim(a: Option<StampedState>, b: Option<StampedState>) {
    || (a.None? && b.None?)
    || (a.Some? && b.Some?
        && a.value.state == b.value.state && a.value.detail == b.value.detail && a.value.source == b.value.source
        && a.value.evidenceAt == b.value.evidenceAt && a.value.since == b.value.since
        && a.value.attention == b.value.attention)
  }

  lemma GroupEntered(s: Options, p: Publish)
    ensures Group(s, p) == if p.guard.Blocks(s) then s else Run(s, AdvisoryFor(s, p))
  {
    ChooseMeaning(p.guard.SuppressFormat(), Literal("0"), Literal("1"), s);
  }

  /** What the torn chain left decodes to: the old evidence time, if it decodes at all. */
  predicate TearShows(s: Options, p: Publish) {
    var evidence := FieldReads(Get(s, EvidenceAt));
    && Tears(TupleOf(s), p)
    && !(&& evidence.Some? && ToMillis(evidence.value) == ToMillis(p.evidenceAt)
         && (p.setAttention ==> Get(s, Attention) == "1"))
  }

  /** A tear hides only behind a legacy evidence time. */
  lemma TearAlwaysShowsInMillis(s: Options, p: Publish)
    requires Paired(p) && Tears(TupleOf(s), p) && !Legacy(p.evidenceAt)
    ensures TearShows(s, p)
  {
  }

  /** The re-evaluated chain refines the group: a reader sees the same claim from both exactly when the
      guard holds the store and the chain's fresh bookkeeping does not make it decode again, or neither
      can be read, or no tear shows, no detail is dropped and the `since` values read alike. */
  lemma ChainRefinesGroup(s: Options, p: Publish)
    requires Paired(p) && !p.episodeReset
    ensures SameClaim(ReadPane(Group(s, p)).Prior(), ReadPane(Run(s, PublishCommands(p))).Prior())
        <==> if p.guard.Blocks(s) then ReadPane(s).Prior().Some? || !ClaimParses(s) || !KeptParse(s, p)
             else !KeptParse(s, p) || (!TearShows(s, p) && !CorruptDetail(p.detail) && SinceReadsAlike(s, p))
  {
    GroupEntered(s, p);
    if p.guard.Blocks(s) {
      HeldRead(s, p);
      if ReadPane(s).Prior().Some? { HeldKeeps(s, p); }
    } else {
      OpenChainRefinesGroup(s, p);
    }
  }

  lemma OpenChainRefinesGroup(s: Options, p: Publish)
    requires Paired(p) && !p.episodeReset && !p.guard.Blocks(s)
    ensures SameClaim(ReadPane(Run(s, AdvisoryFor(s, p))).Prior(), ReadPane(Run(s, PublishCommands(p))).Prior())
        <==> !KeptParse(s, p) || (!TearShows(s, p) && !CorruptDetail(p.detail) && SinceReadsAlike(s, p))
  {
    GroupRead(s, p);
    AdvisorySinceExact(s, p);
    DetailReads(p);
    if Tears(TupleOf(s), p) {
      TornRead(s, p);
    } else {
      WholeRead(s, p);
    }
  }

  /** The filter costs the reader a detail exactly when the detail is corrupt. */
  lemma DetailReads(p: Publish)
    ensures (if SafeDetail(p.detail) == "" then None else Some(SafeDetail(p.detail)))
         == (if p.detail.Some? && p.detail.value != "" then p.detail else None)
        <==> !CorruptDetail(p.detail)
  {
  }

  /** What a reader makes of a chain that committed whole. */
  lemma WholeRead(s: Options, p: Publish)
    requires Paired(p) && !p.episodeReset && !p.guard.Blocks(s) && !Tears(TupleOf(s), p)
    ensures var after := ReadPane(Run(s, PublishCommands(p))).Prior();
      && (after.Some? <==> KeptParse(s, p))
      && (after.Some? ==>
        && after.value.state == p.state && after.value.source == p.source
        && after.value.detail == (if SafeDetail(p.detail) == "" then None else Some(SafeDetail(p.detail)))
        && after.value.evidenceAt == ToMillis(p.evidenceAt)
        && after.value.since == ToMillis(CommittedSince(s, p))
        && after.value.attention == (p.setAttention || Get(s, Attention) == "1"))
  {
    CommittedRead(s, p);
    CommittedMarkers(s, p);
    var after := Run(s, PublishCommands(p));
    if ReadPane(after).Prior().Some? {
      DecodedFields(after, ReadPane(after).Prior().value);
    }
  }

  /** The entered group reads back as the publish, with the `since` its producer resolved, whatever the
      store held before, if and only if the bookkeeping options it leaves alone parse. */
  lemma GroupRead(s: Options, p: Publish)
    requires !p.episodeReset
    ensures var after := ReadPane(Run(s, AdvisoryFor(s, p)));
      && (after.Prior().Some? <==> KeptParse(s, p))
      && (after.Prior().None? ==> after.Malformed?)
      && (after.Prior().Some? ==>
        var stamp := after.Prior().value;
        && stamp.state == p.state && stamp.source == p.source
        && stamp.detail == (if p.detail.Some? && p.detail.value != "" then p.detail else None)
        && stamp.evidenceAt == ToMillis(p.evidenceAt)
        && stamp.since == ToMillis(AdvisorySinceFor(s, p))
        && stamp.attention == (p.setAttention || Get(s, Attention) == "1")
        && stamp.stampedAt == ToMillis(p.stampedAt) && stamp.pid == p.pid)
  {
    var after := Run(s, AdvisoryFor(s, p));
    AdvisoryTexts(s, p);
    DecodesExactly(after);
    AbsentState(after);
    StateTokenRoundTrip(p.state, "");
    if p.hash.Some? { ShownField(p.hash.value); }
    if KeptParse(s, p) {
      ShownField(AdvisorySinceFor(s, p));
      ShownField(p.evidenceAt);
      ShownField(p.stampedAt);
      ShownField(p.pid);
      DecodeTexts(after, p.state, p.source, p.evidenceAt, AdvisorySinceFor(s, p), p.stampedAt, p.pid);
    }
  }

  /** The option texts a torn chain leaves. */
  lemma TornTexts(s: Options, p: Publish)
    requires Paired(p) && !p.episodeReset && Tears(TupleOf(s), p)
    ensures var after := Run(s, PublishCommands(p));
      && TupleOf(after) == Torn(TupleOf(s), p)
      && Get(after, Pid) == Show(p.pid) && Get(after, StampedAt) == Show(p.stampedAt)
      && (LeftoversParse(after) <==> KeptParse(s, p))
  {
    FreshnessSuffix(s, GuardedCommands(p), p);
    if p.hash.Some? { ShownField(p.hash.value); }
    AllOrNothing(s, p);
    GuardedOutcome(s, p);
  }

  /** What a reader makes of a torn chain: the new claim under the old evidence time and attention, or
      nothing when that time or the bookkeeping options left alone do not decode. */
  lemma TornRead(s: Options, p: Publish)
    requires Paired(p) && !p.episodeReset && Tears(TupleOf(s), p)
    ensures var evidence, after := FieldReads(Get(s, EvidenceAt)), ReadPane(Run(s, PublishCommands(p))).Prior();
      && (after.Some? <==> evidence.Some? && KeptParse(s, p))
      && (after.Some? ==>
        && after.value.state == p.state && after.value.source == p.source
        && after.value.detail == (if SafeDetail(p.detail) == "" then None else Some(SafeDetail(p.detail)))
        && after.value.evidenceAt == ToMillis(evidence.value)
        && after.value.since == ToMillis(CommittedSince(s, p))
        && after.value.attention == (Get(s, Attention) == "1"))
  {
    var after, evidence := Run(s, PublishCommands(p)), FieldReads(Get(s, EvidenceAt));
    TornTexts(s, p);
    SinceText(s, p);
    DecodesExactly(after);
    if evidence.Some? && KeptParse(s, p) {
      ShownField(p.since);
      ShownField(p.stampedAt);
      ShownField(p.pid);
      DecodeTexts(after, p.state, p.source, evidence.value, CommittedSince(s, p), p.stampedAt, p.pid);
    }
  }

  /** Over a torn chain the predicted row still comes true if and only if the old evidence time decodes,
      no attention was to be set that was not set before, and the row was foreseeable. */
  lemma ProjectionWhenTorn(s: Options, p: Publish)
    requires Paired(p) && !p.episodeReset && Tears(TupleOf(s), p)
    ensures var prev, after := ReadPane(s).Prior(), ReadPane(Run(s, PublishCommands(p))).Prior();
      (after.Some? && RowOf(after.value) == ProjectPublish(prev, p))
      <==> FieldReads(Get(s, EvidenceAt)).Some? && (p.setAttention ==> Get(s, Attention) == "1") && Foreseen(s, p)
  {
    TornRead(s, p);
    MirrorAgrees(s, p);
    BlocksMeaning(p.guard, s);
    KeptSinceExact(s, p);
    if ReadPane(s).Prior().Some? { PriorFields(s, p); }
  }
}
