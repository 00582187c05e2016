/** Decoding the pane-option tuple. Epochs are milliseconds; a nonzero value below `MILLIS_FLOOR`
    is a legacy stamp in seconds and is scaled when it is read. */
module Stamp {
  import opened Basics
  import opened Decimal
  import opened PaneStore

  const CLOCK_STEP_SKEW_MS: u64 := 2_000
  const MILLIS_FLOOR: u64 := 1_000_000_000_000

  datatype StampedState = StampedState(
    state: AgentState,
    detail: Option<string>,
    source: Provenance,
    evidenceAt: u64,
    since: u64,
    stampedAt: u64,
    attention: bool,
    notifiedAt: Option<u64>,
    turnAt: u64,
    hash: Option<u64>,
    pid: u32)

  datatype ReadResult = Settled(stamp: StampedState) | InProgress(stamp: StampedState)

  datatype Decoded = Malformed | Decoded(read: Option<ReadResult>) {
    /** The previous stamp a producer folds against: a malformed tuple reads as never stamped. */
    function Prior(): Option<StampedState> {
      if Malformed? || read.None? then None else Some(read.value.stamp)
    }
  }

  predicate ClockStepped(since: u64, stampedAt: u64) {
    since > SatAdd(stampedAt, CLOCK_STEP_SKEW_MS)
  }

  predicate Legacy(v: u64) {
    v != 0 && v < MILLIS_FLOOR
  }

  function ToMillis(v: u64): u64 {
    if Legacy(v) then SatMillis(v) else v
  }

  /** An instant more than two seconds ahead of the stamp betrays a stepped clock, and an instant that would
      lie before September 2001 in milliseconds is one in seconds. */
  lemma EpochsExactly(since: u64, stampedAt: u64)
    ensures ClockStepped(since, stampedAt) <==> since - stampedAt > 2_000
    ensures Legacy(since) <==> 1 <= since <= 999_999_999_999
    ensures ToMillis(since) == if 1 <= since <= 999_999_999_999 then 1_000 * since else since
  {
  }

  /** A required integer: an absent option reads as zero. */
  function IntField(opts: Options, k: Key): Option<u64> {
    if k in opts then ParseU64(opts[k]) else Some(0)
  }

  function OptIntField(opts: Options, k: Key): Option<Option<u64>> {
    if k !in opts then Some(None)
    else match ParseU64(opts[k])
      case None => None
      case Some(v) => Some(Some(v))
  }

  function SourceField(opts: Options): Option<Provenance> {
    if Source in opts then ParseProvenance(opts[Source]) else Some(Capture)
  }

  function FromOptions(opts: Options): Decoded {
    if State !in opts then Decoded(None) else
    match ParseState(opts[State])
    case None => Malformed
    case Some(state) =>
      var detail := if Detail in opts && opts[Detail] != "" then Some(opts[Detail]) else None;
      match (SourceField(opts), IntField(opts, EvidenceAt), IntField(opts, Since), IntField(opts, StampedAt))
      case (Some(source), Some(evidence), Some(since), Some(stamped)) =>
        (match (IntField(opts, Pid), OptIntField(opts, NotifiedAt), IntField(opts, TurnAt), OptIntField(opts, Hash))
         case (Some(pid), Some(notified), Some(turn), Some(hash)) =>
           if pid > U32_MAX then Malformed else
           var stamp := StampedState(
             state, detail, source, ToMillis(evidence), ToMillis(since), ToMillis(stamped),
             Attention in opts && opts[Attention] == "1",
             if notified.Some? then Some(ToMillis(notified.value)) else None,
             ToMillis(turn), hash, pid);
           var inProgress := !ClockStepped(stamp.since, stamp.stampedAt)
             && (stamp.stampedAt < stamp.since || stamp.stampedAt < stamp.evidenceAt);
           Decoded(Some(if inProgress then InProgress(stamp) else Settled(stamp)))
         case (_, _, _, _) => Malformed)
      case (_, _, _, _) => Malformed
  }

  /** Both readers of a pane drop an empty value before they decode. */
  function NonEmpty(s: Options): Options {
    map k | k in s && s[k] != "" :: s[k]
  }

  function ReadPane(s: Options): Decoded {
    FromOptions(NonEmpty(s))
  }

  /** A timestamp option as the server compares it: unscaled, empty counting as zero. */
  function RawEpoch(s: Options, k: Key): u64 {
    var v := Get(s, k);
    if v == "" || ParseU64(v).None? then 0 else ParseU64(v).value
  }

  /** What a decoded read says about the raw options behind it. */
  lemma DecodedFields(s: Options, stamp: StampedState)
    requires ReadPane(s).Prior() == Some(stamp)
    ensures Get(s, State) == stamp.state.Token()
    ensures Get(s, Source) == stamp.source.Token() || (Get(s, Source) == "" && stamp.source == Capture)
    ensures Operand(Get(s, EvidenceAt)) == Some(RawEpoch(s, EvidenceAt))
    ensures stamp.evidenceAt == ToMillis(RawEpoch(s, EvidenceAt))
    ensures Operand(Get(s, Since)) == Some(RawEpoch(s, Since))
    ensures stamp.since == ToMillis(RawEpoch(s, Since))
    ensures stamp.attention == (Get(s, Attention) == "1")
    ensures stamp.detail == if Get(s, Detail) == "" then None else Some(Get(s, Detail))
  {
    StateTokenRoundTrip(stamp.state, Get(s, State));
    ProvenanceTokenRoundTrip(stamp.source, Get(s, Source));
  }

  /** No state, no stamp; and a pane that decodes to nothing carries no state. */
  lemma AbsentState(s: Options)
    ensures ReadPane(s) == Decoded(None) <==> Get(s, State) == ""
  {
  }
}
