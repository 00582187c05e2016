/** When a guarded chain commits or holds as one. The tuple is torn in exactly one situation, and
    everywhere else the chain agrees with evaluating its guard once. */
module Atomicity {
  import opened Basics
  import opened Decimal
  import opened PaneStore
  import opened Stamp
  import opened Publish

  /** What the torn chain leaves: the new claim under the old evidence time and attention. */
  function Torn(t: Tuple, p: Publish): Tuple {
    Intended(t, p).(evidenceAt := t.evidenceAt, attention := t.attention)
  }

  lemma HookToken(source: Provenance)
    ensures source.Token() == "hook" <==> source == Hook
  {
    ProvenanceTokenRoundTrip(Hook, source.Token());
    ProvenanceTokenRoundTrip(source, source.Token());
  }

  /** The guarded chain, executed command by command, for every paired publish. */
  lemma GuardedOutcome(s: Options, p: Publish)
    requires Paired(p)
    ensures var t := TupleOf(s);
      TupleOf(Run(s, GuardedCommands(p))) == if Tears(t, p) then Torn(t, p) else Atomic(t, p)
    ensures MarkersOf(Run(s, GuardedCommands(p))) == MarkersOf(s)
  {
    var t1, t2, t3, t4, t5 := GuardedTrace(s, p);
    HookToken(p.source);
    ShownOperand(p.evidenceAt);
  }

  lemma PlainPush(s: Options, cmds: seq<Command>, key: Key, text: string)
    requires InTuple(key)
    ensures ViewOf(Run(s, cmds + [SetPlain(key, text)])) == PutView(ViewOf(Run(s, cmds)), key, text)
  {
    RunPush(s, cmds, SetPlain(key, text));
  }

  lemma UnsetPush(s: Options, cmds: seq<Command>, key: Key)
    requires key.Detail? || key.Attention? || key.NotifiedAt? || key.TurnAt?
    ensures ViewOf(Run(s, cmds + [Unset(key)])) == PutView(ViewOf(Run(s, cmds)), key, "")
  {
    RunPush(s, cmds, Unset(key));
  }

  /** A write outside the tuple. */
  lemma FreshPush(s: Options, cmds: seq<Command>, key: Key, text: string)
    requires key.Hash? || key.Pid? || key.Name? || key.StampedAt?
    ensures var before, after := ViewOf(Run(s, cmds)), ViewOf(Run(s, cmds + [SetPlain(key, text)]));
      after == if key.Hash? then before.(markers := before.markers.(hash := text))
               else if key.Pid? then before.(pid := text)
               else if key.StampedAt? then before.(stampedAt := text)
               else before
  {
    RunPush(s, cmds, SetPlain(key, text));
  }

  lemma FreshTexts(s: Options, cmds: seq<Command>, pid: string, name: string, stamped: string)
    ensures var owned := cmds + [SetPlain(Pid, pid)];
      var named := if name != "" then owned + [SetPlain(Name, name)] else owned;
      ViewOf(Run(s, named + [SetPlain(StampedAt, stamped)]))
      == ViewOf(Run(s, cmds)).(pid := pid, stampedAt := stamped)
  {
    var owned := cmds + [SetPlain(Pid, pid)];
    FreshPush(s, cmds, Pid, pid);
    if name != "" {
      FreshPush(s, owned, Name, name);
      FreshPush(s, owned + [SetPlain(Name, name)], StampedAt, stamped);
    } else {
      FreshPush(s, owned, StampedAt, stamped);
    }
  }

  /** The freshness suffix never touches the arbitrated tuple. */
  lemma FreshnessSuffix(s: Options, cmds: seq<Command>, p: Publish)
    ensures var before, after := Run(s, cmds), Run(s, WithFreshness(cmds, p));
      ViewOf(after) == View(TupleOf(before),
        if p.hash.Some? then MarkersOf(before).(hash := Show(p.hash.value)) else MarkersOf(before),
        Show(p.pid), Show(p.stampedAt))
  {
    if p.hash.Some? {
      FreshPush(s, cmds, Hash, Show(p.hash.value));
      FreshTexts(s, cmds + [SetPlain(Hash, Show(p.hash.value))], Show(p.pid), p.name, Show(p.stampedAt));
    } else {
      FreshTexts(s, cmds, Show(p.pid), p.name, Show(p.stampedAt));
    }
  }

  /** All or nothing, exactly: the stored tuple is entirely old or entirely new if and only if the
      publish is not a hook stamp landing on a newer non-hook claim. */
  lemma AllOrNothing(s: Options, p: Publish)
    requires Paired(p) && !p.episodeReset
    ensures var before, after := TupleOf(s), TupleOf(Run(s, PublishCommands(p)));
      && ((after == before || after == Intended(before, p)) <==> !Tears(before, p))
      && (!Tears(before, p) ==> after == Atomic(before, p))
      && (Tears(before, p) ==> after == Torn(before, p))
  {
    GuardedOutcome(s, p);
    FreshnessSuffix(s, GuardedCommands(p), p);
    ShownOperand(p.evidenceAt);
    HookToken(p.source);
  }

  /** A capture claim, and a hook stamp. */
  function CapturedPane(at: u64): Options {
    map[State := "idle", Source := "capture", EvidenceAt := Show(at)]
  }

  function HookStampAt(at: u64): Publish {
    Publish(Working, None, Hook, at, at, at, None, 1, "claude", false, false, HookArbitrate(at))
  }

  /** The exception is reachable: every hook stamp over a newer capture claim tears it. */
  lemma TearWitness(older: u64, newer: u64)
    requires older < newer
    ensures Paired(HookStampAt(older)) && !HookStampAt(older).episodeReset
    ensures Tears(TupleOf(CapturedPane(newer)), HookStampAt(older))
  {
    ShownOperand(newer);
  }

  /** Five plain writes, whatever the store held. */
  lemma PlainOutcome(s: Options, since: string, p: Publish)
    ensures var after := Run(s, PlainCommands(since, p));
      && TupleOf(after) == Tuple(since, p.state.Token(), if p.detail.Some? then p.detail.value else "",
                                 p.source.Token(), Show(p.evidenceAt), Get(s, Attention))
      && MarkersOf(after) == MarkersOf(s)
  {
    var none: seq<Command> := [];
    var c1 := [SetPlain(Since, since)];
    PlainPush(s, none, Since, since);
    assert none + c1 == c1;
    var c2 := c1 + [SetPlain(State, p.state.Token())];
    PlainPush(s, c1, State, p.state.Token());
    var c3 := c2 + [PlainDetail(p)];
    if p.detail.Some? { PlainPush(s, c2, Detail, p.detail.value); } else { UnsetPush(s, c2, Detail); }
    var c4 := c3 + [SetPlain(Source, p.source.Token())];
    PlainPush(s, c3, Source, p.source.Token());
    PlainPush(s, c4, EvidenceAt, Show(p.evidenceAt));
  }

  lemma UnsetMarkers(s: Options, cmds: seq<Command>)
    ensures var before, after := Run(s, cmds), Run(s, cmds + [Unset(NotifiedAt)] + [Unset(TurnAt)]);
      TupleOf(after) == TupleOf(before) && MarkersOf(after) == Markers(Get(before, Hash), "", "")
  {
    UnsetPush(s, cmds, NotifiedAt);
    UnsetPush(s, cmds + [Unset(NotifiedAt)], TurnAt);
  }

  /** An episode boundary is written unguarded: the tuple commits whole and the notification and
      turn markers go. */
  lemma ResetOutcome(s: Options, p: Publish)
    requires p.episodeReset
    ensures var after := Run(s, PublishCommands(p));
      && TupleOf(after) == Tuple(Show(p.since), p.state.Token(), if p.detail.Some? then p.detail.value else "",
                                 p.source.Token(), Show(p.evidenceAt), if p.setAttention then "1" else "")
      && MarkersOf(after) == Markers(if p.hash.Some? then Show(p.hash.value) else Get(s, Hash), "", "")
  {
    var claim := PlainCommands(Show(p.since), p);
    PlainOutcome(s, Show(p.since), p);
    var attention := if p.setAttention then SetPlain(Attention, "1") else Unset(Attention);
    if p.setAttention { PlainPush(s, claim, Attention, "1"); } else { UnsetPush(s, claim, Attention); }
    var c6 := claim + [attention];
    UnsetMarkers(s, c6);
    FreshnessSuffix(s, ResetCommands(p), p);
  }
}
