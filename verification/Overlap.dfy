/** Transactions that overlap. A writer looks at the pane, and commits its edits only if the options it
    decided on and the write receipt are still what it saw; a refused commit is not tried again. */
module Overlap {
  import opened Basics
  import opened Decimal
  import opened PaneStore
  import opened Stamp
  import opened Publish
  import opened Atomicity
  import opened Mirror
  import opened Grouped
  import opened Arrivals
  import opened Races

  // ----- one commit -----------------------------------------------------------------------------

  /** A pane's options with its write receipt. Receipts are fresh tokens: counting the writes that took
      one tells them apart as well. */
  datatype Server = Server(options: Options, receipt: nat)

  /** The options a decoded claim depends on read as they did. */
  predicate ProjectionUnchanged(s: Options, t: Options) {
    && Get(s, State) == Get(t, State) && Get(s, Source) == Get(t, Source) && Get(s, Pid) == Get(t, Pid)
    && Get(s, EvidenceAt) == Get(t, EvidenceAt) && Get(s, Since) == Get(t, Since)
    && Get(s, StampedAt) == Get(t, StampedAt) && Get(s, NotifiedAt) == Get(t, NotifiedAt)
    && Get(s, TurnAt) == Get(t, TurnAt) && Get(s, Hash) == Get(t, Hash)
  }

  /** A publish decided on `seen` and committed on `now`. */
  function Submit(now: Server, seen: Server, p: Publish): Server {
    if now.receipt == seen.receipt && ProjectionUnchanged(now.options, seen.options) && !p.guard.Blocks(now.options)
    then Server(Run(now.options, AdvisoryFor(seen.options, p)), now.receipt + 1)
    else now
  }

  /** The compared options decide what the writer decodes, apart from detail and attention. */
  lemma ProjectionDecides(s: Options, t: Options)
    requires ProjectionUnchanged(s, t)
    ensures var a, b := ReadPane(s).Prior(), ReadPane(t).Prior();
      && (a.Some? <==> b.Some?)
      && (a.Some? ==> a.value.state == b.value.state && a.value.since == b.value.since)
  {
    DecodesExactly(s);
    DecodesExactly(t);
    if ReadPane(s).Prior().Some? {
      var a, b := ReadPane(s).Prior().value, ReadPane(t).Prior().value;
      DecodedFields(s, a);
      DecodedFields(t, b);
      StateTokenRoundTrip(a.state, Get(s, State));
      StateTokenRoundTrip(b.state, Get(s, State));
    }
  }

  /** So a commit is the one-step group, or nothing at all when anything was written since the look. */
  lemma SubmitExact(now: Server, seen: Server, p: Publish)
    ensures Submit(now, seen, p) ==
      if now.receipt == seen.receipt && ProjectionUnchanged(now.options, seen.options)
      then Server(Group(now.options, p), now.receipt + if p.guard.Blocks(now.options) then 0 else 1)
      else now
  {
    GroupEntered(now.options, p);
    if ProjectionUnchanged(now.options, seen.options) {
      ProjectionDecides(now.options, seen.options);
    }
  }

  lemma HookSubmit(now: Server, seen: Server, p: Publish)
    requires HookStamp(p)
    ensures var after := Submit(now, seen, p);
      if && now.receipt == seen.receipt && ProjectionUnchanged(now.options, seen.options)
         && GroupRegister(now.options).time <= p.evidenceAt
      then after.receipt == now.receipt + 1
           && GroupRegister(after.options) == Register(p.evidenceAt, GroupedBy(p))
      else after == now
  {
    SubmitExact(now, seen, p);
    GroupLands(now.options, p);
    BlocksMeaning(p.guard, now.options);
  }

  // ----- all writers look before any commits ----------------------------------------------------

  function SubmitAll(now: Server, seen: Server, ps: seq<Publish>): Server
    decreases |ps|
  {
    if ps == [] then now else SubmitAll(Submit(now, seen, ps[0]), seen, ps[1..])
  }

  /** The first event not older than `time`. */
  predicate FirstEligible(ps: seq<Publish>, i: int, time: nat) {
    && 0 <= i < |ps| && time <= ps[i].evidenceAt
    && forall j | 0 <= j < i :: ps[j].evidenceAt < time
  }

  lemma {:induction false} MovedOn(now: Server, seen: Server, ps: seq<Publish>)
    requires now.receipt != seen.receipt
    ensures SubmitAll(now, seen, ps) == now
    decreases |ps|
  {
    if ps != [] { MovedOn(now, seen, ps[1..]); }
  }

  /** Of events that all looked at the same pane, the first to commit that its hook claim lets in wins,
      and every other is dropped, newer or not. */
  lemma {:induction false} FirstCommitWins(v: Server, ps: seq<Publish>)
    requires HookStamps(ps)
    ensures forall i | FirstEligible(ps, i, GroupRegister(v.options).time) ::
              GroupRegister(SubmitAll(v, v, ps).options) == Register(ps[i].evidenceAt, GroupedBy(ps[i]))
    ensures AllOlder(ps, EvidenceTime, GroupRegister(v.options).time) ==> SubmitAll(v, v, ps) == v
    decreases |ps|
  {
    if ps != [] {
      var time := GroupRegister(v.options).time;
      HookSubmit(v, v, ps[0]);
      if time <= ps[0].evidenceAt {
        MovedOn(Submit(v, v, ps[0]), v, ps[1..]);
        assert ps[0] in ps;
      } else {
        FirstCommitWins(v, ps[1..]);
        forall i | FirstEligible(ps, i, time) ensures FirstEligible(ps[1..], i - 1, time) {
          assert forall j | 0 <= j < i - 1 :: ps[1..][j] == ps[j + 1];
        }
      }
    }
  }

  predicate Eligible(p: Publish, v: Server) {
    GroupRegister(v.options).time <= p.evidenceAt
  }

  /** The events the pane's hook claim lets in say the same, instant included. */
  predicate EligibleAgree(v: Server, ps: seq<Publish>) {
    forall p, q | p in ps && q in ps && Eligible(p, v) && Eligible(q, v) :: GroupedBy(p) == GroupedBy(q)
  }

  /** All commit orders leave the same claim if and only if the events let in say the same. Events of
      distinct times never do: the order then matters as soon as two are let in. */
  lemma OverlapConvergesIff(v: Server, ps: seq<Publish>)
    requires HookStamps(ps)
    ensures (forall qs: seq<Publish> | multiset(qs) == multiset(ps) ::
               ClaimIn(TupleOf(SubmitAll(v, v, qs).options)) == ClaimIn(TupleOf(SubmitAll(v, v, ps).options)))
        <==> EligibleAgree(v, ps)
  {
    if EligibleAgree(v, ps) {
      forall qs: seq<Publish> | multiset(qs) == multiset(ps)
        ensures ClaimIn(TupleOf(SubmitAll(v, v, qs).options)) == ClaimIn(TupleOf(SubmitAll(v, v, ps).options))
      {
        OverlapConverges(v, ps, qs);
      }
    } else {
      var p, q :| p in ps && q in ps && Eligible(p, v) && Eligible(q, v) && GroupedBy(p) != GroupedBy(q);
      var ps1 := WonByFirst(v, ps, p);
      var ps2 := WonByFirst(v, ps, q);
      assert ClaimIn(TupleOf(SubmitAll(v, v, ps1).options)) != ClaimIn(TupleOf(SubmitAll(v, v, ps2).options));
    }
  }

  lemma {:induction false} FirstExists(ps: seq<Publish>, time: nat) returns (i: int)
    requires !AllOlder(ps, EvidenceTime, time)
    ensures FirstEligible(ps, i, time) && ps[i] in ps
    decreases |ps|
  {
    if time <= ps[0].evidenceAt {
      i := 0;
    } else {
      assert forall p | p in ps :: p == ps[0] || p in ps[1..];
      i := FirstExists(ps[1..], time);
      i := i + 1;
      assert forall j | 0 < j < i :: ps[j] == ps[1..][j - 1];
    }
  }

  lemma OverlapConverges(v: Server, ps: seq<Publish>, qs: seq<Publish>)
    requires HookStamps(ps) && multiset(qs) == multiset(ps) && EligibleAgree(v, ps)
    ensures ClaimIn(TupleOf(SubmitAll(v, v, qs).options)) == ClaimIn(TupleOf(SubmitAll(v, v, ps).options))
  {
    var time := GroupRegister(v.options).time;
    StampsReordered(ps, qs);
    FirstCommitWins(v, ps);
    FirstCommitWins(v, qs);
    if !AllOlder(ps, EvidenceTime, time) {
      var i := FirstExists(ps, time);
      var k := FirstExists(qs, time);
      assert Eligible(ps[i], v) && Eligible(qs[k], v);
    }
  }

  lemma WonByFirst(v: Server, ps: seq<Publish>, p: Publish) returns (qs: seq<Publish>)
    requires HookStamps(ps) && p in ps && Eligible(p, v)
    ensures multiset(qs) == multiset(ps) && ClaimIn(TupleOf(SubmitAll(v, v, qs).options)) == GroupedBy(p)
  {
    var i :| 0 <= i < |ps| && ps[i] == p;
    qs := ps;
    if i > 0 { qs := Promote(ps, i); }
    StampsReordered(ps, qs);
    FirstCommitWins(v, qs);
    assert FirstEligible(qs, 0, GroupRegister(v.options).time);
  }

  /** The dropped event may be the newer one. */
  lemma OverlapWitness(older: u64, newer: u64)
    requires older < newer
    ensures var v, p, q := Server(map[], 0), HookStampAt(older), HookStampAt(newer);
      && ClaimIn(TupleOf(SubmitAll(v, v, [p, q]).options)) == GroupedBy(p)
      && ClaimIn(TupleOf(SubmitAll(v, v, [q, p]).options)) == GroupedBy(q)
      && GroupedBy(p) != GroupedBy(q)
  {
    var v, p, q := Server(map[], 0), HookStampAt(older), HookStampAt(newer);
    ShownOperand(older);
    ShownOperand(newer);
    FirstCommitWins(v, [p, q]);
    FirstCommitWins(v, [q, p]);
    assert FirstEligible([p, q], 0, 0) && FirstEligible([q, p], 0, 0);
  }
}
