/** What a schedule of looks and commits comes to: safety under all of them, the exact fate of the
    newest event, and the two extremes, no overlap and complete overlap. */
module Standings {
  import opened Basics
  import opened PaneStore
  import opened Publish
  import opened Grouped
  import opened Arrivals
  import opened Races
  import opened Overlap
  import opened Schedule

  lemma ClaimRises(r: Race, i: nat)
    requires r.Valid() && i < |r.es|
    ensures r.ClaimAt(i).time <= r.ClaimAt(i + 1).time
  {
    ClaimStep(r, i);
  }

  /** Under every schedule, a hook claim is never replaced by an older event. */
  lemma ClaimsNeverRegress(r: Race, j: nat, i: nat)
    requires r.Valid() && j <= i <= |r.es|
    ensures r.ClaimAt(j).time <= r.ClaimAt(i).time
  {
    var cs := Claims(r);
    forall k | 0 <= k < |cs| - 1 ensures cs[k].time <= cs[k + 1].time {
      ClaimRises(r, k);
    }
    NeverFalls(cs, j, i);
  }

  /** No event lands from step `i` up to step `n`. */
  predicate NoneLands(r: Race, i: nat, n: nat)
    requires n <= |r.es|
  {
    forall k | i <= k < n && r.es[k].Commit? && r.es[k].w < |r.ps| :: !r.Landed(k, r.es[k].w)
  }

  /** What stands is the last event that landed, or the old claim if none did. */
  lemma LastLandingStands(r: Race, i: nat, n: nat)
    requires r.Valid() && i <= n <= |r.es| && NoneLands(r, i, n)
    ensures r.ClaimAt(n) == r.ClaimAt(i)
  {
    var cs := Claims(r);
    forall k | i <= k < n && cs[k] == cs[i] ensures cs[k + 1] == cs[i] {
      ClaimStep(r, k);
    }
    Keeps(cs, i, n);
  }

  /** The newest of all events, and newer than the claim they meet. */
  predicate Newest(r: Race, w: nat)
    requires r.Valid()
  {
    && w < |r.ps| && r.ClaimAt(0).time < r.ps[w].evidenceAt
    && forall u | 0 <= u < |r.ps| && u != w :: r.ps[u].evidenceAt < r.ps[w].evidenceAt
  }

  /** Some commit of the writer finds the pane as its writer saw it. */
  predicate Uninterrupted(r: Race, w: nat) {
    exists i | 0 <= i < |r.es| :: r.es[i] == Commit(w) && r.Uncontested(i, w)
  }

  lemma NewestStep(r: Race, w: nat, i: nat, limit: nat)
    requires r.Valid() && Newest(r, w) && i < |r.es| && r.ClaimAt(i).time < limit
    requires r.ps[w].evidenceAt < limit || (r.ps[w].evidenceAt == limit && !r.Landed(i, w))
    ensures r.ClaimAt(i + 1).time < limit
  {
    ClaimStep(r, i);
  }

  lemma BelowNewest(r: Race, w: nat, i: nat)
    requires r.Valid() && Newest(r, w) && i <= |r.es|
    ensures r.ClaimAt(i).time <= r.ps[w].evidenceAt
  {
    var cs, limit := Claims(r), r.ps[w].evidenceAt + 1;
    forall k | 0 <= k < i && cs[k].time < limit ensures cs[k + 1].time < limit {
      NewestStep(r, w, k, limit);
    }
    StaysUnder(cs, i, limit);
  }

  lemma WithoutNewest(r: Race, w: nat)
    requires r.Valid() && Newest(r, w) && forall k | 0 <= k < |r.es| :: !r.Landed(k, w)
    ensures r.FinalClaim().time < r.ps[w].evidenceAt
  {
    var cs, limit := Claims(r), r.ps[w].evidenceAt;
    forall k | 0 <= k < |r.es| && cs[k].time < limit ensures cs[k + 1].time < limit {
      NewestStep(r, w, k, limit);
    }
    StaysUnder(cs, |r.es|, limit);
  }

  lemma NewestKept(r: Race, w: nat, i: nat)
    requires r.Valid() && Newest(r, w) && i < |r.es|
    requires r.ClaimAt(i) == Register(r.ps[w].evidenceAt, GroupedBy(r.ps[w]))
    ensures r.ClaimAt(i + 1) == r.ClaimAt(i)
  {
    ClaimStep(r, i);
  }

  /** The newest event, once it stands, is never displaced. */
  lemma NewestStays(r: Race, w: nat, i: nat)
    requires r.Valid() && Newest(r, w) && i <= |r.es|
    requires r.ClaimAt(i) == Register(r.ps[w].evidenceAt, GroupedBy(r.ps[w]))
    ensures r.FinalClaim() == r.ClaimAt(i)
  {
    var cs := Claims(r);
    forall k | i <= k < |r.es| && cs[k] == cs[i] ensures cs[k + 1] == cs[i] {
      NewestKept(r, w, k);
    }
    Keeps(cs, i, |r.es|);
  }

  /** Under every schedule, the newest event stands at the end if and only if some look and commit of its
      writer had no landed write between them. Evidence time alone does not decide the race. */
  lemma NewestStandsExactly(r: Race, w: nat)
    requires r.Valid() && Newest(r, w)
    ensures r.FinalClaim() == Register(r.ps[w].evidenceAt, GroupedBy(r.ps[w])) <==> Uninterrupted(r, w)
  {
    if Uninterrupted(r, w) {
      var i :| 0 <= i < |r.es| && r.es[i] == Commit(w) && r.Uncontested(i, w);
      BelowNewest(r, w, i);
      LandsExactly(r, i, w);
      NewestStays(r, w, i + 1);
    } else {
      forall k | 0 <= k < |r.es| ensures !r.Landed(k, w) {
        if r.es[k] == Commit(w) { LandsExactly(r, k, w); }
      }
      WithoutNewest(r, w);
    }
  }

  // ----- the two extremes -----------------------------------------------------------------------

  /** Each writer from `n` on commits right after its look. */
  function OneByOne(n: nat, m: nat): seq<Event>
    decreases m - n
  {
    if n >= m then [] else [Look(n)] + ([Commit(n)] + OneByOne(n + 1, m))
  }

  /** All writers look, then all commit. */
  function Together(m: nat): seq<Event> { Looks(0, m) + Commits(0, m) }

  function Looks(n: nat, m: nat): seq<Event>
    decreases m - n
  {
    if n >= m then [] else [Look(n)] + Looks(n + 1, m)
  }

  function Commits(n: nat, m: nat): seq<Event>
    decreases m - n
  {
    if n >= m then [] else [Commit(n)] + Commits(n + 1, m)
  }

  lemma FirstStep(x: World, ps: seq<Publish>, e: Event, es: seq<Event>)
    ensures WorldAfter(x, ps, [e] + es) == WorldAfter(x.Step(e, ps), ps, es)
  {
    assert ([e] + es)[1..] == es;
  }

  lemma {:induction false} AfterAppend(x: World, ps: seq<Publish>, ds: seq<Event>, es: seq<Event>)
    ensures WorldAfter(x, ps, ds + es) == WorldAfter(WorldAfter(x, ps, ds), ps, es)
    decreases |ds|
  {
    if ds == [] {
      assert ds + es == es;
    } else {
      assert (ds + es)[1..] == ds[1..] + es;
      AfterAppend(x.Step(ds[0], ps), ps, ds[1..], es);
    }
  }

  lemma GroupFirst(s: Options, ps: seq<Publish>, n: nat)
    requires n < |ps|
    ensures GroupAll(s, ps[n..]) == GroupAll(Group(s, ps[n]), ps[n + 1..])
  {
    assert ps[n..][1..] == ps[n + 1..];
  }

  lemma SubmitFirst(now: Server, seen: Server, ps: seq<Publish>, n: nat)
    requires n < |ps|
    ensures SubmitAll(now, seen, ps[n..]) == SubmitAll(Submit(now, seen, ps[n]), seen, ps[n + 1..])
  {
    assert ps[n..][1..] == ps[n + 1..];
  }

  lemma LookThenCommit(x: World, w: nat, ps: seq<Publish>)
    requires w < |ps|
    ensures x.Step(Look(w), ps).Step(Commit(w), ps).server.options == Group(x.server.options, ps[w])
  {
    SubmitExact(x.server, x.server, ps[w]);
  }

  lemma OneByOneStep(x: World, ps: seq<Publish>, n: nat) returns (y: World)
    requires n < |ps|
    ensures WorldAfter(x, ps, OneByOne(n, |ps|)) == WorldAfter(y, ps, OneByOne(n + 1, |ps|))
    ensures GroupAll(x.server.options, ps[n..]) == GroupAll(y.server.options, ps[n + 1..])
  {
    GroupFirst(x.server.options, ps, n);
    y := x.Step(Look(n), ps).Step(Commit(n), ps);
    FirstStep(x, ps, Look(n), [Commit(n)] + OneByOne(n + 1, |ps|));
    FirstStep(x.Step(Look(n), ps), ps, Commit(n), OneByOne(n + 1, |ps|));
    LookThenCommit(x, n, ps);
  }

  /** Without overlap a run is the sequence of one-step groups. */
  lemma {:induction false} OneByOneIsGroupAll(x: World, ps: seq<Publish>, n: nat)
    requires n <= |ps|
    ensures WorldAfter(x, ps, OneByOne(n, |ps|)).server.options == GroupAll(x.server.options, ps[n..])
    decreases |ps| - n
  {
    if n < |ps| {
      var y := OneByOneStep(x, ps, n);
      OneByOneIsGroupAll(y, ps, n + 1);
    }
  }

  /** The first `n` writers all decided on `v`. */
  predicate AllSaw(x: World, n: nat, v: Server) {
    forall w | 0 <= w < n :: w in x.seen && x.seen[w] == v
  }

  lemma {:induction false} LooksSee(x: World, ps: seq<Publish>, n: nat, m: nat)
    requires n <= m && AllSaw(x, n, x.server)
    ensures var y := WorldAfter(x, ps, Looks(n, m));
      y.server == x.server && AllSaw(y, m, x.server)
    decreases m - n
  {
    if n < m {
      FirstStep(x, ps, Look(n), Looks(n + 1, m));
      LooksSee(x.Step(Look(n), ps), ps, n + 1, m);
    }
  }

  lemma CommitStep(x: World, ps: seq<Publish>, v: Server, n: nat) returns (y: World)
    requires n < |ps| && AllSaw(x, |ps|, v)
    ensures WorldAfter(x, ps, Commits(n, |ps|)) == WorldAfter(y, ps, Commits(n + 1, |ps|))
    ensures SubmitAll(x.server, v, ps[n..]) == SubmitAll(y.server, v, ps[n + 1..]) && AllSaw(y, |ps|, v)
  {
    SubmitFirst(x.server, v, ps, n);
    y := x.Step(Commit(n), ps);
    FirstStep(x, ps, Commit(n), Commits(n + 1, |ps|));
  }

  lemma {:induction false} CommitsSubmit(x: World, ps: seq<Publish>, v: Server, n: nat)
    requires n <= |ps| && AllSaw(x, |ps|, v)
    ensures WorldAfter(x, ps, Commits(n, |ps|)).server == SubmitAll(x.server, v, ps[n..])
    decreases |ps| - n
  {
    if n < |ps| {
      var y := CommitStep(x, ps, v, n);
      CommitsSubmit(y, ps, v, n + 1);
    }
  }

  /** With complete overlap it is the sequence of commits on one snapshot. */
  lemma TogetherIsSubmitAll(x: World, ps: seq<Publish>)
    ensures WorldAfter(x, ps, Together(|ps|)).server == SubmitAll(x.server, x.server, ps)
  {
    AfterAppend(x, ps, Looks(0, |ps|), Commits(0, |ps|));
    LooksSee(x, ps, 0, |ps|);
    CommitsSubmit(WorldAfter(x, ps, Looks(0, |ps|)), ps, x.server, 0);
    assert ps[0..] == ps;
  }
}
