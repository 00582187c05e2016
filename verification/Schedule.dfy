/** Hook events on one pane under an arbitrary schedule of looks and commits, among other writes that
    take a receipt: which events land. */
module Schedule {
  import opened Basics
  import opened PaneStore
  import opened Publish
  import opened Grouped
  import opened Arrivals
  import opened Races
  import opened Overlap

  /** An option outside the arbitrated claim. */
  type AsideKey = k: Key | !k.State? && !k.Detail? && !k.Source? && !k.EvidenceAt? witness Name

  /** One step: a writer looks, a writer commits what it decided at its last look, or some other
      transaction (an acknowledgement, metadata) writes beside the claim. */
  datatype Event = Look(w: nat) | Commit(w: nat) | Aside(key: AsideKey, text: string)

  datatype World = World(server: Server, seen: map<nat, Server>) {
    function Step(e: Event, ps: seq<Publish>): World {
      match e
      case Look(w) => this.(seen := seen[w := server])
      case Commit(w) =>
        if w < |ps| && w in seen then this.(server := Submit(server, seen[w], ps[w])) else this
      case Aside(key, text) => this.(server := Server(server.options[key := text], server.receipt + 1))
    }
  }

  /** The hook events, the schedule, and the world before each step and at the end. */
  datatype Race = Race(ps: seq<Publish>, es: seq<Event>, worlds: seq<World>) {
    predicate Steps(i: int) { 0 <= i < |es| && |worlds| == |es| + 1 && worlds[i + 1] == worlds[i].Step(es[i], ps) }

    /** A run of the schedule from some pane that no writer has looked at. */
    predicate Valid() {
      && |worlds| == |es| + 1 && worlds[0].seen == map[] && HookStamps(ps)
      && forall i | 0 <= i < |es| :: Steps(i)
    }

    /** The pane's hook claim as a register of evidence times. */
    function ClaimAt(i: nat): Register<Claim>
      requires i < |worlds|
    {
      GroupRegister(worlds[i].server.options)
    }

    function FinalClaim(): Register<Claim>
      requires Valid()
    {
      ClaimAt(|es|)
    }

    predicate Wrote(i: int) { 0 <= i < |worlds| - 1 && worlds[i + 1].server.receipt != worlds[i].server.receipt }

    /** Nothing is written from step `j` up to step `i`. */
    predicate Quiet(j: nat, i: nat) { forall k | j <= k < i :: !Wrote(k) }

    /** Nothing was written between some look of the writer and the step. */
    predicate Uncontested(i: nat, w: nat) {
      exists j | 0 <= j < i && j < |es| :: es[j] == Look(w) && Quiet(j, i)
    }

    /** The step is a commit of the writer, and it lands. */
    predicate Landed(i: int, w: nat) { Wrote(i) && i < |es| && es[i] == Commit(w) }
  }

  // ----- every schedule has its run ---------------------------------------------------------------

  /** The worlds a schedule passes through, and the last of them. */
  function Worlds(x: World, ps: seq<Publish>, es: seq<Event>): seq<World>
    decreases |es|
  {
    if es == [] then [x] else [x] + Worlds(x.Step(es[0], ps), ps, es[1..])
  }

  function WorldAfter(x: World, ps: seq<Publish>, es: seq<Event>): World
    decreases |es|
  {
    if es == [] then x else WorldAfter(x.Step(es[0], ps), ps, es[1..])
  }

  lemma {:induction false} WorldsStep(x: World, ps: seq<Publish>, es: seq<Event>)
    ensures var ws := Worlds(x, ps, es);
      && |ws| == |es| + 1 && ws[0] == x && ws[|es|] == WorldAfter(x, ps, es)
      && forall i | 0 <= i < |es| :: Race(ps, es, ws).Steps(i)
    decreases |es|
  {
    if es != [] {
      var y := x.Step(es[0], ps);
      WorldsStep(y, ps, es[1..]);
      var ws := Worlds(x, ps, es);
      forall i | 0 <= i < |es| ensures Race(ps, es, ws).Steps(i) {
        if i > 0 { assert Race(ps, es[1..], Worlds(y, ps, es[1..])).Steps(i - 1); }
      }
    }
  }

  /** Every schedule has a run from every pane, and its last world is what the steps come to. */
  lemma RunExists(start: Server, ps: seq<Publish>, es: seq<Event>)
    requires HookStamps(ps)
    ensures var x := World(start, map[]);
      var r := Race(ps, es, Worlds(x, ps, es));
      r.Valid() && r.worlds[0] == x && r.worlds[|es|] == WorldAfter(x, ps, es)
  {
    WorldsStep(World(start, map[]), ps, es);
  }

  // ----- what a step does ---------------------------------------------------------------------------

  /** One step either leaves the server alone or takes a receipt. */
  lemma StepWrites(r: Race, i: nat)
    requires r.Valid() && i < |r.es|
    ensures var x, y := r.worlds[i].server, r.worlds[i + 1].server;
      x.receipt <= y.receipt && (!r.Wrote(i) ==> x == y)
  {
    assert r.Steps(i);
    var x, e := r.worlds[i], r.es[i];
    if e.Commit? && e.w < |r.ps| && e.w in x.seen { SubmitExact(x.server, x.seen[e.w], r.ps[e.w]); }
  }

  /** Between two steps the receipt stands still exactly when nothing was written, and then nothing
      changed. */
  lemma {:induction false} Stands(r: Race, j: nat, i: nat)
    requires r.Valid() && j <= i <= |r.es|
    ensures r.worlds[j].server.receipt <= r.worlds[i].server.receipt
    ensures r.worlds[j].server.receipt == r.worlds[i].server.receipt <==> r.Quiet(j, i)
    ensures r.Quiet(j, i) ==> r.worlds[j].server == r.worlds[i].server
    decreases i
  {
    if j < i {
      Stands(r, j, i - 1);
      StepWrites(r, i - 1);
      assert r.Quiet(j, i) <==> r.Quiet(j, i - 1) && !r.Wrote(i - 1);
    }
  }

  /** `j` is the writer's last look before the `i`-th step. */
  predicate LastLook(r: Race, i: nat, w: nat, j: int) {
    && 0 <= j < i <= |r.es| && r.es[j] == Look(w)
    && forall k | j < k < i :: r.es[k] != Look(w)
  }

  /** What a writer decided on is the server at its last look. */
  lemma {:induction false} Remembered(r: Race, i: nat, w: nat) returns (j: int)
    requires r.Valid() && i <= |r.es|
    ensures w in r.worlds[i].seen ==> LastLook(r, i, w, j) && r.worlds[i].seen[w] == r.worlds[j].server
    ensures w !in r.worlds[i].seen ==> forall k | 0 <= k < i :: r.es[k] != Look(w)
    decreases i
  {
    j := 0;
    if i > 0 {
      j := Remembered(r, i - 1, w);
      assert r.Steps(i - 1);
      if r.es[i - 1] == Look(w) { j := i - 1; }
    }
  }

  /** A commit finds the receipt it saw exactly when it is uncontested. */
  lemma UncontestedExactly(r: Race, i: nat, w: nat)
    requires r.Valid() && i <= |r.es|
    ensures r.Uncontested(i, w)
       <==> w in r.worlds[i].seen && r.worlds[i].seen[w].receipt == r.worlds[i].server.receipt
    ensures r.Uncontested(i, w) ==> r.worlds[i].seen[w] == r.worlds[i].server
  {
    var j := Remembered(r, i, w);
    if w in r.worlds[i].seen {
      Stands(r, j, i);
      if r.Uncontested(i, w) {
        var k :| 0 <= k < i && k < |r.es| && r.es[k] == Look(w) && r.Quiet(k, i);
        assert k <= j;
        assert r.Quiet(j, i);
      }
    }
  }

  /** A hook event lands if and only if nothing was written since its writer looked and the pane's hook
      claim is not newer; then it is the pane's claim. Otherwise it is dropped without a trace. */
  lemma LandsExactly(r: Race, i: nat, w: nat)
    requires r.Valid() && i < |r.es| && w < |r.ps| && r.es[i] == Commit(w)
    ensures r.Landed(i, w) <==> r.Uncontested(i, w) && r.ClaimAt(i).time <= r.ps[w].evidenceAt
    ensures r.Landed(i, w) ==> r.ClaimAt(i + 1) == Register(r.ps[w].evidenceAt, GroupedBy(r.ps[w]))
    ensures !r.Landed(i, w) ==> r.worlds[i + 1].server == r.worlds[i].server
  {
    assert r.Steps(i);
    UncontestedExactly(r, i, w);
    if w in r.worlds[i].seen {
      HookSubmit(r.worlds[i].server, r.worlds[i].seen[w], r.ps[w]);
    }
  }

  /** One step changes the claim only by landing an event that is not older. */
  lemma ClaimStep(r: Race, i: nat)
    requires r.Valid() && i < |r.es|
    ensures r.ClaimAt(i + 1) == r.ClaimAt(i)
         || (&& r.es[i].Commit? && r.es[i].w < |r.ps| && r.Landed(i, r.es[i].w)
             && var p := r.ps[r.es[i].w];
             r.ClaimAt(i).time <= p.evidenceAt && r.ClaimAt(i + 1) == Register(p.evidenceAt, GroupedBy(p)))
  {
    assert r.Steps(i);
    match r.es[i]
    case Commit(w) => if w < |r.ps| { LandsExactly(r, i, w); }
    case Aside(key, text) =>
      var s := r.worlds[i].server.options;
      assert ClaimIn(TupleOf(s[key := text])) == ClaimIn(TupleOf(s));
      ClaimSettlesRegister(s, s[key := text]);
    case Look(_) =>
  }

  /** The hook claim over the run. */
  function Claims(r: Race): seq<Register<Claim>> {
    seq(|r.worlds|, i requires 0 <= i < |r.worlds| => GroupRegister(r.worlds[i].server.options))
  }
}
