/** The context and quota gauges: two small chains, each under its own evidence-time guard. */
module Gauges {
  import opened Basics
  import opened Decimal
  import opened PaneStore
  import opened Stamp
  import opened Publish
  import opened Atomicity
  import opened Arrivals

  datatype ContextPush = ContextPush(pct: Option<u64>, tokens: Option<u64>, evidenceAt: u64)

  datatype QuotaPush = QuotaPush(
    pct: Option<u64>, window: Option<string>, resetsAt: Option<u64>, cost: Option<string>, evidenceAt: u64)

  function ShowOption(n: Option<u64>): string {
    if n.Some? then Show(n.value) else ""
  }

  function TextOption(s: Option<string>): string {
    if s.Some? then s.value else ""
  }

  /** A gauge shows the number or the text it was given, and nothing where it was given none. */
  lemma GaugeTexts(n: Option<u64>, s: Option<string>)
    ensures n.Some? ==> ParseU64(ShowOption(n)) == n
    ensures n.None? <==> ShowOption(n) == ""
    ensures s.Some? ==> TextOption(s) == s.value
    ensures s.None? ==> TextOption(s) == ""
  {
    if n.Some? {
      ParseU64Show(n.value);
      ShownOperand(n.value);
    }
  }

  /** Truthy when the stored marker is strictly newer than this observation. */
  function NewerStored(marker: Key, at: u64): Format {
    Compare(Above, Stored(marker), Literal(Show(at)))
  }

  function Fenced(marker: Key, at: u64, key: Key, text: string): Command {
    SetFormat(key, Choose(NewerStored(marker, at), Stored(key), Literal(text)))
  }

  datatype Field = Field(key: Key, text: string)

  /** The first `n` fenced writes, in order. */
  function Fence(marker: Key, at: u64, fields: seq<Field>, n: nat): seq<Command>
    requires n <= |fields|
  {
    if n == 0 then []
    else Fence(marker, at, fields, n - 1) + [Fenced(marker, at, fields[n - 1].key, fields[n - 1].text)]
  }

  function FenceAll(marker: Key, at: u64, fields: seq<Field>): seq<Command> {
    Fence(marker, at, fields, |fields|)
  }

  function ContextFields(c: ContextPush): seq<Field> {
    [Field(ContextPct, ShowOption(c.pct)), Field(Tokens, ShowOption(c.tokens)),
     Field(TokensAt, if c.tokens.Some? then Show(c.evidenceAt) else ""), Field(ContextAt, Show(c.evidenceAt))]
  }

  function ContextCommands(c: ContextPush): seq<Command> {
    FenceAll(ContextAt, c.evidenceAt, ContextFields(c))
  }

  function QuotaFields(q: QuotaPush): seq<Field> {
    [Field(QuotaPct, ShowOption(q.pct)), Field(QuotaWindow, TextOption(q.window)),
     Field(QuotaResetsAt, ShowOption(q.resetsAt)), Field(CostUsd, TextOption(q.cost)),
     Field(QuotaAt, Show(q.evidenceAt))]
  }

  function QuotaCommands(q: QuotaPush): seq<Command> {
    FenceAll(QuotaAt, q.evidenceAt, QuotaFields(q))
  }

  // ----- one push -----------------------------------------------------------------------------

  datatype Gauge = Gauge(pct: string, tokens: string, tokensAt: string, contextAt: string)

  function GaugeOf(s: Options): Gauge {
    Gauge(Get(s, ContextPct), Get(s, Tokens), Get(s, TokensAt), Get(s, ContextAt))
  }

  function GaugeBy(c: ContextPush): Gauge {
    Gauge(ShowOption(c.pct), ShowOption(c.tokens), if c.tokens.Some? then Show(c.evidenceAt) else "",
          Show(c.evidenceAt))
  }

  predicate Newer(marker: string, at: u64) {
    Operand(marker).Some? && Operand(marker).value > at
  }

  /** The last text the first `n` fields write to `k`, if any names it. */
  function Written(fields: seq<Field>, n: nat, k: Key, stored: string): string
    requires n <= |fields|
  {
    if n == 0 then stored
    else if fields[n - 1].key == k then fields[n - 1].text
    else Written(fields, n - 1, k, stored)
  }

  lemma FencedPush(s: Options, cmds: seq<Command>, marker: Key, at: u64, key: Key, text: string, k: Key)
    ensures Get(Run(s, cmds + [Fenced(marker, at, key, text)]), k)
         == if k == key && !Newer(Get(Run(s, cmds), marker), at) then text else Get(Run(s, cmds), k)
  {
    RunPush(s, cmds, Fenced(marker, at, key, text));
    FencedStep(Run(s, cmds), marker, at, key, text);
  }

  lemma FencedStep(t: Options, marker: Key, at: u64, key: Key, text: string)
    ensures Step(t, Fenced(marker, at, key, text)) == t[key := if Newer(Get(t, marker), at) then Get(t, key) else text]
  {
    ShownOperand(at);
    CompareMeaning(Above, Stored(marker), Literal(Show(at)), t);
    ChooseMeaning(NewerStored(marker, at), Stored(key), Literal(text), t);
  }

  lemma {:induction false} MarkerWritten(fields: seq<Field>, n: nat, marker: Key, at: u64, stored: string)
    requires n <= |fields|
    requires forall i | 0 <= i < n :: fields[i].key == marker ==> fields[i].text == Show(at)
    ensures Written(fields, n, marker, stored) == stored || Written(fields, n, marker, stored) == Show(at)
  {
    if n > 0 { MarkerWritten(fields, n - 1, marker, at, stored); }
  }

  lemma GuardStays(fields: seq<Field>, n: nat, marker: Key, at: u64, stored: string, now: string)
    requires n <= |fields|
    requires forall i | 0 <= i < n :: fields[i].key == marker ==> fields[i].text == Show(at)
    requires now == if Newer(stored, at) then stored else Written(fields, n, marker, stored)
    ensures Newer(now, at) == Newer(stored, at)
  {
    MarkerWritten(fields, n, marker, at, stored);
    ShownOperand(at);
  }

  /** A fenced chain is atomic on every store, as long as it writes its own evidence time to its
      marker: the guard it re-reads never closes behind it. */
  lemma {:induction false} FenceAtomic(s: Options, marker: Key, at: u64, fields: seq<Field>, n: nat, k: Key)
    requires n <= |fields|
    requires forall i | 0 <= i < n :: fields[i].key == marker ==> fields[i].text == Show(at)
    ensures Get(Run(s, Fence(marker, at, fields, n)), k)
         == if Newer(Get(s, marker), at) then Get(s, k) else Written(fields, n, k, Get(s, k))
    decreases n
  {
    if n > 0 {
      var c, before := fields[n - 1], Fence(marker, at, fields, n - 1);
      FenceAtomic(s, marker, at, fields, n - 1, k);
      FenceAtomic(s, marker, at, fields, n - 1, marker);
      GuardStays(fields, n - 1, marker, at, Get(s, marker), Get(Run(s, before), marker));
      FencedPush(s, before, marker, at, c.key, c.text, k);
    }
  }

  lemma {:induction false} WrittenAt(fields: seq<Field>, n: nat, j: nat, stored: string)
    requires j < n <= |fields| && forall i | j < i < n :: fields[i].key != fields[j].key
    ensures Written(fields, n, fields[j].key, stored) == fields[j].text
  {
    if j < n - 1 { WrittenAt(fields, n - 1, j, stored); }
  }

  predicate Distinct(fields: seq<Field>) {
    forall i, j | 0 <= i < j < |fields| :: fields[i].key != fields[j].key
  }

  /** One option of a fenced chain over distinct keys. */
  lemma FenceOption(s: Options, marker: Key, at: u64, fields: seq<Field>, j: nat)
    requires j < |fields| && Distinct(fields)
    requires forall i | 0 <= i < |fields| :: fields[i].key == marker ==> fields[i].text == Show(at)
    ensures Get(Run(s, FenceAll(marker, at, fields)), fields[j].key)
         == if Newer(Get(s, marker), at) then Get(s, fields[j].key) else fields[j].text
  {
    FenceAtomic(s, marker, at, fields, |fields|, fields[j].key);
    WrittenAt(fields, |fields|, j, Get(s, fields[j].key));
  }

  /** A context push moves all four of its options, or none. */
  lemma ContextAtomic(s: Options, c: ContextPush)
    ensures GaugeOf(Run(s, ContextCommands(c)))
        == if Newer(Get(s, ContextAt), c.evidenceAt) then GaugeOf(s) else GaugeBy(c)
  {
    var f := ContextFields(c);
    FenceOption(s, ContextAt, c.evidenceAt, f, 0);
    FenceOption(s, ContextAt, c.evidenceAt, f, 1);
    FenceOption(s, ContextAt, c.evidenceAt, f, 2);
    FenceOption(s, ContextAt, c.evidenceAt, f, 3);
  }

  datatype Quota = Quota(pct: string, window: string, resetsAt: string, cost: string, quotaAt: string)

  function QuotaOf(s: Options): Quota {
    Quota(Get(s, QuotaPct), Get(s, QuotaWindow), Get(s, QuotaResetsAt), Get(s, CostUsd), Get(s, QuotaAt))
  }

  function QuotaBy(q: QuotaPush): Quota {
    Quota(ShowOption(q.pct), TextOption(q.window), ShowOption(q.resetsAt), TextOption(q.cost), Show(q.evidenceAt))
  }

  /** So is a quota push: a missing field clears its option together with the rest. */
  lemma QuotaAtomic(s: Options, q: QuotaPush)
    ensures QuotaOf(Run(s, QuotaCommands(q))) == if Newer(Get(s, QuotaAt), q.evidenceAt) then QuotaOf(s) else QuotaBy(q)
  {
    var f := QuotaFields(q);
    FenceOption(s, QuotaAt, q.evidenceAt, f, 0);
    FenceOption(s, QuotaAt, q.evidenceAt, f, 1);
    FenceOption(s, QuotaAt, q.evidenceAt, f, 2);
    FenceOption(s, QuotaAt, q.evidenceAt, f, 3);
    FenceOption(s, QuotaAt, q.evidenceAt, f, 4);
  }

  // ----- runs of pushes -------------------------------------------------------------------------

  function ContextTime(c: ContextPush): u64 {
    c.evidenceAt
  }

  function QuotaTime(q: QuotaPush): u64 {
    q.evidenceAt
  }

  function PushAll(s: Options, cs: seq<ContextPush>): Options
    decreases |cs|
  {
    if cs == [] then s else PushAll(Run(s, ContextCommands(cs[0])), cs[1..])
  }

  function PushAllQuotas(s: Options, qs: seq<QuotaPush>): Options
    decreases |qs|
  {
    if qs == [] then s else PushAllQuotas(Run(s, QuotaCommands(qs[0])), qs[1..])
  }

  function ContextRegister(s: Options): Register<Gauge>
  {
    Register(Instant(Get(s, ContextAt)), GaugeOf(s))
  }

  function QuotaRegister(s: Options): Register<Quota>
  {
    Register(Instant(Get(s, QuotaAt)), QuotaOf(s))
  }

  /** A run of context pushes is a register that keeps the newest gauge. */
  lemma {:induction false} ContextRefines(s: Options, cs: seq<ContextPush>)
    ensures ContextRegister(PushAll(s, cs)) == OfferAll(ContextRegister(s), cs, ContextTime, GaugeBy)
    decreases |cs|
  {
    if cs != [] {
      ContextAtomic(s, cs[0]);
      ShownOperand(cs[0].evidenceAt);
      var next := Run(s, ContextCommands(cs[0]));
      assert Get(next, ContextAt) == GaugeOf(next).contextAt;
      assert ContextRegister(next) == ContextRegister(s).Offer(ContextTime(cs[0]), GaugeBy(cs[0]));
      ContextRefines(next, cs[1..]);
    }
  }

  /** So is a run of quota pushes. */
  lemma {:induction false} QuotaRefines(s: Options, qs: seq<QuotaPush>)
    ensures QuotaRegister(PushAllQuotas(s, qs)) == OfferAll(QuotaRegister(s), qs, QuotaTime, QuotaBy)
    decreases |qs|
  {
    if qs != [] {
      QuotaAtomic(s, qs[0]);
      ShownOperand(qs[0].evidenceAt);
      var next := Run(s, QuotaCommands(qs[0]));
      assert Get(next, QuotaAt) == QuotaOf(next).quotaAt;
      assert QuotaRegister(next) == QuotaRegister(s).Offer(QuotaTime(qs[0]), QuotaBy(qs[0]));
      QuotaRefines(next, qs[1..]);
    }
  }

  /** Whatever the arrival order, the last of the newest observations is the one left standing; a run
      of strictly older pushes changes nothing at all, a null-clear included. */
  lemma NewestPushWins(s: Options, cs: seq<ContextPush>)
    ensures AllOlder(cs, ContextTime, Instant(Get(s, ContextAt))) ==> GaugeOf(PushAll(s, cs)) == GaugeOf(s)
    ensures forall i | LastNewest(cs, i, ContextTime) && Instant(Get(s, ContextAt)) <= cs[i].evidenceAt ::
              GaugeOf(PushAll(s, cs)) == GaugeBy(cs[i])
  {
    ContextRefines(s, cs);
    if AllOlder(cs, ContextTime, Instant(Get(s, ContextAt))) {
      OlderChangeNothing(ContextRegister(s), cs, ContextTime, GaugeBy);
    }
    forall i | LastNewest(cs, i, ContextTime) && Instant(Get(s, ContextAt)) <= cs[i].evidenceAt
      ensures GaugeOf(PushAll(s, cs)) == GaugeBy(cs[i])
    {
      NewestWins(ContextRegister(s), cs, ContextTime, GaugeBy, i);
    }
  }

  /** The newest quota stands likewise, a cleared field included. */
  lemma NewestQuotaWins(s: Options, qs: seq<QuotaPush>)
    ensures AllOlder(qs, QuotaTime, Instant(Get(s, QuotaAt))) ==> QuotaOf(PushAllQuotas(s, qs)) == QuotaOf(s)
    ensures forall i | LastNewest(qs, i, QuotaTime) && Instant(Get(s, QuotaAt)) <= qs[i].evidenceAt ::
              QuotaOf(PushAllQuotas(s, qs)) == QuotaBy(qs[i])
  {
    QuotaRefines(s, qs);
    if AllOlder(qs, QuotaTime, Instant(Get(s, QuotaAt))) {
      OlderChangeNothing(QuotaRegister(s), qs, QuotaTime, QuotaBy);
    }
    forall i | LastNewest(qs, i, QuotaTime) && Instant(Get(s, QuotaAt)) <= qs[i].evidenceAt
      ensures QuotaOf(PushAllQuotas(s, qs)) == QuotaBy(qs[i])
    {
      NewestWins(QuotaRegister(s), qs, QuotaTime, QuotaBy, i);
    }
  }

  /** All arrival orders of the same observations leave the same gauge if and only if the stored gauge
      is newer than each or the newest observations agree. */
  lemma PushesConverge(s: Options, cs: seq<ContextPush>)
    ensures (forall ds: seq<ContextPush> | multiset(ds) == multiset(cs) ::
               GaugeOf(PushAll(s, ds)) == GaugeOf(PushAll(s, cs)))
        <==> AllOlder(cs, ContextTime, Instant(Get(s, ContextAt))) || NewestAgree(cs, ContextTime, GaugeBy)
  {
    var r := ContextRegister(s);
    if AllOlder(cs, ContextTime, r.time) || NewestAgree(cs, ContextTime, GaugeBy) {
      forall ds: seq<ContextPush> | multiset(ds) == multiset(cs)
        ensures GaugeOf(PushAll(s, ds)) == GaugeOf(PushAll(s, cs))
      {
        OrdersConverge(r, cs, ds, ContextTime, GaugeBy);
        PushesAlike(s, cs, ds);
      }
    } else {
      var ds := SomeOrderDiffers(r, cs, ContextTime, GaugeBy);
      PushesAlike(s, cs, ds);
    }
  }

  lemma PushesAlike(s: Options, cs: seq<ContextPush>, ds: seq<ContextPush>)
    ensures GaugeOf(PushAll(s, ds)) == GaugeOf(PushAll(s, cs))
       <==> OfferAll(ContextRegister(s), cs, ContextTime, GaugeBy)
            == OfferAll(ContextRegister(s), ds, ContextTime, GaugeBy)
  {
    ContextRefines(s, cs);
    ContextRefines(s, ds);
    var a, b := PushAll(s, cs), PushAll(s, ds);
    assert Get(a, ContextAt) == GaugeOf(a).contextAt && Get(b, ContextAt) == GaugeOf(b).contextAt;
  }

  /** And the same of quota. */
  lemma QuotasConverge(s: Options, qs: seq<QuotaPush>)
    ensures (forall rs: seq<QuotaPush> | multiset(rs) == multiset(qs) ::
               QuotaOf(PushAllQuotas(s, rs)) == QuotaOf(PushAllQuotas(s, qs)))
        <==> AllOlder(qs, QuotaTime, Instant(Get(s, QuotaAt))) || NewestAgree(qs, QuotaTime, QuotaBy)
  {
    var r := QuotaRegister(s);
    if AllOlder(qs, QuotaTime, r.time) || NewestAgree(qs, QuotaTime, QuotaBy) {
      forall rs: seq<QuotaPush> | multiset(rs) == multiset(qs)
        ensures QuotaOf(PushAllQuotas(s, rs)) == QuotaOf(PushAllQuotas(s, qs))
      {
        OrdersConverge(r, qs, rs, QuotaTime, QuotaBy);
        QuotasAlike(s, qs, rs);
      }
    } else {
      var rs := SomeOrderDiffers(r, qs, QuotaTime, QuotaBy);
      QuotasAlike(s, qs, rs);
    }
  }

  lemma QuotasAlike(s: Options, qs: seq<QuotaPush>, rs: seq<QuotaPush>)
    ensures QuotaOf(PushAllQuotas(s, rs)) == QuotaOf(PushAllQuotas(s, qs))
       <==> OfferAll(QuotaRegister(s), qs, QuotaTime, QuotaBy) == OfferAll(QuotaRegister(s), rs, QuotaTime, QuotaBy)
  {
    QuotaRefines(s, qs);
    QuotaRefines(s, rs);
    var a, b := PushAllQuotas(s, qs), PushAllQuotas(s, rs);
    assert Get(a, QuotaAt) == QuotaOf(a).quotaAt && Get(b, QuotaAt) == QuotaOf(b).quotaAt;
  }

  /** A token count on display carries the gauge's own evidence time. */
  predicate TokensAligned(s: Options) {
    Get(s, Tokens) != "" ==> Get(s, TokensAt) == Get(s, ContextAt)
  }

  lemma {:induction false} TokensStayAligned(s: Options, cs: seq<ContextPush>)
    requires TokensAligned(s)
    ensures TokensAligned(PushAll(s, cs))
    decreases |cs|
  {
    if cs != [] {
      ContextAtomic(s, cs[0]);
      assert GaugeOf(Run(s, ContextCommands(cs[0]))).tokens == Get(Run(s, ContextCommands(cs[0])), Tokens);
      TokensStayAligned(Run(s, ContextCommands(cs[0])), cs[1..]);
    }
  }

  // ----- independence of the lanes -----------------------------------------------------------

  lemma {:induction false} FootprintAppend(xs: seq<Command>, ys: seq<Command>)
    ensures Footprint(xs + ys) == Footprint(xs) + Footprint(ys)
    decreases |xs|
  {
    if xs == [] {
      assert xs + ys == ys;
    } else {
      assert (xs + ys)[1..] == xs[1..] + ys;
      FootprintAppend(xs[1..], ys);
    }
  }

  lemma FencedTouches(marker: Key, at: u64, key: Key, text: string)
    ensures Touched(Fenced(marker, at, key, text)) == {marker, key}
  {
    var newer := NewerStored(marker, at);
    assert Reads(newer) == {marker};
    assert Reads(Choose(newer, Stored(key), Literal(text))) == {marker, key};
  }

  /** A fenced chain touches its marker and the options it names, nothing else. */
  lemma {:induction false} FenceFootprint(marker: Key, at: u64, fields: seq<Field>, n: nat, keys: set<Key>)
    requires n <= |fields| && marker in keys && forall i | 0 <= i < n :: fields[i].key in keys
    ensures Footprint(Fence(marker, at, fields, n)) <= keys
  {
    if n > 0 {
      var c := Fenced(marker, at, fields[n - 1].key, fields[n - 1].text);
      FenceFootprint(marker, at, fields, n - 1, keys);
      FencedTouches(marker, at, fields[n - 1].key, fields[n - 1].text);
      FootprintAppend(Fence(marker, at, fields, n - 1), [c]);
      assert [c][1..] == [];
    }
  }

  lemma ContextFootprint(c: ContextPush)
    ensures Footprint(ContextCommands(c)) <= {ContextPct, Tokens, TokensAt, ContextAt}
  {
    var f := ContextFields(c);
    FenceFootprint(ContextAt, c.evidenceAt, f, |f|, {ContextPct, Tokens, TokensAt, ContextAt});
  }

  lemma QuotaFootprint(q: QuotaPush)
    ensures Footprint(QuotaCommands(q)) <= {QuotaPct, QuotaWindow, QuotaResetsAt, CostUsd, QuotaAt}
  {
    var f := QuotaFields(q);
    FenceFootprint(QuotaAt, q.evidenceAt, f, |f|, {QuotaPct, QuotaWindow, QuotaResetsAt, CostUsd, QuotaAt});
  }

  /** A context push and a quota push never gate each other: however tmux interleaves their
      commands, the store ends as if either chain had run after the other. */
  lemma LanesCommute(s: Options, c: ContextPush, q: QuotaPush, zs: seq<Command>)
    requires Interleaves(zs, ContextCommands(c), QuotaCommands(q))
    ensures Run(s, zs) == Run(Run(s, ContextCommands(c)), QuotaCommands(q))
    ensures Run(s, zs) == Run(Run(s, QuotaCommands(q)), ContextCommands(c))
  {
    LanesApart(c, q);
    DisjointCommute(s, zs, ContextCommands(c), QuotaCommands(q));
  }

  lemma LanesApart(c: ContextPush, q: QuotaPush)
    ensures Footprint(ContextCommands(c)) !! Footprint(QuotaCommands(q))
  {
    ContextFootprint(c);
    QuotaFootprint(q);
  }

  lemma DisjointCommute(s: Options, zs: seq<Command>, xs: seq<Command>, ys: seq<Command>)
    requires Interleaves(zs, xs, ys) && Footprint(xs) !! Footprint(ys)
    ensures Run(s, zs) == Run(Run(s, xs), ys) && Run(s, zs) == Run(Run(s, ys), xs)
  {
    InterleavingIrrelevant(s, zs, xs, ys);
    InterleavesSwap(zs, xs, ys);
    InterleavingIrrelevant(s, zs, ys, xs);
  }

  lemma {:induction false} InterleavesSwap(zs: seq<Command>, xs: seq<Command>, ys: seq<Command>)
    requires Interleaves(zs, xs, ys)
    ensures Interleaves(zs, ys, xs)
    decreases |zs|
  {
    if zs != [] {
      if xs != [] && zs[0] == xs[0] && Interleaves(zs[1..], xs[1..], ys) {
        InterleavesSwap(zs[1..], xs[1..], ys);
      } else {
        InterleavesSwap(zs[1..], xs, ys[1..]);
      }
    }
  }
}
