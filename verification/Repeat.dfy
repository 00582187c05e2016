/** The consecutive-fire counter kept in one pane option as `<episode>:<action>:<count>`. */
module Repeat {
  import opened Basics
  import opened Decimal
  import opened Text

  datatype Fire = Fire(episode: u64, action: string)

  /** `str::parse::<u32>` */
  function ParseU32(s: string): Option<u32> {
    match ParseU64(s)
    case None => None
    case Some(n) => if n > U32_MAX then None else Some(n)
  }

  function ParseRepeat(stored: string, fire: Fire): Option<u32> {
    match SplitOnce(stored, ':')
    case None => None
    case Some((episode, rest)) =>
      match SplitOnce(rest, ':')
      case None => None
      case Some((name, count)) =>
        if ParseU64(episode) != Some(fire.episode) || name != fire.action then None else ParseU32(count)
  }

  function Encode(fire: Fire, count: u32): string {
    Show(fire.episode) + ":" + fire.action + ":" + Show(count)
  }

  /** The count a fire continues from. */
  function Prior(stored: Option<string>, fire: Fire): u32 {
    if stored.None? then 0 else ParseRepeat(stored.value, fire).GetOr(0)
  }

  function NextCount(stored: Option<string>, fire: Fire): u32 {
    var prior := Prior(stored, fire);
    if prior == U32_MAX then U32_MAX else prior + 1
  }

  function NextRepeat(stored: Option<string>, fire: Fire): (string, u32) {
    (Encode(fire, NextCount(stored, fire)), NextCount(stored, fire))
  }

  /** A stored run reads back for its own episode and action, and for no other. */
  lemma StoredReads(fire: Fire, count: u32, next: Fire)
    requires ':' !in fire.action
    ensures ParseRepeat(Encode(fire, count), next) == if next == fire then Some(count) else None
  {
    var episode, tail := Show(fire.episode), Show(count);
    ShowValue(fire.episode);
    ParseU64Show(fire.episode);
    ParseU64Show(count);
    var rest := fire.action + ":" + tail;
    assert Encode(fire, count) == episode + [':'] + rest;
    assert rest == fire.action + [':'] + tail;
    SplitOnceExact(Encode(fire, count), ':', episode, rest);
    SplitOnceExact(rest, ':', fire.action, tail);
  }

  /** One fire after a stored run: the same fire lengthens it, any other starts at one. */
  lemma NextStored(fire: Fire, n: nat, next: Fire)
    requires ':' !in fire.action
    ensures NextCount(Some(Encode(fire, Saturated(n))), next) == Saturated(if next == fire then n + 1 else 1)
  {
    StoredReads(fire, Saturated(n), next);
  }

  /** The first fire of a run counts one: nothing is stored, or nothing that is a run of this fire. */
  lemma NewRunCountsOne(stored: Option<string>, fire: Fire)
    requires stored.Some? ==> ParseRepeat(stored.value, fire).None?
    ensures NextRepeat(stored, fire) == (Encode(fire, 1), 1)
  {
  }

  /** What the option holds after a sequence of fires on one pane. */
  function Stored(initial: Option<string>, fires: seq<Fire>): Option<string> {
    if fires == [] then initial
    else Some(NextRepeat(Stored(initial, fires[..|fires| - 1]), fires[|fires| - 1]).0)
  }

  /** `n` is the length of the longest run of equal fires at the end. */
  predicate EndsInRun(fires: seq<Fire>, n: nat) {
    && 1 <= n <= |fires|
    && (forall i | |fires| - n <= i < |fires| :: fires[i] == fires[|fires| - 1])
    && (n < |fires| ==> fires[|fires| - n - 1] != fires[|fires| - 1])
  }

  function LastRun(fires: seq<Fire>): nat
    requires fires != []
  {
    if |fires| >= 2 && fires[|fires| - 2] == fires[|fires| - 1] then LastRun(fires[..|fires| - 1]) + 1 else 1
  }

  /** Every nonempty sequence ends in exactly one such run. */
  lemma {:induction false} RunExists(fires: seq<Fire>)
    requires fires != []
    ensures EndsInRun(fires, LastRun(fires))
    decreases |fires|
  {
    if |fires| >= 2 && fires[|fires| - 2] == fires[|fires| - 1] {
      RunExists(fires[..|fires| - 1]);
    }
  }

  lemma StoredStep(initial: Option<string>, fires: seq<Fire>)
    requires fires != []
    ensures Stored(initial, fires) == Some(Encode(
        fires[|fires| - 1],
        NextCount(Stored(initial, fires[..|fires| - 1]), fires[|fires| - 1])))
  {
  }

  /** What a run that reaches back to the first fire continues from: the stored count, if any. */
  function Continued(initial: Option<string>, fires: seq<Fire>, n: nat): nat
    requires fires != []
  {
    if n == |fires| then Prior(initial, fires[0]) else 0
  }

  lemma LastRunStep(before: seq<Fire>, last: Fire)
    requires before != []
    ensures LastRun(before + [last]) == if last == before[|before| - 1] then LastRun(before) + 1 else 1
  {
    assert (before + [last])[..|before|] == before;
  }

  /** The count after a sequence of fires, by the run it ends in. */
  function RunCount(initial: Option<string>, fires: seq<Fire>): nat
    requires fires != []
  {
    LastRun(fires) + Continued(initial, fires, LastRun(fires))
  }

  lemma RunCountStep(initial: Option<string>, before: seq<Fire>, last: Fire)
    requires before != []
    ensures RunCount(initial, before + [last])
         == if last == before[|before| - 1] then RunCount(initial, before) + 1 else 1
  {
    LastRunStep(before, last);
    assert (before + [last])[0] == before[0];
  }

  lemma LaterFire(initial: Option<string>, before: seq<Fire>, last: Fire, count: u32)
    requires before != [] && ':' !in before[|before| - 1].action
    requires count == NextCount(Stored(initial, before[..|before| - 1]), before[|before| - 1])
    requires count == Saturated(RunCount(initial, before))
    ensures NextCount(Stored(initial, before), last) == Saturated(RunCount(initial, before + [last]))
  {
    StoredStep(initial, before);
    NextStored(before[|before| - 1], RunCount(initial, before), last);
    RunCountStep(initial, before, last);
  }

  lemma {:induction false} CountsLastRun(initial: Option<string>, before: seq<Fire>, last: Fire)
    requires forall i | 0 <= i < |before| :: ':' !in before[i].action
    ensures NextCount(Stored(initial, before), last) == Saturated(RunCount(initial, before + [last]))
    decreases |before|
  {
    if before == [] {
      assert before + [last] == [last];
    } else {
      var earlier, previous := before[..|before| - 1], before[|before| - 1];
      assert before == earlier + [previous];
      CountsLastRun(initial, earlier, previous);
      LaterFire(initial, before, last, NextCount(Stored(initial, earlier), previous));
    }
  }

  lemma RunUnique(fires: seq<Fire>, n: nat, m: nat)
    requires EndsInRun(fires, n) && EndsInRun(fires, m)
    ensures n == m
  {
  }

  /** The counter is consecutive: after any sequence of fires it holds the length of the run of equal
      fires at the end, saturating at 32 bits. A run that reaches back to the first fire goes on from the
      count stored before; another action, or another episode, starts it over. */
  lemma CountsTheRun(initial: Option<string>, fires: seq<Fire>, n: nat)
    requires forall i | 0 <= i < |fires| :: ':' !in fires[i].action
    requires EndsInRun(fires, n)
    ensures Stored(initial, fires) == Some(Encode(
        fires[|fires| - 1],
        Saturated(n + Continued(initial, fires, n))))
  {
    var before, last := fires[..|fires| - 1], fires[|fires| - 1];
    assert fires == before + [last];
    CountsLastRun(initial, before, last);
    StoredStep(initial, fires);
    RunExists(fires);
    RunUnique(fires, n, LastRun(fires));
  }
}
