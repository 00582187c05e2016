/** What the daemon's per-pane memory has to agree with: a log of everything that happened, the
    history of each pane in it, and the steps that keep memory and log in agreement. */
module Memory {
  import opened Basics

  const MAX_TRACKED := 4096
  const RECHECK_LIMIT: u32 := 3

  // ----- the log --------------------------------------------------------------------------------

  datatype Note = HookNote(claimed: Option<AgentState>) | EdgeNote(hookFresh: bool, storedWorking: bool)

  datatype Event =
    | Noted(pane: string, note: Note)
    | Evicted(pane: string)          // hook memory only
    | Forgotten(pane: string)        // both memories
    | Pruned(live: set<string>)      // both memories of every pane not live
    | Look(pane: string)             // a follow-up look was scheduled
    | Uncapped(pane: string)         // the foreground-cap episode ended
    | Taken                          // the owed looks were drained

  predicate DropsHook(e: Event, pane: string) {
    e == Evicted(pane) || e == Forgotten(pane) || (e.Pruned? && pane !in e.live)
  }

  predicate EndsEpisode(e: Event, pane: string) {
    e == Uncapped(pane) || e == Forgotten(pane) || (e.Pruned? && pane !in e.live)
  }

  /** The notes of a pane since it was last (re)inserted. */
  function History(log: seq<Event>, pane: string): seq<Note> {
    if log == [] then []
    else
      var e, before := log[|log| - 1], log[..|log| - 1];
      if DropsHook(e, pane) then []
      else if e.Noted? && e.pane == pane then History(before, pane) + [e.note]
      else History(before, pane)
  }

  /** One past the position of the last note of a pane. */
  function Recency(log: seq<Event>, pane: string): nat {
    if log == [] then 0
    else
      var e := log[|log| - 1];
      if e.Noted? && e.pane == pane then |log| else Recency(log[..|log| - 1], pane)
  }

  // ----- what a history means -------------------------------------------------------------------

  /** The state the last claiming hook event named. */
  function Claim(h: seq<Note>): Option<AgentState> {
    if h == [] then None
    else
      var n := h[|h| - 1];
      if n.HookNote? && n.claimed.Some? then n.claimed else Claim(h[..|h| - 1])
  }

  /** Whether an edge since the last hook event found another state than `working` stored. */
  function Contradicted(h: seq<Note>): bool {
    h != [] &&
      var n := h[|h| - 1];
      n.EdgeNote? && (!n.storedWorking || Contradicted(h[..|h| - 1]))
  }

  /** Whether the last note is an edge that counts: the stored hook claim is not fresh, and the hooks
      do not claim an uncontradicted `working`. */
  predicate Counts(h: seq<Note>)
    requires h != []
  {
    var n := h[|h| - 1];
    n.EdgeNote? && !n.hookFresh && !(Claim(h) == Some(Working) && !Contradicted(h))
  }

  /** Counting edges since the last hook event. */
  function Count(h: seq<Note>): nat {
    if h == [] || h[|h| - 1].HookNote? then 0
    else Count(h[..|h| - 1]) + if Counts(h) then 1 else 0
  }

  predicate Suspect(h: seq<Note>, threshold: u32) {
    Count(h) >= if threshold == 0 then 1 else threshold
  }

  /** No threshold, or one of zero, still takes one counting edge. */
  lemma SuspectExactly(h: seq<Note>, threshold: u32)
    ensures Suspect(h, threshold) <==> Count(h) >= 1 && Count(h) >= threshold
  {
  }

  /** How often an event turned a pane suspect. */
  function Flips(log: seq<Event>, threshold: u32): nat {
    if log == [] then 0
    else
      var e, before := log[|log| - 1], log[..|log| - 1];
      Flips(before, threshold) +
      if e.Noted? && Suspect(History(log, e.pane), threshold) && !Suspect(History(before, e.pane), threshold)
      then 1 else 0
  }

  /** Looks scheduled for a pane in its current foreground-cap episode. */
  function Looks(log: seq<Event>, pane: string): nat {
    if log == [] then 0
    else
      var e, before := log[|log| - 1], log[..|log| - 1];
      if EndsEpisode(e, pane) then 0
      else Looks(before, pane) + if e == Look(pane) then 1 else 0
  }

  function AllLooks(log: seq<Event>): nat {
    if log == [] then 0
    else AllLooks(log[..|log| - 1]) + if log[|log| - 1].Look? then 1 else 0
  }

  /** The looks owed since they were last taken. */
  function Owed(log: seq<Event>): seq<string> {
    if log == [] then []
    else
      var e, before := log[|log| - 1], log[..|log| - 1];
      if e.Taken? then [] else if e.Look? then Owed(before) + [e.pane] else Owed(before)
  }

  // ----- one event more -------------------------------------------------------------------------

  lemma OneMore(log: seq<Event>, e: Event, pane: string)
    ensures History(log + [e], pane) ==
      if DropsHook(e, pane) then []
      else if e.Noted? && e.pane == pane then History(log, pane) + [e.note] else History(log, pane)
    ensures Recency(log + [e], pane) == if e.Noted? && e.pane == pane then |log| + 1 else Recency(log, pane)
    ensures Looks(log + [e], pane) ==
      if EndsEpisode(e, pane) then 0 else Looks(log, pane) + if e == Look(pane) then 1 else 0
  {
    assert (log + [e])[..|log|] == log;
  }

  /** What clears a pane's memory: its own eviction (of the hook memory), its own uncapping (of the looks),
      being forgotten, and a sweep that does not find it live. Nothing that names another pane does. */
  lemma ClearsExactly(log: seq<Event>, pane: string, other: string, live: set<string>)
    ensures History(log + [Evicted(other)], pane) == if other == pane then [] else History(log, pane)
    ensures History(log + [Forgotten(other)], pane) == if other == pane then [] else History(log, pane)
    ensures History(log + [Pruned(live)], pane) == if pane in live then History(log, pane) else []
    ensures History(log + [Uncapped(other)], pane) == History(log, pane)
    ensures Looks(log + [Uncapped(other)], pane) == if other == pane then 0 else Looks(log, pane)
    ensures Looks(log + [Forgotten(other)], pane) == if other == pane then 0 else Looks(log, pane)
    ensures Looks(log + [Pruned(live)], pane) == if pane in live then Looks(log, pane) else 0
    ensures Looks(log + [Evicted(other)], pane) == Looks(log, pane)
  {
    OneMore(log, Evicted(other), pane);
    OneMore(log, Forgotten(other), pane);
    OneMore(log, Pruned(live), pane);
    OneMore(log, Uncapped(other), pane);
  }

  predicate Turns(log: seq<Event>, e: Event, threshold: u32)
    requires e.Noted?
  {
    Suspect(History(log, e.pane) + [e.note], threshold) && !Suspect(History(log, e.pane), threshold)
  }

  lemma OneMoreTotals(log: seq<Event>, e: Event, threshold: u32)
    ensures AllLooks(log + [e]) == AllLooks(log) + if e.Look? then 1 else 0
    ensures Owed(log + [e]) == if e.Taken? then [] else if e.Look? then Owed(log) + [e.pane] else Owed(log)
    ensures Flips(log + [e], threshold) == Flips(log, threshold) + if e.Noted? && Turns(log, e, threshold) then 1 else 0
  {
    assert (log + [e])[..|log|] == log;
    if e.Noted? { OneMore(log, e, e.pane); }
  }

  lemma TotalsStep(demotions: nat, looks: nat, due: seq<string>, log: seq<Event>, e: Event, threshold: u32)
    requires TotalsOk(demotions, looks, due, log, threshold)
    ensures TotalsOk(demotions + if e.Noted? && Turns(log, e, threshold) then 1 else 0,
                     looks + if e.Look? then 1 else 0,
                     if e.Taken? then [] else if e.Look? then due + [e.pane] else due,
                     log + [e], threshold)
  {
    OneMoreTotals(log, e, threshold);
  }

  lemma {:induction false} RecencyBound(log: seq<Event>, pane: string)
    ensures Recency(log, pane) <= |log|
    decreases |log|
  {
    if log != [] { RecencyBound(log[..|log| - 1], pane); }
  }

  // ----- one pane's counter -----------------------------------------------------------------------

  datatype PaneHook = PaneHook(
    edgesSinceHook: u32,
    demoted: bool,
    lastHookClaim: Option<AgentState>,
    workingClaimContradicted: bool,
    touched: nat)

  /** The counter says exactly what its history says. */
  predicate Reflects(p: PaneHook, h: seq<Note>, threshold: u32) {
    && p.edgesSinceHook == Saturated(Count(h))
    && p.demoted == Suspect(h, threshold)
    && p.lastHookClaim == Claim(h)
    && p.workingClaimContradicted == Contradicted(h)
  }

  lemma HookReflects(p: PaneHook, h: seq<Note>, claimed: Option<AgentState>, threshold: u32)
    requires Reflects(p, h, threshold)
    ensures Reflects(PaneHook(0, false, if claimed.Some? then claimed else p.lastHookClaim, false, p.touched),
                     h + [HookNote(claimed)], threshold)
  {
    assert (h + [HookNote(claimed)])[..|h|] == h;
  }

  lemma EdgeReflects(h: seq<Note>, hookFresh: bool, storedWorking: bool)
    ensures var h' := h + [EdgeNote(hookFresh, storedWorking)];
            && Claim(h') == Claim(h)
            && Contradicted(h') == (Contradicted(h) || !storedWorking)
            && Count(h') == Count(h) + if !hookFresh && !(Claim(h) == Some(Working) && !Contradicted(h')) then 1 else 0
  {
    assert (h + [EdgeNote(hookFresh, storedWorking)])[..|h|] == h;
  }

  // ----- the two memories -------------------------------------------------------------------------

  /** A pane is tracked exactly while it has a history. */
  ghost predicate Tracks(hooks: map<string, PaneHook>, log: seq<Event>) {
    forall p :: p in hooks <==> History(log, p) != []
  }

  /** Every counter reflects its pane's history. */
  ghost predicate Mirrors(hooks: map<string, PaneHook>, log: seq<Event>, threshold: u32) {
    forall p | p in hooks :: Reflects(hooks[p], History(log, p), threshold)
  }

  /** Touch stamps order the panes by recency. */
  ghost predicate Ordered(hooks: map<string, PaneHook>, log: seq<Event>, clock: nat) {
    && (forall p | p in hooks :: hooks[p].touched <= clock)
    && (forall p, q | p in hooks && q in hooks ::
          hooks[p].touched < hooks[q].touched <==> Recency(log, p) < Recency(log, q))
  }

  ghost predicate HooksOk(hooks: map<string, PaneHook>, log: seq<Event>, clock: nat, threshold: u32) {
    |hooks| <= MAX_TRACKED && Tracks(hooks, log) && Mirrors(hooks, log, threshold) && Ordered(hooks, log, clock)
  }

  function Spent(rechecks: map<string, u32>, pane: string): u32 {
    if pane in rechecks then rechecks[pane] else 0
  }

  /** The look budget: what each pane's episode has spent, never more than the limit. */
  ghost predicate LooksOk(rechecks: map<string, u32>, log: seq<Event>) {
    |rechecks| <= MAX_TRACKED && forall p :: Spent(rechecks, p) == Looks(log, p) <= RECHECK_LIMIT
  }

  /** The counters and the list of owed looks. */
  predicate TotalsOk(demotions: nat, looks: nat, due: seq<string>, log: seq<Event>, threshold: u32) {
    demotions == Flips(log, threshold) && looks == AllLooks(log) && due == Owed(log)
  }

  /** Both memories, the counters and the list of owed looks agree with the log. */
  ghost predicate Agrees(hooks: map<string, PaneHook>, rechecks: map<string, u32>, clock: nat,
                         demotions: nat, looks: nat, due: seq<string>, log: seq<Event>, threshold: u32) {
    HooksOk(hooks, log, clock, threshold) && LooksOk(rechecks, log) && TotalsOk(demotions, looks, due, log, threshold)
  }

  /** A pane may have one look more: its episode has spent fewer than the limit, and it has an entry
      or there is room for one. */
  predicate HasBudget(rechecks: map<string, u32>, log: seq<Event>, pane: string) {
    Looks(log, pane) < RECHECK_LIMIT && (pane in rechecks || |rechecks| < MAX_TRACKED)
  }

  /** The bounds in numbers: three looks an episode, and 4096 panes in either memory. */
  lemma BoundsExactly(hooks: map<string, PaneHook>, rechecks: map<string, u32>, clock: nat, demotions: nat,
                      looks: nat, due: seq<string>, log: seq<Event>, threshold: u32, pane: string)
    ensures HasBudget(rechecks, log, pane) <==> Looks(log, pane) <= 2 && (pane in rechecks || |rechecks| <= 4095)
    ensures Agrees(hooks, rechecks, clock, demotions, looks, due, log, threshold) ==>
      |hooks| <= 4096 && |rechecks| <= 4096 && Looks(log, pane) <= 3
  {
    if LooksOk(rechecks, log) { assert Spent(rechecks, pane) == Looks(log, pane); }
  }

  lemma Submap<V>(small: map<string, V>, big: map<string, V>)
    requires small.Keys <= big.Keys
    ensures |small| <= |big|
  {
    var rest := big.Keys - small.Keys;
    assert big.Keys == small.Keys + rest;
  }

  lemma DropKeepsHooks(hooks: map<string, PaneHook>, kept: map<string, PaneHook>, log: seq<Event>, e: Event,
                       clock: nat, threshold: u32)
    requires HooksOk(hooks, log, clock, threshold) && !e.Noted?
    requires forall p :: p in kept <==> p in hooks && !DropsHook(e, p)
    requires forall p | p in kept :: kept[p] == hooks[p]
    ensures HooksOk(kept, log + [e], clock, threshold)
  {
    Submap(kept, hooks);
    forall p ensures History(log + [e], p) == (if DropsHook(e, p) then [] else History(log, p))
             ensures Recency(log + [e], p) == Recency(log, p) {
      OneMore(log, e, p);
    }
  }

  lemma NoteKeepsHistories(hooks: map<string, PaneHook>, entry: PaneHook, log: seq<Event>, pane: string, note: Note,
                           threshold: u32)
    requires Tracks(hooks, log) && Mirrors(hooks, log, threshold)
    requires Reflects(entry, History(log, pane) + [note], threshold)
    ensures Tracks(hooks[pane := entry], log + [Noted(pane, note)])
    ensures Mirrors(hooks[pane := entry], log + [Noted(pane, note)], threshold)
  {
    var e, after := Noted(pane, note), hooks[pane := entry];
    forall p ensures p in after <==> History(log + [e], p) != [] {
      OneMore(log, e, p);
    }
    forall p | p in after ensures Reflects(after[p], History(log + [e], p), threshold) {
      OneMore(log, e, p);
    }
  }

  lemma NoteKeepsOrder(hooks: map<string, PaneHook>, entry: PaneHook, log: seq<Event>, pane: string,
                       note: Note, clock: nat)
    requires Ordered(hooks, log, clock) && entry.touched == clock + 1
    ensures Ordered(hooks[pane := entry], log + [Noted(pane, note)], clock + 1)
  {
    var e := Noted(pane, note);
    forall p ensures Recency(log + [e], p) == (if p == pane then |log| + 1 else Recency(log, p))
             ensures Recency(log, p) <= |log| {
      OneMore(log, e, p);
      RecencyBound(log, p);
    }
  }

  lemma NoteKeepsHooks(hooks: map<string, PaneHook>, entry: PaneHook, log: seq<Event>, pane: string, note: Note,
                       clock: nat, threshold: u32)
    requires HooksOk(hooks, log, clock, threshold) && (pane in hooks || |hooks| < MAX_TRACKED)
    requires Reflects(entry, History(log, pane) + [note], threshold) && entry.touched == clock + 1
    ensures HooksOk(hooks[pane := entry], log + [Noted(pane, note)], clock + 1, threshold)
  {
    NoteKeepsHistories(hooks, entry, log, pane, note, threshold);
    NoteKeepsOrder(hooks, entry, log, pane, note, clock);
  }

  lemma EventKeepsLooks(rechecks: map<string, u32>, kept: map<string, u32>, log: seq<Event>, e: Event)
    requires LooksOk(rechecks, log) && !e.Look?
    requires forall p :: p in kept <==> p in rechecks && !EndsEpisode(e, p)
    requires forall p | p in kept :: kept[p] == rechecks[p]
    ensures LooksOk(kept, log + [e])
  {
    Submap(kept, rechecks);
    forall p ensures Spent(kept, p) == Looks(log + [e], p) <= RECHECK_LIMIT {
      OneMore(log, e, p);
      assert Spent(rechecks, p) == Looks(log, p);
    }
  }

  lemma LookKeepsLooks(rechecks: map<string, u32>, log: seq<Event>, pane: string)
    requires LooksOk(rechecks, log) && Looks(log, pane) < RECHECK_LIMIT
    requires pane in rechecks || |rechecks| < MAX_TRACKED
    ensures LooksOk(rechecks[pane := Looks(log, pane) + 1], log + [Look(pane)])
  {
    var kept := rechecks[pane := Looks(log, pane) + 1];
    forall p ensures Spent(kept, p) == Looks(log + [Look(pane)], p) <= RECHECK_LIMIT {
      OneMore(log, Look(pane), p);
      assert Spent(rechecks, p) == Looks(log, p);
    }
  }

  // ----- every step keeps the agreement -----------------------------------------------------------

  lemma DropKeeps(hooks: map<string, PaneHook>, rechecks: map<string, u32>, clock: nat, demotions: nat, looks: nat,
                  due: seq<string>, log: seq<Event>, threshold: u32, e: Event,
                  keptHooks: map<string, PaneHook>, keptLooks: map<string, u32>)
    requires Agrees(hooks, rechecks, clock, demotions, looks, due, log, threshold) && !e.Noted? && !e.Look?
    requires forall p :: p in keptHooks <==> p in hooks && !DropsHook(e, p)
    requires forall p | p in keptHooks :: keptHooks[p] == hooks[p]
    requires forall p :: p in keptLooks <==> p in rechecks && !EndsEpisode(e, p)
    requires forall p | p in keptLooks :: keptLooks[p] == rechecks[p]
    ensures Agrees(keptHooks, keptLooks, clock, demotions, looks, if e.Taken? then [] else due, log + [e], threshold)
  {
    DropKeepsHooks(hooks, keptHooks, log, e, clock, threshold);
    EventKeepsLooks(rechecks, keptLooks, log, e);
    TotalsStep(demotions, looks, due, log, e, threshold);
  }

  lemma NoteKeeps(hooks: map<string, PaneHook>, rechecks: map<string, u32>, clock: nat, demotions: nat, looks: nat,
                  due: seq<string>, log: seq<Event>, threshold: u32, pane: string, note: Note, entry: PaneHook)
    requires Agrees(hooks, rechecks, clock, demotions, looks, due, log, threshold)
    requires pane in hooks || |hooks| < MAX_TRACKED
    requires Reflects(entry, History(log, pane) + [note], threshold) && entry.touched == clock + 1
    ensures Agrees(hooks[pane := entry], rechecks, clock + 1,
                   demotions + if Turns(log, Noted(pane, note), threshold) then 1 else 0,
                   looks, due, log + [Noted(pane, note)], threshold)
    ensures entry.demoted == Suspect(History(log + [Noted(pane, note)], pane), threshold)
  {
    NoteKeepsHooks(hooks, entry, log, pane, note, clock, threshold);
    EventKeepsLooks(rechecks, rechecks, log, Noted(pane, note));
    TotalsStep(demotions, looks, due, log, Noted(pane, note), threshold);
    OneMore(log, Noted(pane, note), pane);
  }

  lemma LookKeeps(hooks: map<string, PaneHook>, rechecks: map<string, u32>, clock: nat, demotions: nat, looks: nat,
                  due: seq<string>, log: seq<Event>, threshold: u32, pane: string)
    requires Agrees(hooks, rechecks, clock, demotions, looks, due, log, threshold) && HasBudget(rechecks, log, pane)
    ensures Agrees(hooks, rechecks[pane := Looks(log, pane) + 1], clock, demotions, looks + 1, due + [pane],
                   log + [Look(pane)], threshold)
    ensures Looks(log + [Look(pane)], pane) == Looks(log, pane) + 1
  {
    DropKeepsHooks(hooks, hooks, log, Look(pane), clock, threshold);
    LookKeepsLooks(rechecks, log, pane);
    TotalsStep(demotions, looks, due, log, Look(pane), threshold);
    OneMore(log, Look(pane), pane);
  }

  /** Exactly when a new pane meets a full memory one entry goes, and it is the least recently
      touched. */
  ghost predicate Evicts(hooks: map<string, PaneHook>, before: seq<Event>, pane: string, after: seq<Event>) {
    if pane in hooks || |hooks| < MAX_TRACKED then after == before
    else
      exists oldest | oldest in hooks ::
        && after == before + [Evicted(oldest)]
        && forall p | p in hooks :: Recency(before, oldest) <= Recency(before, p)
  }
}
