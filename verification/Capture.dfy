/** The daemon's bounded per-pane memory: hook-liveness demotion and the follow-up looks of a
    foreground-cap episode. */
module Capture {
  import opened Basics
  import opened Memory

  class CaptureState {
    const demoteEdges: u32
    var hooks: map<string, PaneHook>
    var rechecks: map<string, u32>
    var recheckDue: seq<string>
    var clock: nat
    var recheckLooks: nat
    var demotions: nat
    ghost var log: seq<Event>

    /** Both memories agree with the log, and so do the counters and the list of owed looks. */
    ghost predicate Valid()
      reads this
    {
      Agrees(hooks, rechecks, clock, demotions, recheckLooks, recheckDue, log, demoteEdges)
    }

    constructor (threshold: u32)
      ensures Valid() && log == [] && demoteEdges == threshold
    {
      demoteEdges := threshold;
      hooks, rechecks, recheckDue := map[], map[], [];
      clock, recheckLooks, demotions := 0, 0, 0;
      log := [];
    }

    /** The least recently touched pane. */
    method Oldest() returns (oldest: string)
      requires Valid() && hooks != map[]
      ensures oldest in hooks && forall p | p in hooks :: Recency(log, oldest) <= Recency(log, p)
    {
      var rest := hooks.Keys;
      oldest :| oldest in rest;
      rest := rest - {oldest};
      while rest != {}
        invariant rest <= hooks.Keys && oldest in hooks
        invariant forall p | p in hooks && p !in rest :: hooks[oldest].touched <= hooks[p].touched
        decreases rest
      {
        var p :| p in rest;
        if hooks[p].touched < hooks[oldest].touched {
          oldest := p;
        }
        rest := rest - {p};
      }
    }

    /** Makes room for a pane: a full memory gives up its least recently touched entry. */
    method MakeRoom(pane: string)
      requires Valid()
      modifies this
      ensures Valid() && clock == old(clock)
      ensures pane in hooks || |hooks| < MAX_TRACKED
      ensures Evicts(old(hooks), old(log), pane, log)
    {
      if pane !in hooks && |hooks| >= MAX_TRACKED {
        var oldest := Oldest();
        Evict(oldest);
      }
    }

    method Evict(oldest: string)
      requires Valid() && oldest in hooks
      modifies this
      ensures Valid() && hooks == old(hooks) - {oldest} && log == old(log) + [Evicted(oldest)] && clock == old(clock)
      ensures |hooks| < MAX_TRACKED
    {
      DropKeeps(hooks, rechecks, clock, demotions, recheckLooks, recheckDue, log, demoteEdges, Evicted(oldest),
                hooks - {oldest}, rechecks);
      assert (hooks - {oldest}).Keys == hooks.Keys - {oldest};
      hooks, log := hooks - {oldest}, log + [Evicted(oldest)];
    }

    /** The pane's entry, created if absent and touched; the caller stores it with its note. */
    method EntryMut(pane: string) returns (entry: PaneHook)
      requires Valid()
      modifies this
      ensures clock == old(clock) + 1
      ensures Agrees(hooks, rechecks, clock - 1, demotions, recheckLooks, recheckDue, log, demoteEdges)
      ensures pane in hooks || |hooks| < MAX_TRACKED
      ensures Evicts(old(hooks), old(log), pane, log)
      ensures entry.touched == clock && Reflects(entry, History(log, pane), demoteEdges)
    {
      MakeRoom(pane);
      clock := clock + 1;
      entry := if pane in hooks then hooks[pane].(touched := clock) else PaneHook(0, false, None, false, clock);
      assert pane !in hooks ==> History(log, pane) == [];
    }

    /** A hook event proves the wiring live: the history starts over for the counter. */
    method OnHookEvent(pane: string, claimed: Option<AgentState>)
      requires Valid()
      modifies this
      ensures Valid() && |log| > |old(log)| && log[|log| - 1] == Noted(pane, HookNote(claimed))
      ensures Evicts(old(hooks), old(log), pane, log[..|log| - 1])
      ensures pane in hooks && !hooks[pane].demoted && demotions == old(demotions)
    {
      var entry := EntryMut(pane);
      ghost var note := HookNote(claimed);
      HookReflects(entry, History(log, pane), claimed, demoteEdges);
      entry := PaneHook(0, false, if claimed.Some? then claimed else entry.lastHookClaim, false, entry.touched);
      Record(pane, note, entry, false);
    }

    /** One activity edge: whether the pane is now demoted, which is whether its counting edges since
        the last hook event, or since it was (re)inserted, have reached the threshold. */
    method NoteEdge(pane: string, hookFresh: bool, storedWorking: bool) returns (demoted: bool)
      requires Valid()
      modifies this
      ensures Valid() && |log| > |old(log)| && log[|log| - 1] == Noted(pane, EdgeNote(hookFresh, storedWorking))
      ensures Evicts(old(hooks), old(log), pane, log[..|log| - 1])
      ensures demoted == Suspect(History(log, pane), demoteEdges)
    {
      var entry := EntryMut(pane);
      ghost var note, h := EdgeNote(hookFresh, storedWorking), History(log, pane);
      EdgeReflects(h, hookFresh, storedWorking);
      if !storedWorking {
        entry := entry.(workingClaimContradicted := true);
      }
      var hookSaysWorking := entry.lastHookClaim == Some(Working) && !entry.workingClaimContradicted;
      var turns := false;
      if !hookFresh && !hookSaysWorking {
        var edges := if entry.edgesSinceHook == U32_MAX then U32_MAX else entry.edgesSinceHook + 1;
        turns := !entry.demoted && edges >= demoteEdges;
        entry := entry.(edgesSinceHook := edges, demoted := entry.demoted || turns);
      }
      demoted := entry.demoted;
      Record(pane, note, entry, turns);
    }

    /** Stores an entry that reflects its history with one note more. */
    method Record(pane: string, ghost note: Note, entry: PaneHook, turns: bool)
      requires clock > 0 && Agrees(hooks, rechecks, clock - 1, demotions, recheckLooks, recheckDue, log, demoteEdges)
      requires pane in hooks || |hooks| < MAX_TRACKED
      requires entry.touched == clock && Reflects(entry, History(log, pane) + [note], demoteEdges)
      requires turns == Turns(log, Noted(pane, note), demoteEdges)
      modifies this
      ensures Valid() && log == old(log) + [Noted(pane, note)] && hooks == old(hooks)[pane := entry]
      ensures demotions == old(demotions) + if turns then 1 else 0
      ensures entry.demoted == Suspect(History(log, pane), demoteEdges)
    {
      NoteKeeps(hooks, rechecks, clock - 1, demotions, recheckLooks, recheckDue, log, demoteEdges, pane, note, entry);
      hooks := hooks[pane := entry];
      log := log + [Noted(pane, note)];
      if turns {
        demotions := demotions + 1;
      }
    }

    /** A capped verdict schedules a look while its episode has spent fewer than the limit; an
        uncapped one ends the episode. */
    method NoteForegroundCap(pane: string, capped: bool)
      requires Valid()
      modifies this
      ensures Valid()
      ensures !capped ==> log == old(log) + [Uncapped(pane)] && recheckDue == old(recheckDue)
      ensures capped && old(HasBudget(rechecks, log, pane))
          ==> log == old(log) + [Look(pane)] && recheckDue == old(recheckDue) + [pane]
      ensures capped && !old(HasBudget(rechecks, log, pane)) ==> log == old(log) && recheckDue == old(recheckDue)
      ensures Looks(log, pane) <= RECHECK_LIMIT
    {
      if !capped {
        Apply(Uncapped(pane), hooks, rechecks - {pane});
        return;
      }
      if pane !in rechecks && |rechecks| >= MAX_TRACKED {
        return;
      }
      var spent := if pane in rechecks then rechecks[pane] else 0;
      if spent >= RECHECK_LIMIT {
        return;
      }
      Schedule(pane, spent);
    }

    method Schedule(pane: string, spent: u32)
      requires Valid() && spent == Looks(log, pane) && spent < RECHECK_LIMIT
      requires pane in rechecks || |rechecks| < MAX_TRACKED
      modifies this
      ensures Valid() && log == old(log) + [Look(pane)] && recheckDue == old(recheckDue) + [pane]
      ensures Looks(log, pane) == spent + 1
    {
      LookKeeps(hooks, rechecks, clock, demotions, recheckLooks, recheckDue, log, demoteEdges, pane);
      rechecks := rechecks[pane := spent + 1];
      recheckLooks := recheckLooks + 1;
      recheckDue := recheckDue + [pane];
      log := log + [Look(pane)];
    }

    /** Both memories after an event that adds nothing to them. */
    method Apply(e: Event, keptHooks: map<string, PaneHook>, keptLooks: map<string, u32>)
      requires Valid() && (e.Forgotten? || e.Pruned? || e.Uncapped?)
      requires forall p :: p in keptHooks <==> p in hooks && !DropsHook(e, p)
      requires forall p | p in keptHooks :: keptHooks[p] == hooks[p]
      requires forall p :: p in keptLooks <==> p in rechecks && !EndsEpisode(e, p)
      requires forall p | p in keptLooks :: keptLooks[p] == rechecks[p]
      modifies this
      ensures Valid() && log == old(log) + [e] && hooks == keptHooks && rechecks == keptLooks
      ensures recheckDue == old(recheckDue) && demotions == old(demotions)
    {
      DropKeeps(hooks, rechecks, clock, demotions, recheckLooks, recheckDue, log, demoteEdges, e, keptHooks, keptLooks);
      hooks, rechecks, log := keptHooks, keptLooks, log + [e];
    }

    /** The pane is gone, ignored or no agent any more. */
    method ForgetPane(pane: string)
      requires Valid()
      modifies this
      ensures Valid() && log == old(log) + [Forgotten(pane)]
      ensures hooks == old(hooks) - {pane} && rechecks == old(rechecks) - {pane} && recheckDue == old(recheckDue)
    {
      Apply(Forgotten(pane), hooks - {pane}, rechecks - {pane});
    }

    /** The sweep keeps the memory of live agent panes only. */
    method Prune(live: set<string>)
      requires Valid()
      modifies this
      ensures Valid() && log == old(log) + [Pruned(live)] && hooks.Keys == old(hooks).Keys * live
    {
      var keptLooks := map p | p in rechecks && p in live :: rechecks[p];
      Apply(Pruned(live), map p | p in hooks && p in live :: hooks[p], keptLooks);
    }

    /** The owed looks, leaving none behind. */
    method TakeRecheck() returns (due: seq<string>)
      requires Valid()
      modifies this
      ensures Valid() && due == Owed(old(log)) && recheckDue == [] && log == old(log) + [Taken]
    {
      due := recheckDue;
      DropKeeps(hooks, rechecks, clock, demotions, recheckLooks, recheckDue, log, demoteEdges, Taken, hooks, rechecks);
      recheckDue, log := [], log + [Taken];
    }
  }
}
