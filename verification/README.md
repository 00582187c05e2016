# tma: proofs about pane state, actions and persistence

tma watches coding agents that run in tmux panes. It keeps what it knows about a pane in tmux user
options, folds screen captures and hook events into one state per pane, fires actions into panes, and
persists program reports under a lease. This project models those mechanisms in Dafny and proves what
they promise, and where a promise fails it proves exactly when.

`dafny verify dfyconfig.toml` checks everything.

## The parts

| part | modules |
|---|---|
| the pane-option store and the publish chain | `PaneStore`, `Publish`, `Atomicity`, `Mirror`, `Grouped`, `Arrivals`, `Races`, `Gauges`, `Stamp` |
| transactions that overlap | `Overlap`, `Schedule`, `Standings`, `Window` |
| the verdict fold and runs of fold, write, read | `Fold`, `Verdicts`, `Cycle` |
| the action broker | `Gate`, `Wire`, `Repeat`, `Protocol`, `Broker`, `Runs` |
| the lease scheduler and the persistence codecs | `Lease`, `Codec`, `Formats`, `MetadataOwner`, `Projection` |
| command quoting | `Quote` |
| the JSON writer and the telemetry readers | `Json`, `JsonWriter`, `JsonReader`, `Telemetry`, `Newest` |
| the daemon's bounded memory | `Memory`, `Capture` |
| the screen-rule engine and the edge stream | `Ansi`, `Regions`, `Selection`, `Engine`, `Edge` |
| shared vocabulary | `Basics`, `Decimal`, `Text`, `Utf8` |

A publish is a chain of commands that each re-read the store the earlier ones changed. `Pane` is that
store as an object, `Run` its specification, and the theorems are about whole chains, whole races and
whole runs of cycles, which commit by the chain or by the grouped transaction. The environment of the
broker is an object whose answers are arbitrary; its ghost trace is what the broker's contract is about.
`CaptureState`, `LeaseSchedule` and `JsonWriter` are objects updated in place, each proved against a log
or a state function.

`JsonReader` is not part of tma: it is a reader as a receiver of its texts may have one, and so is the UTF-8
encoder of `Utf8`. `Verdicts`, `Runs`, `Wire` and `Formats` say in plain terms, values and texts what the fold,
the broker, its requests and the persisted records come to.

## What the proofs found

* A cycle treats an undecodable tuple as absent and counts on its next write to repair it
  (cycle.rs:143-145). It does not always: while the source option still says `hook` the write guard
  refuses chrome that the fold believes unopposed, and of the publishes of a cycle only an episode reset,
  which needs a tuple that decodes, rewrites the markers of notification and turn. `Cycle.CycleCommits` states exactly which
  cycles repair; `Cycle.BadMarkerNeverRepaired` and `Cycle.HiddenHookNeverRepaired` show runs that never
  do.
* The re-evaluated chain of `render_publish` tears in one case: a hook stamp over a newer non-hook claim
  makes the store hook-sourced before it reaches `@agent_evidence_at`, so the new claim stands under the
  old evidence time (`Atomicity.AllOrNothing`). For the same reason a race of such chains can depend on
  their order (`Races.RaceConvergesIff`). tma itself commits hook events by the grouped transaction, which
  evaluates the guard once and never tears.
* Racing hook events are meant to resolve by evidence time, not by the order in which their processes
  finish (render.rs:88-91). The transaction keeps an older event from replacing a newer hook claim under
  every schedule (`Standings.ClaimsNeverRegress`), but it also drops, without another try, an event whose
  pane was written between its read and its commit, by whomever. The newest event stands exactly when one
  of its windows stayed clear (`Standings.NewestStandsExactly`); where all read first, the first commit
  wins (`Overlap.FirstCommitWins`). Order is irrelevant when nothing overlaps, up to equal newest times
  (`Races.GroupsConverge`).
* A hook event that lands in a cycle's window is meant to win (stamp.rs:58-60). On the transaction it
  always does; on the chain a publish that may override, or a corroboration of an older time, still goes
  through (`Window.HookWinsChainExactly`, `Window.CorroborationRewritesTime`).
* Epochs stored in legacy seconds are compared unscaled by the server and scaled by the client. Over a
  tuple that decodes the mirror of the guard is wrong exactly for a threshold between the two
  (`Mirror.GuardMirrorExact`), and the mirror of write-once `since` exactly for a clock-step limit between
  the two (`Mirror.KeptSinceExact`, `Mirror.SinceGapWitness`). Over one that does not, the client sees no
  claim and is wrong exactly where the server still honours one of its texts (`Mirror.MirrorAgrees`).
* The plain advisory chain keeps a detail the guarded chain drops, and scales a kept legacy `since`
  before writing it, so that a stamp which still looks like seconds is scaled twice. Read back, the two
  chains differ exactly there, and where the client's write-once is mistaken
  (`Grouped.AdvisoryMatchesUnconditional`).
* A torn chain escapes a reader's notice only behind a legacy evidence time
  (`Grouped.TearAlwaysShowsInMillis`).
* A hook claim of `unknown` is protected by the write guard although the fold does not protect it:
  working or idle chrome never gets through (`Cycle.StuckWitness`, `Cycle.UnknownHookNeverLeaves`).
* `--force` also passes `no-coverage`, although the notes in gate.rs call `gated` the only refusal that
  can be forced (`Gate.ForcedNoCoverageWitness`).
* A scheduler within its clock slack can still wait on a lease readers have dropped
  (`Lease.SlackWindowWitness`).
* `find_string` does not decode `\r` and `\u00XX` as written; it inverts the writer exactly on strings
  whose only control characters are newline and tab (`Telemetry.StringRoundTrip`).

## Assumptions of the model

* tmux formats are a small expression tree with an evaluator, not text. A numeric operand is decimal,
  the empty string counts as zero, and a comparison with anything else expands to nothing.
* tmux compares numbers as doubles; the model compares them exactly, which differs beyond 2^53.
* Within one invocation no other client's command runs, except where a lemma speaks of interleavings.
* Both readers drop empty option values before decoding.
* Panes are distinct within one observation of the edge stream. Regular expressions are an arbitrary
  oracle.
* A `Raw` JSON value copied by the writer is assumed to be balanced where the scanner is compared
  with the writer.

## Model

| member | source | states |
|---|---|---|
| `PaneStore.Pane.Invoke` | crates/tma-core/src/render.rs:1-9 | one `;`-joined invocation runs its commands in order on the mutable pane, each format expanded against the options its predecessors left: the final options are `Run` of the initial ones |
| `PaneStore.RunFrame` | crates/tma-core/src/render.rs:167-207 | a chain leaves every option it does not name untouched |
| `PaneStore.InterleavingIrrelevant` | crates/tma-core/src/render.rs:7-9 | two chains over disjoint options leave the same store in every interleaving of their commands |
| `Publish.RenderPublish` | crates/tma-core/src/render.rs:228-317 | the command list pushed step by step is the chain the properties below speak of: `since` first, the guarded tuple, the freshness suffix, `stamped_at` last |
| `Publish.BlocksMeaning` | crates/tma-core/src/render.rs:96-121 | the format the server expands for a guard is truthy exactly when the suppression rule holds of the stored texts, for every store and every guard |
| `Publish.OnceMeaning` | crates/tma-core/src/render.rs:256-272 | the write-once `since` format keeps the stored instant exactly when the stored state is the published one and the stored `since` has not been overtaken by a clock step |
| `Publish.SafeDetailExactly` | crates/tma-core/src/render.rs:211-224 | a detail is kept if it is made of visible characters none of which the format language takes for its own, and dropped otherwise |
| `Publish.GuardedTrace` | crates/tma-core/src/render.rs:209-213 | the tuples a guarded chain passes through, one per field, each decided by the guard on the tuple before it |
| `Atomicity.GuardedOutcome` | crates/tma-core/src/render.rs:226-317 | executing a paired chain command by command gives the atomic outcome, except in the one torn case, whose result is stated too |
| `Atomicity.AllOrNothing` | crates/tma-core/src/render.rs:6-9 | the tuple ends entirely old or entirely new if and only if the publish is not a hook stamp that landed on a stored non-hook claim with newer evidence |
| `Atomicity.TearWitness` | crates/tma-core/src/render.rs:113-118 | the exception is reachable: every hook stamp over a newer capture claim is torn |
| `Atomicity.FreshnessSuffix` | crates/tma-core/src/render.rs:305-317 | the freshness suffix writes hash, pid, name and `stamped_at` and never the arbitrated tuple |
| `Atomicity.ResetOutcome` | crates/tma-core/src/render.rs:229-252 | an episode boundary commits the whole tuple unguarded and clears the notification and turn markers |
| `Mirror.GuardMirrorExact` | crates/tma-core/src/render.rs:122-138 | the client-side `suppresses` predicts the server's guard if and only if no threshold lies between a stored legacy-seconds epoch and its millisecond reading |
| `Mirror.NoGapInMillis` | crates/tma-core/src/render.rs:122-138 | millisecond epochs leave no such gap |
| `Mirror.MirrorAgrees` | crates/tma-core/src/render.rs:328-371 | for every store, client and server agree on whether the tuple commits if and only if no threshold falls in the legacy gap and no undecodable tuple hides from the client what the guard looks at |
| `Mirror.KeptSinceExact` | crates/tma-core/src/render.rs:256-304 | for every store, client-side and server-side write-once decide alike if and only if the clock-step limit does not fall between a legacy `since` and its scaled reading and no kept `since` is hidden in a tuple that does not decode; otherwise the server keeps what the client replaces |
| `Mirror.ProjectionExact` | crates/tma-core/src/render.rs:328-371 | for every store and guard outside the torn case, the row `project_publish` predicts is the row the store decodes to after the chain if and only if `Foreseen` holds of the stored texts, legacy seconds and undecodable tuples included; a suppressed publish over an absent tuple stores nothing |
| `Mirror.ProjectionFailsInGap` | crates/tma-core/src/render.rs:328-371 | where client and server agree on the commit, a publish with a millisecond `since` within the clock-step slack is predicted right over a decoded tuple if and only if the store is not in the write-once gap, and over an undecoded one if and only if what the publish keeps of it can be read and says the same |
| `Mirror.SinceGapWitness` | crates/tma-core/src/render.rs:256-304 | inside the write-once gap the prediction is wrong: the server keeps the legacy instant the client takes for a clock step |
| `Grouped.ProjectionWhenTorn` | crates/tma-core/src/render.rs:328-371 | over a torn chain the prediction comes true if and only if the old evidence time decodes, no new attention was asked for, and the row was foreseeable |
| `Mirror.CommittedRead` | crates/tma-core/src/stamp.rs:312-376 | whatever the store held, a committed publish reads back as the claim it carried if and only if the bookkeeping options it leaves alone are numbers; otherwise the tuple does not decode |
| `Mirror.HeldRead` | crates/tma-core/src/stamp.rs:312-376 | a held tuple reads back as its texts stand under refreshed bookkeeping, if and only if they parse: the bookkeeping of a refused chain can make an undecodable tuple decode again |
| `Mirror.HeldKeeps` | crates/tma-core/src/stamp.rs:312-376 | a held claim that decoded before is read as it was |
| `Mirror.ReadBackSettles` | crates/tma-core/src/stamp.rs:253-274 | after a committed publish with millisecond instants not after its stamp, the tuple decodes if and only if the bookkeeping left alone does; stored `since` is then at most `stamped_at + 2000` if and only if the store was not in the write-once gap, and the read is settled if and only if `since` is at most `stamped_at` or was in that gap |
| `Mirror.LegacyGapWitness` | crates/tma-core/src/render.rs:122-138 | inside the gap the prediction is wrong: the server lets blocker chrome through over a hook claim the client expects to stand |
| `Grouped.AdvisoryMatchesUnconditional` | crates/tma-core/src/render.rs:378-440 | the advisory chain is read back exactly as the unconditional guarded chain, on every store, if and only if the publish is a reset, or neither can be read for a bookkeeping option both leave alone, or no detail was dropped to protect the format and the two `since` values read alike |
| `Grouped.AdvisorySinceExact` | crates/tma-core/src/render.rs:378-440 | the plain form's `since` decodes as the server-side form's if and only if `SinceReadsAlike` holds of the stored text: outside the write-once gap, and unless the kept instant still looks like seconds after scaling |
| `Grouped.SinceReadsAlikeInMillis` | crates/tma-core/src/render.rs:378-440 | over a tuple that decodes, a millisecond `since` reads alike from both forms |
| `Grouped.ChainRefinesGroup` | crates/tma-tmux/src/persistence.rs:409-442 | a reader sees the same claim from the re-evaluated chain and from the group whose predicate is evaluated once, on every store, if and only if: where the guard holds, the tuple decoded before or does not decode after; where it does not, no tear shows, no detail is dropped and the `since` values read alike, or neither can be read |
| `Grouped.OpenChainRefinesGroup` | crates/tma-tmux/src/persistence.rs:409-442 | the same comparison once the guard has let the group in |
| `Grouped.GroupRead` | crates/tma-tmux/src/persistence.rs:139-164 | whatever the store held, the entered group reads back as the publish, detail unfiltered, with the `since` its producer resolved, if and only if the bookkeeping options it leaves alone are numbers |
| `Grouped.TornRead` | crates/tma-core/src/render.rs:113-118 | a torn chain reads back as the new claim under the old evidence time and attention, or as nothing when that time or the bookkeeping left alone does not decode |
| `Grouped.TearAlwaysShowsInMillis` | crates/tma-core/src/render.rs:113-118 | a tear is invisible to readers only behind a legacy evidence time |
| `Arrivals.NewestWins` | crates/tma-core/src/render.rs:88-93 | a register that accepts what is not older ends, after any sequence of offers, with the last of the newest ones |
| `Arrivals.OrdersConverge` | crates/tma-core/src/render.rs:88-93 | two orders of the same offers leave it the same when all are too old or those that share the newest time say the same |
| `Arrivals.SomeOrderDiffers` | crates/tma-core/src/render.rs:88-93 | and otherwise some order leaves another content |
| `Races.RunAllLands` | crates/tma-core/src/render.rs:88-93 | whole hook chains executed one after another on the store act on the tuple as the landing rule says, whatever its texts |
| `Races.HookStoreRegister` | crates/tma-core/src/render.rs:88-93 | under hook chains a hook-sourced pane is such a register: its claim and evidence time are those of the offers |
| `Races.HookStoreRace` | crates/tma-core/src/render.rs:88-93 | on a hook-sourced store the last of the newest chains wins, equal times included, unless the stored claim is newer |
| `Races.RaceOutcome` | crates/tma-core/src/render.rs:113-118 | the outcome of a race of chains on any pane: the last of the newest events if it is not older than the store, else the stored hook claim, else the first event under the old evidence time |
| `Races.RaceConverges` | crates/tma-core/src/render.rs:88-93 | any two orders of the same hook chains leave the same claim wherever `Orderless` holds: some event is not older than the store and the newest agree, or all are older and meet a hook claim or agree |
| `Races.StoresConverge` | crates/tma-core/src/render.rs:283-292 | the same for whole chains on the pane's options, and the claim left is the newest one |
| `Races.RaceConvergesIff` | crates/tma-core/src/render.rs:113-118 | every order of the chains agrees if and only if `Orderless` holds of the stored tuple and the events |
| `Races.GroupRefines` | crates/tma-tmux/src/stamp.rs:368-386 | a run of grouped hook stamps that do not overlap is a register of evidence times on every store |
| `Races.GroupRace` | crates/tma-runtime/src/event.rs:477-502 | without overlap, the last of the newest events stands unless the pane holds a newer hook claim, and then the race writes nothing at all |
| `Races.GroupsConverge` | crates/tma-tmux/src/stamp.rs:368-386 | without overlap, every order of the same grouped hook stamps leaves the same claim if and only if the stored hook claim is newer than each or the newest agree; a stored claim of another source makes no difference |
| `Overlap.ProjectionDecides` | crates/tma-tmux/src/persistence.rs:207-234 | the options compared at commit decide whether the writer's prior decodes, and its state and `since` |
| `Overlap.SubmitExact` | crates/tma-tmux/src/persistence.rs:419-448 | a publish decided on an earlier read commits as the one-step group if the receipt and the compared options are unchanged, and does nothing otherwise |
| `Overlap.FirstCommitWins` | crates/tma-tmux/src/stamp.rs:368-401 | of hook events that all read before any commits, the first one that the stored hook claim lets in wins and every other is dropped, newer or not |
| `Overlap.OverlapConvergesIff` | crates/tma-tmux/src/stamp.rs:368-401 | then every commit order leaves the same claim if and only if the events let in say the same, instant included |
| `Overlap.OverlapWitness` | crates/tma-runtime/src/event.rs:477-502 | two events that overlap on an empty pane: the one that commits first stands, be it the older |
| `Schedule.LandsExactly` | crates/tma-tmux/src/persistence.rs:419-448 | under any schedule of reads, commits and other writes with a receipt, a hook event lands if and only if nothing was written since its writer read and the pane's hook claim is not newer; otherwise it leaves no trace |
| `Schedule.RunExists` | crates/tma-tmux/src/stamp.rs:259-284 | every schedule has a run, from every pane |
| `Standings.ClaimsNeverRegress` | crates/tma-core/src/render.rs:88-93 | under every schedule a hook claim is never replaced by an older event |
| `Standings.LastLandingStands` | crates/tma-core/src/render.rs:88-93 | what stands at the end of a schedule is the last event that landed, or the old claim |
| `Standings.NewestStandsExactly` | crates/tma-runtime/src/event.rs:477-502 | under every schedule the newest event stands at the end if and only if some read and commit of its writer had no landed write between them |
| `Standings.OneByOneIsGroupAll` | crates/tma-tmux/src/persistence.rs:409-448 | the schedule without overlap is the sequence of one-step groups |
| `Standings.TogetherIsSubmitAll` | crates/tma-tmux/src/persistence.rs:409-448 | the schedule with complete overlap is the sequence of commits on one snapshot |
| `Gauges.FenceAtomic` | crates/tma-core/src/render.rs:470-482 | a chain fenced by its own marker is atomic on every store, as long as what it writes to its marker is its own evidence time |
| `Gauges.ContextAtomic` | crates/tma-core/src/render.rs:484-522 | a context push moves all four of its options or none |
| `Gauges.GaugeTexts` | crates/tma-core/src/render.rs:484-522 | a gauge shows the number or text it was given, and nothing where it was given none |
| `Gauges.QuotaAtomic` | crates/tma-core/src/render.rs:587-611 | a quota push likewise, an omitted field clearing its option with the rest |
| `Gauges.ContextRefines` | crates/tma-core/src/render.rs:484-522 | whole context pushes on the options act as offers to a register of evidence times |
| `Gauges.QuotaRefines` | crates/tma-core/src/render.rs:587-611 | and so do whole quota pushes |
| `Gauges.NewestPushWins` | crates/tma-core/src/render.rs:484-522 | whatever the arrival order, the last of the newest observations is the one left standing, equal times included; strictly older pushes change nothing, a null-clear included |
| `Gauges.NewestQuotaWins` | crates/tma-core/src/render.rs:587-611 | the same for quota: the last of the newest observations stands, and older ones neither set nor clear anything |
| `Gauges.PushesConverge` | crates/tma-core/src/render.rs:484-522 | all arrival orders of the same observations leave the same gauge if and only if the stored gauge is newer than each or the newest agree |
| `Gauges.QuotasConverge` | crates/tma-core/src/render.rs:587-611 | the same for the five quota options |
| `Gauges.TokensStayAligned` | crates/tma-core/src/stamp.rs:52-56 | a present token count always carries the evidence time of the percent beside it |
| `Gauges.LanesCommute` | crates/tma-core/src/render.rs:571-611 | a context push and a quota push leave the same store in every interleaving of their commands |
| `Stamp.DecodedFields` | crates/tma-core/src/stamp.rs:312-376 | what a decoded read says about the raw option texts behind it |
| `Stamp.EpochsExactly` | crates/tma-core/src/stamp.rs:253-300 | a stepped clock and a legacy instant in numbers |
| `Mirror.DecodesExactly` | crates/tma-core/src/stamp.rs:312-376 | a stored tuple decodes if and only if each of its texts does |
| `Fold.ScreenMeaning` | crates/tma-core/src/fold.rs:288-295 | the three screen claims are the newest blocked, working and idle chrome of the evidence |
| `Fold.FlipExactly` | crates/tma-core/src/fold.rs:296-369 | the verdict on a protected hook claim differs from it if and only if the foreground is foreign with no live agent, or an unfrozen agent screen shows a blocker strictly newer than a working or idle claim, or (no blocker) contradicts it past its decay window, capture-visibly and outside the dwell |
| `Fold.PowerlessEvidence` | crates/tma-core/src/fold.rs:109-160 | removing raw program reports and lifecycle records never changes the verdict |
| `Verdicts.ProgramDecides` | crates/tma-core/src/fold.rs:129-154 | a program report decides alone: its state, detail and instant, the right to override, and attention on entering `blocked` or on a pending result |
| `Verdicts.HookDecides` | crates/tma-core/src/fold.rs:156-178 | otherwise, if any hook record claims a state, the newest of them (the last of equals) decides alone, whatever is stored, shown or in the foreground: the verdict has its state, detail and instant and the right to override |
| `Verdicts.ForeignDecides` | crates/tma-core/src/fold.rs:180-210 | without a hook claim, a foreign foreground holds the hook claim of a live agent and is `unknown` otherwise |
| `Verdicts.HistoryDecides` | crates/tma-core/src/fold.rs:212-220 | a scrolled screen, or one that shows history, leaves the stored claim as it is |
| `Verdicts.ScreenDecides` | crates/tma-core/src/fold.rs:245-274 | over no protected hook claim a live screen decides by its newest blocker, else its newest working, else its newest idle record; idleness waits out the dwell of a working claim |
| `Verdicts.ScreenAgainstHook` | crates/tma-core/src/fold.rs:296-369 | over a protected hook claim agreement advances its instant, a newer blocker takes over, and anything else waits for the decay of the claim in seconds, and then overrides it |
| `Verdicts.NothingDecides` | crates/tma-core/src/fold.rs:276-284 | a live screen without a claim leaves the stored one as it is |
| `Verdicts.ScreenCases` | crates/tma-core/src/fold.rs:222-284 | every live screen falls under one of these cases |
| `Verdicts.WindowsExactly` | crates/tma-core/src/fold.rs:51-75 | a claim decays after its state's seconds, on a state the screen can show; the dwell is in seconds too |
| `Verdicts.ResetExactly` | crates/tma-core/src/fold.rs:118-126 | an episode ends when both agents are known and differ |
| `Verdicts.AttentionExactly` | crates/tma-core/src/fold.rs:416-444 | attention marks entering `blocked` and the completion of work |
| `Cycle.PlanIsPaired` | crates/tma-tmux/src/stamp.rs:58-117 | every guard chosen for a verdict is paired with its claim, so a capture chain never tears |
| `Cycle.OverrideDiscipline` | crates/tma-core/src/fold.rs:186-284 | a publish without the right to override never contradicts a protected hook claim, except for blocker chrome that postdates it |
| `Cycle.CycleCommits` | crates/tma-tmux/src/stamp.rs:58-117 | for every store, on the chain or the grouped transaction: one fold-write-read cycle leaves a readable tuple if and only if the markers it does not rewrite are numbers and no undecodable hook tuple refused it (the chain's fresh bookkeeping may still make that one decode); what is read is the verdict unless the guard refused it, which it does exactly over a stored hook claim of `unknown` and over a tuple that does not decode but says `hook` |
| `Cycle.CommittedCycle` | crates/tma-core/src/fold.rs:418-444 | a committed verdict is read back with its state, provenance, evidence time, pid and attention, on either lane, if and only if the cycle was an episode reset or the markers are numbers |
| `Cycle.HookClaimReads` | crates/tma-core/src/fold.rs:156-178 | a cycle that brings a hook claim is read back as the newest one, on either lane, if and only if it was an episode reset or the markers are numbers |
| `Cycle.StuckCycle` | crates/tma-core/src/render.rs:96-121 | a refused verdict leaves the stored claim of `unknown` standing, evidence time and all; the chain refreshes the pid, the transaction writes nothing |
| `Cycle.StuckWitness` | crates/tma-core/src/render.rs:96-121 | the refusal is reachable under every tuning: an idle screen over a hook claim of `unknown` is judged idle and never gets through |
| `Cycle.HiddenCycle` | crates/tma-runtime/src/cycle.rs:142-149 | over an undecodable tuple that says `hook` a refused transaction writes nothing at all, and a refused chain is readable exactly when the rest of the tuple parses |
| `Cycle.GarbledHookWitness` | crates/tma-runtime/src/cycle.rs:142-149 | such a refusal is reachable under every tuning: a working screen is judged working and the pane is not repaired |
| `Cycle.GarbledMarkerWitness` | crates/tma-runtime/src/cycle.rs:142-149 | a blocker is written beside a marker that is no number, and no reader sees it |
| `Cycle.BadMarkerNeverRepaired` | crates/tma-runtime/src/cycle.rs:142-149 | once a marker option is no number, no run of cycles makes the pane decode again, whatever they observe |
| `Cycle.HiddenHookNeverRepaired` | crates/tma-runtime/src/cycle.rs:142-149 | on the transaction an undecodable hook tuple stays as it is, byte for byte, over every run of cycles without a hook event, a foreign foreground or a newer blocker |
| `Cycle.WrittenRead` | crates/tma-tmux/src/persistence.rs:409-442 | a publish the guard lets in is read back as the claim it carried, from the chain and from the grouped transaction, if and only if the bookkeeping it leaves alone is readable |
| `Cycle.HookClaimPersists` | crates/tma-core/src/fold.rs:296-369 | over every run in which no cycle meets the flip condition a protected hook claim survives and stays protected |
| `Cycle.SilenceHolds` | crates/tma-core/src/fold.rs:446-483 | after any number of silent cycles the decoded claim differs only in freshness and hash |
| `Cycle.DwellProgress` | crates/tma-core/src/fold.rs:186-284 | a capture `working` that sees only idle chrome is held with its evidence time frozen through the dwell window, and the first cycle past it publishes idle with attention: no livelock |
| `Cycle.BlockerLandsExactly` | crates/tma-core/src/fold.rs:186-284 | on a live agent screen, blocker chrome over a non-hook prior or none is read as blocked, with attention on entry, if and only if the tuple decoded, or its markers are numbers and it does not say `hook` with evidence at least as new as the newest blocker |
| `Cycle.UnknownHookNeverLeaves` | crates/tma-core/src/fold.rs:487-489 | once its hooks have claimed `unknown`, a pane never leaves that state through working or idle chrome, however many cycles show it |
| `Window.HookWinsTransaction` | crates/tma-tmux/src/stamp.rs:58-60 | a hook event that lands between a cycle's read and its grouped write wins outright: the cycle writes nothing, not even its bookkeeping |
| `Window.CycleDropsHook` | crates/tma-tmux/src/stamp.rs:368-401 | the other way round, a cycle that commits between a hook event's read and its commit, if only its bookkeeping, makes the event drop out |
| `Window.HookWinsChainExactly` | crates/tma-tmux/src/stamp.rs:58-86 | on the chain a hook claim that lands in the window stands if and only if the cycle holds, says the same, or has no right to override and brings no newer blocker |
| `Window.CorroborationRewritesTime` | crates/tma-tmux/src/stamp.rs:73-75 | on the chain a corroboration that finds its state in the store rewrites the evidence time of the hook claim there, and can move it back |
| `Window.DecayOverridesHook` | crates/tma-tmux/src/stamp.rs:66-70 | the exception is reachable: decayed idle chrome is published over a question the hook reported after the read |
| `Gate.GateExact` | crates/tma-core/src/action/gate.rs:225-304 | the gate opens if and only if applicability, coverage, requirements and `when` all hold, and each refusal names the most permanent condition that fails |
| `Gate.AppliesExactly` | crates/tma-core/src/action/gate.rs:163-175 | whom an action is for: an exec action for its list, or for all without one; the others for the agents of their transports |
| `Gate.RequiresExactly` | crates/tma-core/src/action/gate.rs:86-110 | nothing required is missing: session, directory, pid or title |
| `Gate.ForceSkipsWhenOnly` | crates/tma-runtime/src/broker.rs:837-855 | forcing opens a refusing gate only over `gated` or `no-coverage`; requirements and API preconditions are never skipped |
| `Gate.ForcedNoCoverageWitness` | crates/tma-core/src/action/gate.rs:227-233 | `no-coverage` can be forced, although the gate's notes reserve that for `gated` |
| `Gate.PayloadExact` | crates/tma-core/src/action/gate.rs:193-218 | a message is accepted if and only if it is one line of visible text of at most 4096 bytes whose first visible character is no declared sigil |
| `Gate.BlamedExactly` | crates/tma-core/src/action/gate.rs:193-218 | a refused message is blamed for being blank, then for its length, then for a control character, then for its first character |
| `Gate.PayloadRefusalExactly` | crates/tma-runtime/src/broker.rs:539-627 | a payload is refused exactly for its message, or for labels a transport takes and the caller has not picked |
| `Gate.ApiRequestTotal` | crates/tma-runtime/src/broker.rs:744-749 | under the lock the request of every API operation exists: the payload rule, the API preconditions and the loader's reply rule leave no missing part |
| `Gate.ApiRequestExact` | crates/tma-runtime/src/broker.rs:888-922 | a request exists if and only if its id, its verdict and its labels are there where the operation takes them |
| `Gate.PathNamesTarget` | crates/tma-runtime/src/broker.rs:893-922 | requests of one operation that agree on the path address the same id |
| `Wire.PathReads` | crates/tma-runtime/src/broker.rs:888-922 | the path splits into the operation's own noun, the pane's own id for it and its verb, if and only if the id holds no slash |
| `Wire.ReplyReads` | crates/tma-runtime/src/broker.rs:898-907 | the string reader finds under `reply` in the body the literal of the transport's verdict |
| `Wire.AnswersRead` | crates/tma-runtime/src/broker.rs:927-942 | a JSON reader gets from the body of a question reply exactly the picked labels, question by question |
| `Wire.BodylessReads` | crates/tma-runtime/src/broker.rs:888-922 | a rejection and an interrupt, and they alone, send no body |
| `Wire.PreconditionsExactly` | crates/tma-runtime/src/broker.rs:837-886 | the API preconditions are an endpoint and a nonempty id of the operation's own kind |
| `Repeat.StoredReads` | crates/tma-runtime/src/broker/audit.rs:170-179 | a stored run reads back for its own episode and action and for no other |
| `Repeat.NewRunCountsOne` | crates/tma-runtime/src/broker/audit.rs:158-179 | the first fire of a run counts one, whatever else was stored |
| `Repeat.CountsTheRun` | crates/tma-runtime/src/broker/audit.rs:158-168 | after any sequence of fires the option holds the length of the run of equal fires at its end, continued from the count stored before when the run reaches back to the first fire, saturating at 32 bits |
| `Protocol.IntendedTotal` | crates/tma-runtime/src/broker.rs:725-833 | with a licence there is always something to deliver: no arm under the lock falls through to a refusal |
| `Protocol.HeldActed` | crates/tma-runtime/src/broker.rs:707-833 | a hold that acted performs one effect, guarded, counted, reported and released, for the agent first identified |
| `Protocol.HeldSafe` | crates/tma-runtime/src/broker.rs:539-627 | everything a run keeps follows from its pieces: the opening, the acquired lock, the hold and the release; the agent read under the lock is the one first identified |
| `Broker.ActSequence` | crates/tma-runtime/src/broker.rs:539-627 | whatever the environment answers: the outcome is the one the answers determine; at most one effect; each effect strictly between acquire and clear, for the agent first identified, licensed by the only read taken under the lock (same agent, gate or forced requirements, API preconditions, the caller's episode and request, spelled out in `Runs`), and the one intended, a hook verdict only behind a positive probe and a key fallback only behind a negative one; the acquired nonce cleared once and last if and only if nothing was spawned; refusals touch nothing; a payload refusal makes no call; stale stamps, and only they, are refreshed before a keystroke; the audit record describes the run |
| `Runs.HoldEndsExactly` | crates/tma-runtime/src/broker.rs:426-442 | what a run that read the pane under its lock ends in: a changed agent, the gate's reason, `EpisodeChanged` exactly when the expected episode differs, `RequestGone` exactly when only the expected request does, and an effect exactly when nothing of this fails |
| `Runs.EffectIsBound` | crates/tma-runtime/src/broker.rs:426-442 | every effect is performed in the episode and for the request the caller named |
| `Runs.EffectExactly` | crates/tma-runtime/src/broker.rs:661-833 | each of the six effects belongs to one kind of action and one transport, and carries what the manifest, the caller and the pane say |
| `Runs.OutcomeExactly` | crates/tma-runtime/src/broker.rs:661-833 | each outcome of an effect belongs to one answer; a delivered request is a reply exactly if it answers one the agent made |
| `Runs.SpentExactly` | crates/tma-runtime/src/broker.rs:744-777 | a request id is spent exactly by a delivered answer to it |
| `Runs.CountExactly` | crates/tma-runtime/src/broker.rs:643-654 | the stored counter is one past what was stored for this episode and action |
| `Runs.StopsExactly` | crates/tma-runtime/src/broker.rs:539-627 | a run that ends before its lock ends by its last call, with the outcome that call demands |
| `Runs.FailedReadEnds` | crates/tma-runtime/src/broker.rs:707-726 | a read under the lock that brings nothing ends the run |
| `Runs.KeystrokesAreFresh` | crates/tma-runtime/src/broker.rs:560-594 | a keystroke rests on a stamp younger than three seconds and not from the future, or is verified and read again first; nothing else is |
| `Runs.LockDeadline` | crates/tma-runtime/src/broker.rs:595-627 | the lock is asked for until five seconds past the action's own time limit |
| `Runs.PaneGoneExactly` | crates/tma-runtime/src/broker.rs:961-977 | a failed call means a gone pane if and only if tmux says so in one of its three wordings, in any case |
| `Broker.ActUnderLock` | crates/tma-runtime/src/broker.rs:707-833 | the synchronous hold is one read, and then nothing or the counted fire, the intended effect and the spending of the request it answered |
| `Broker.DeliverKeys` | crates/tma-runtime/src/broker.rs:727-805 | the API, the hook lane and the key sequence are tried in that order, and the hook lane only where a request is parked |
| `Broker.DeliverApi` | crates/tma-runtime/src/broker.rs:728-777 | the API arm sends the operation's request and spends the id only on a delivered answer |
| `Broker.SpawnDetachedUnderLock` | crates/tma-runtime/src/broker.rs:661-701 | the detached hold hands the same lock to one supervisor, under the same licence |
| `Broker.PassGate` | crates/tma-runtime/src/broker.rs:560-594 | identity, freshness and gate before the lock: a stale keystroke is re-verified and re-read first |
| `Broker.BumpRepeat` | crates/tma-runtime/src/broker.rs:643-654 | the run counter is advanced by exactly one fire, read from the facts taken under the lock |
| `Lease.LeaseSchedule.Action` | crates/tma-core/src/persistence.rs:929-949 | the answer and the revocation the call causes, as the schedule functions state them |
| `Lease.LeaseSchedule.Confirm` | crates/tma-core/src/persistence.rs:951-970 | the confirmation and the anchor it moves, as the schedule functions state them |
| `Lease.AnswerBoundsWall` | crates/tma-core/src/persistence.rs:929-949 | any answer but `Revoke` implies wall time under the last epoch plus 17000 |
| `Lease.AnswersExactly` | crates/tma-core/src/persistence.rs:929-949 | each answer, in milliseconds of both clocks, and the expiry a renewal is told to write |
| `Lease.ReadersExactly` | crates/tma-core/src/persistence.rs:99-101 | a reader accepts a lease from 17000 ms before its expiry until just before it |
| `Lease.ConfirmKeepsExpiry` | crates/tma-core/src/persistence.rs:949-970 | the lease a confirmation anchors is the one its renewal was told to write: the deadline counts from the submission, however late the write completed |
| `Lease.UnconfirmedKeepsAnchor` | crates/tma-core/src/persistence.rs:951-970 | without a confirmation the deadline stays, and only a failed clock check revokes |
| `Lease.AnchorsAreWrites` | crates/tma-core/src/persistence.rs:949-970 | over every run, each anchor after the first expires when the readers were told, and counts from the submission of that write |
| `Lease.NeverOutlivesWrite` | crates/tma-core/src/persistence.rs:949-970 | after any run, an answer other than `Revoke` comes less than 15000 ms after the last written lease was submitted and less than the slack after it expired |
| `Lease.HeldLeaseLiveness` | crates/tma-core/src/persistence.rs:99-101 | while the scheduler holds, readers at the same instant accept the last written lease exactly until its nominal expiry |
| `Lease.SlackWindowWitness` | crates/tma-core/src/persistence.rs:99-101 | the clock slack is a window in which the scheduler still waits on a lease readers have already dropped |
| `Lease.RenewedLeaseReaders` | crates/tma-core/src/persistence.rs:99-101 | a renewed lease is accepted by exactly the readers from 2000 ms behind its submission until its expiry |
| `Lease.RevocationAbsorbs` | crates/tma-core/src/persistence.rs:914-970 | revocation is absorbing: nothing afterwards renews, confirms or moves the anchor |
| `Lease.AnchorsPaced` | crates/tma-core/src/persistence.rs:48-51 | consecutive confirmed anchors are at least 5000 and under 15000 monotonic ms apart with drift at most 2000, so written expiries advance by at least 3000, over every run of calls |
| `Lease.RunEndsAtLastAnchor` | crates/tma-core/src/persistence.rs:914-970 | the scheduler's anchor is the last confirmed one: the state advances only through confirmation |
| `Lease.RenewalsOverTime` | crates/tma-core/src/persistence.rs:914-970 | drift does not accumulate faster than the slack per renewal over `k` confirmations |
| `Decimal.NumberCanonical` | crates/tma-core/src/persistence.rs:104-110 | the number reader accepts exactly the renderings of 64-bit values |
| `Codec.LeaseExact` | crates/tma-core/src/persistence.rs:83-101 | a text parses to a lease if and only if the lease is well formed and the text is its encoding; the byte cap rejects no encoding |
| `Codec.ProcessExact` | crates/tma-core/src/persistence.rs:112-146 | the same for a process identity, Linux or macOS birth |
| `Codec.ChainExact` | crates/tma-core/src/persistence.rs:148-187 | the same for a chain of 1 to 256 processes with distinct pids |
| `Codec.OwnerExact` | crates/tma-core/src/persistence.rs:191-230 | the same for a pane owner |
| `Codec.CommitExact` | crates/tma-core/src/persistence.rs:233-254 | the same for a commit marker |
| `Codec.ResultExact` | crates/tma-core/src/persistence.rs:257-319 | the same for a persisted result |
| `Codec.ClaimExact` | crates/tma-core/src/persistence.rs:322-341 | the same for a notification claim |
| `Codec.HistoryExact` | crates/tma-core/src/persistence.rs:367-416 | the same for a blocked history |
| `Codec.UpdateExact` | crates/tma-core/src/persistence.rs:640-672 | the same for a metadata update |
| `Formats.TokenExactly` | crates/tma-core/src/persistence.rs:59-82 | a token is 32 lower-case hexadecimal digits |
| `Formats.RecordIdExactly` | crates/tma-core/src/program_status/mod.rs:42-69 | a record id is empty, or at most 128 bytes of one to eight segments of one to 32 identifier characters |
| `Formats.IdentifierExactly` | crates/tma-core/src/program_status/mod.rs:42-44 | an identifier is made of ASCII letters and digits and four marks |
| `Formats.ChainExactly` | crates/tma-core/src/persistence.rs:148-187 | which chains are valid, one process at a time: any first, up to 256, no pid twice |
| `Formats.ProcessText` | crates/tma-core/src/persistence.rs:112-146 | a process as a text, for either birth |
| `Formats.ChainText` | crates/tma-core/src/persistence.rs:148-187 | a chain as a text, one process more at a time |
| `Formats.MetadataOwnerExactly` | crates/tma-core/src/persistence.rs:697-737 | a metadata owner names a process and a printable session of up to a kibibyte |
| `Formats.LeaseText` | crates/tma-core/src/persistence.rs:83-101 | a lease as a text |
| `Formats.OwnerText` | crates/tma-core/src/persistence.rs:191-230 | an owner as a text |
| `Formats.ResultText` | crates/tma-core/src/persistence.rs:257-319 | a result as a text |
| `Formats.HistoryText` | crates/tma-core/src/persistence.rs:367-416 | a blocked history as a text |
| `Formats.UpdateText` | crates/tma-core/src/persistence.rs:640-672 | a metadata update as a text, by its lane |
| `MetadataOwner.HexExact` | crates/tma-core/src/persistence.rs:705-737 | hex decoding and encoding are inverse on lower-case hex texts |
| `MetadataOwner.OwnerExact` | crates/tma-core/src/persistence.rs:697-737 | the same bijection for a metadata owner whose session is hex-coded printable UTF-8 |
| `Utf8.EncodedLeads` | crates/tma-core/src/persistence.rs:697-737 | the bytes of a character are one well-formed sequence (RFC 3629), as long as the byte count says |
| `Utf8.LeadIsEncoded` | crates/tma-core/src/persistence.rs:697-737 | and every well-formed sequence is the bytes of a character |
| `Utf8.PrintableExactly` | crates/tma-core/src/persistence.rs:697-737 | a session that is accepted is the bytes of a text without control characters |
| `Utf8.TextPrints` | crates/tma-core/src/persistence.rs:697-737 | and every such text is accepted |
| `Utf8.EncodedLength` | crates/tma-core/src/persistence.rs:104-110 | the byte length the caps are checked against is the length of the bytes |
| `Projection.LiveExactly` | crates/tma-core/src/persistence.rs:844-876 | a read is live if and only if the private texts are those one collector wrote, its lease is one the reader accepts, and the public tuple is a settled hook stamp of the agent it owns |
| `Projection.NeverLegacy` | crates/tma-core/src/persistence.rs:844-851 | once a program has left a private mark, no clock turns the public tuple into an unowned one |
| `Projection.LegacyExactly` | crates/tma-core/src/persistence.rs:844-851 | a read is unowned if and only if all private texts are empty, and then it is the public tuple as it decodes |
| `Projection.UndecodableExactly` | crates/tma-core/src/persistence.rs:844-876 | a read fails if and only if the tuple does not decode and there is no private mark or a current authority |
| `Projection.AuthorityLapses` | crates/tma-core/src/persistence.rs:844-876 | a live read stays live, unchanged, exactly up to the lease's expiry, and the same texts are never live again |
| `Quote.PassesFuse` | crates/tma-core/src/render.rs:24-29 | the two replacement passes of the quoting are one character map |
| `Quote.ArgumentReads` | crates/tma-core/src/render.rs:21-29 | a printed argument is read back as one word, whatever it holds |
| `Quote.GroupRoundTrip` | crates/tma-core/src/render.rs:45-70 | printing a command group and reading it back gives exactly the argument lists, for arbitrary strings, if and only if no command is empty |
| `Json.EmitsValue` | crates/tma-runtime/src/json.rs:14-123 | emitting any value tree appends exactly its serialization, after a comma when one is due, and restores the scope stack |
| `Json.WriterEmitsDocument` | crates/tma-runtime/src/json.rs:14-123 | a fresh writer driven by a value's calls finishes with exactly its serialization and every scope closed |
| `JsonReader.ValueReads` | crates/tma-runtime/src/json.rs:14-145 | whatever follows it, every rendered value without verbatim parts reads back as itself (RFC 8259) |
| `JsonReader.DocumentReads` | crates/tma-runtime/src/json.rs:14-145 | and a document to its last character |
| `JsonWriter.WriteDocument` | crates/tma-runtime/src/json.rs:14-123 | a fresh writer object driven through a document's calls returns its serialization with every scope closed |
| `JsonWriter.JsonWriter.WriteJsonString` | crates/tma-runtime/src/json.rs:131-145 | the appending loop writes exactly the escaped string |
| `JsonWriter.WriteLabels` | crates/tma-runtime/src/broker.rs:932-938 | one list of picked labels is written verbatim, in order |
| `JsonWriter.AnswersBody` | crates/tma-runtime/src/broker.rs:927-942 | the body of a question reply is the serialization of the labels, one list per question |
| `Telemetry.FindObject` | crates/tma-core/src/telemetry.rs:611-647 | the quote-aware brace loop returns what the scan automaton says, with depth never below zero |
| `Telemetry.ObjectFound` | crates/tma-core/src/telemetry.rs:603-647 | started on the text of any object, whatever follows it, the scan returns exactly that text; on every proper prefix it returns nothing |
| `Telemetry.WrittenObjectFound` | crates/tma-core/src/telemetry.rs:603-647 | the scanner against the writer: any object the writer emitted is found whole, and a cut one is not found |
| `Telemetry.DocumentObjectFound` | crates/tma-core/src/telemetry.rs:603-647 | a document whose first `"key"` introduces a written object yields exactly that object; cut anywhere inside it, nothing |
| `Telemetry.FindString` | crates/tma-core/src/telemetry.rs:580-601 | the decoding loop returns what the string automaton says |
| `Telemetry.DecodeWritten` | crates/tma-core/src/telemetry.rs:580-601 | what the reader makes of every written string, whatever follows the closing quote |
| `Telemetry.StringRoundTrip` | crates/tma-core/src/telemetry.rs:580-601 | the reader inverts the writer if and only if the string's only control characters are newline and tab |
| `Newest.ScanNewest` | crates/tma-core/src/telemetry.rs:174-187 | one pass over the lines keeps the latest reading |
| `Newest.NewestExact` | crates/tma-core/src/telemetry.rs:476-484 | the newest record is the last line that reads; a truncated line after it neither hides nor replaces it |
| `Newest.HighestIsFirstMaximum` | crates/tma-core/src/telemetry.rs:350-360 | the reported quota window is exceeded by none and is the first declared among equals |
| `Newest.WorstExact` | crates/tma-core/src/telemetry.rs:347-361 | a report exists if and only if there is a reading, and keeps every window |
| `Memory.HookReflects` | crates/tma-runtime/src/capture.rs:176-184 | a hook event restarts the counter and keeps the previous claim unless it makes one |
| `Memory.EdgeReflects` | crates/tma-runtime/src/capture.rs:487-511 | what one activity edge adds: nothing while the hook claim is fresh or an uncontradicted `working`, one otherwise |
| `Memory.NoteKeeps` | crates/tma-runtime/src/capture.rs:497-535 | memory and log still agree after a note: the pane is tracked, its counter is its history, touch stamps order panes by recency, and `demotions` counts the flips |
| `Memory.DropKeeps` | crates/tma-runtime/src/capture.rs:474-482 | and after an eviction, a forgotten pane, a sweep, or the end of an episode |
| `Memory.LookKeeps` | crates/tma-runtime/src/capture.rs:456-472 | and after a scheduled look, which never exceeds three per episode |
| `Memory.ClearsExactly` | crates/tma-runtime/src/capture.rs:434-482 | what clears a pane's memory, and that nothing which names another pane does |
| `Memory.SuspectExactly` | crates/tma-runtime/src/capture.rs:497-516 | no threshold, or one of zero, still takes one counting edge |
| `Memory.BoundsExactly` | crates/tma-runtime/src/capture.rs:456-535 | the bounds in numbers: three looks an episode, 4096 panes in either memory |
| `Capture.CaptureState.OnHookEvent` | crates/tma-runtime/src/capture.rs:176-184 | the log grows by the event, the pane is tracked and no longer demoted, and a full memory gave up its least recently touched entry |
| `Capture.CaptureState.NoteEdge` | crates/tma-runtime/src/capture.rs:497-516 | the pane is demoted if and only if its counting edges since its last hook event, or since it was (re)inserted, reached the threshold |
| `Capture.CaptureState.EntryMut` | crates/tma-runtime/src/capture.rs:519-535 | the touched entry reflects the pane's history, and eviction happens exactly when a new pane meets a full memory |
| `Capture.CaptureState.Oldest` | crates/tma-runtime/src/capture.rs:523-529 | the victim is the least recently touched pane |
| `Capture.CaptureState.NoteForegroundCap` | crates/tma-runtime/src/capture.rs:456-472 | a capped verdict schedules a look exactly while its episode has budget; an uncapped one ends the episode |
| `Capture.CaptureState.ForgetPane` | crates/tma-runtime/src/capture.rs:476-479 | both memories drop the pane |
| `Capture.CaptureState.Prune` | crates/tma-runtime/src/capture.rs:434-441 | the sweep keeps the memory of live panes only |
| `Capture.CaptureState.TakeRecheck` | crates/tma-runtime/src/capture.rs:446-448 | the owed looks are handed over once |
| `Ansi.StripAnsi` | crates/tma-core/src/engine.rs:276-317 | the stripping loop computes what the five-mode automaton shows |
| `Ansi.StripIdempotent` | crates/tma-core/src/engine.rs:274-317 | the output holds no escape, and stripping it again changes nothing |
| `Ansi.StripDistributes` | crates/tma-core/src/engine.rs:276-317 | stripping distributes over concatenation with every text if and only if the first part ends with its last control sequence complete |
| `Ansi.ControlSequenceVanishes` | crates/tma-core/src/engine.rs:286-294 | a whole control sequence vanishes wherever it stands between complete texts |
| `Ansi.SystemCommandVanishes` | crates/tma-core/src/engine.rs:295-309 | so does an operating system command, ended by a bell or by a string terminator |
| `Ansi.BrokenCommandVanishes` | crates/tma-core/src/engine.rs:295-309 | one that another escape breaks off vanishes too, and what follows is read afresh |
| `Ansi.EscapePairVanishes` | crates/tma-core/src/engine.rs:310-314 | any other escape takes one character with it |
| `Ansi.FinalsExactly` | crates/tma-core/src/engine.rs:286-294 | the final characters are those from `@` to `~` |
| `Regions.BottomIsTailOfContent` | crates/tma-core/src/engine.rs:252-260 | `bottom_non_empty_lines(n)` is `tail_lines(n)` of the capture without its trailing rows that strip to blank |
| `Regions.BlankExactly` | crates/tma-core/src/engine.rs:252-260 | a row is blank when every character of it that shows is white space |
| `Regions.ContentEndsOnce` | crates/tma-core/src/engine.rs:252-260 | every capture has exactly one such end of content |
| `Regions.LastMatchesExact` | crates/tma-core/src/engine.rs:326-334 | `last_matching_line` judges the last selected line and no other |
| `Regions.Match` | crates/tma-core/src/engine.rs:320-338 | the search as it runs, loop by loop, finds what the matcher means |
| `Regions.ConnectivesDual` | crates/tma-core/src/engine.rs:320-338 | of a matcher and its negation exactly one accepts; `all` fails exactly where `any` of the negations holds, and the other way round; `all` of nothing accepts and `any` of nothing does not |
| `Regions.ConnectivesGrow` | crates/tma-core/src/engine.rs:320-338 | one child more narrows `all` and widens `any` by exactly that child |
| `Regions.LeavesExact` | crates/tma-core/src/engine.rs:320-338 | `contains` is an occurrence at some index; the expressions are the oracle's on the text, on some line, and on the last line the selector picks |
| `Regions.RegionsExact` | crates/tma-core/src/engine.rs:241-272 | each region reads its own window, and the control sequences are gone from it |
| `Regions.LinesRead` | crates/tma-core/src/engine.rs:241-272 | the lines of a text with any mixture of the two line endings, its last line ended or not |
| `Selection.Entered` | crates/tma-core/src/engine.rs:185-193 | the entry a candidate leaves behind wins among all rules met so far |
| `Selection.RankIsTokenOrder` | crates/tma-core/src/engine.rs:196-225 | the order of the claims is the order of the states' tokens as texts |
| `Selection.WinsOnce` | crates/tma-core/src/engine.rs:185-193 | a state has one winner |
| `Selection.EmittedOnce` | crates/tma-core/src/engine.rs:196-225 | the claims are settled by the reports: no others may be emitted, in no other order |
| `Engine.Evaluate` | crates/tma-core/src/engine.rs:155-225 | every rule is reported; exactly one claim per state that has a matched non-skip rule, by the highest priority and then the lowest index, in token order; history is flagged exactly by a matched skip rule |
| `Edge.DiffRows` | crates/tma-core/src/edge.rs:43-67 | the two loops produce the changes in the order of the later observation, then the departures in the order of the earlier one |
| `Edge.DiffForPane` | crates/tma-core/src/edge.rs:32-67 | a pane has one edge, from its old class to its new one, if and only if its class changed, appeared or vanished |
| `Edge.DiffReplays` | crates/tma-core/src/edge.rs:32-67 | replaying a diff on the earlier observation gives the later one |
| `Edge.DiffEmptyExactly` | crates/tma-core/src/edge.rs:32-67 | the diff is empty if and only if the observations agree on every pane's class |
| `Edge.StreamReconstructs` | crates/tma-core/src/edge.rs:32-67 | replaying every streamed diff reconstructs the last observation |
| `Edge.EdgeSays` | crates/tma-core/src/edge.rs:32-67 | every edge leads from the class its pane had to the different one it has, and carries what the last row seen of the pane says |
| `Edge.DiffRewinds` | crates/tma-core/src/edge.rs:32-67 | a diff can be taken back: from the later observation it leads to the earlier one |
| `Edge.DiffInOrder` | crates/tma-core/src/edge.rs:43-67 | the edges that lead somewhere come first, in the order of the later observation, then the departures in the order of the earlier one |
| `Edge.ClassExactly` | crates/tma-core/src/edge.rs:1-31 | `done` is idle with attention, and every other class is the state |

## Left out

- tmux, sockets, processes, files and HTTP themselves: their answers are parameters or arbitrary.
- TOML loading and the validation of manifests: the result of validation is `Gate.Action.WellFormed`.
- The text form of tmux formats, and `literal_tmux_format`: formats are an expression tree; the detail
  filter that protects the text form is kept.
- Session, transcript and subagent options, pane ids, labels and `meta` strings: they decide nothing here.
- The selection among several program reports: the fold takes the selected report as an argument.
- Percent rounding, cost and money formatting: floating point.
- Broker.BrokerIo: stands for the tmux, HTTP and hook-lane effects; the context environment of an exec
  action and the lock's own server-side protocol are not part of it.
- Broker.ActSequence: the warning printed from the third repeated fire on is not modelled.
- Capture.CaptureState: `set_config` is not modelled, the threshold is fixed for an object's life; the clock
  and the monotone totals are unbounded.
- The removal of a tuple when its agent is gone or its pane ignored, the `turn_end` hook that writes the
  turn marker beside its stamp, and the notification claims that write theirs: `Cycle` is about cycles that
  fold, write and read.
- The capture path around the daemon memory (`handle_edges`, `run_sweep` beyond its pruning): I/O.
- Selection.Selected: the engine's short list of (state, index) pairs is a map from state to index.
- Engine.Emit: the sort by token is modelled by its result, the four tokens being in a fixed order.
- Telemetry.FindObject: characters, not bytes, are scanned; every delimiter is ASCII.
- MetadataOwner.OwnerExact: the session is the sequence of its UTF-8 bytes.
- Quote.Lex: escapes and characters outside the stated quoting rules are reading failures.
- Grouped.Group: one evaluation of the guard before all edits, read and committed in one step; the
  comparison with what was read before is `Overlap.Submit`. The predicates on program and metadata owners,
  the companions of an edit and the check for option hooks are not modelled.
- Overlap.Server: a receipt is a count of the writes that took one, fresh tokens being distinct.
- Schedule.Event: other writers are transactions that leave the arbitrated claim alone; the cycle as
  another writer of the claim is in `Window`.
- Protocol.Outcome: the texts of errors are dropped.
- Numeric telemetry fields (`find_number`, context percents): floating point.
- `BlockedHistory` identities, attention revisions and result histories: further codecs of the same shape.
