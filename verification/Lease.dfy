/** The collector lease: a scheduler on two clocks. Every decision compares how far the monotonic
    and the wall clock have moved since the last confirmed write. */
module Lease {
  import opened Basics

  const LEASE_RENEW_MS: u64 := 5_000
  const LEASE_DURATION_MS: u64 := 15_000
  const LEASE_FUTURE_MS: u64 := 17_000
  const CLOCK_SLACK_MS: u64 := 2_000

  /** The two clocks sampled at one IO boundary. */
  datatype Time = Time(mono: u64, epoch: u64)

  datatype Action = Wait | Renew(expiresAt: u64) | Revoke

  /** A reader accepts a lease that has not expired and does not lie too far ahead. */
  predicate LiveAt(expiresAt: u64, now: u64) {
    now < expiresAt <= SatAdd(now, LEASE_FUTURE_MS)
  }

  function AbsDiff(a: int, b: int): nat {
    if a < b then b - a else a - b
  }

  /** Both clocks moved forward, by amounts that differ by at most the slack. */
  predicate Continuous(from: Time, to: Time) {
    && from.mono <= to.mono && from.epoch <= to.epoch
    && AbsDiff(to.mono - from.mono, to.epoch - from.epoch) <= CLOCK_SLACK_MS
  }

  datatype Schedule = Schedule(last: Time, revoked: bool) {
    /** Whether a sample at `at` still extends the last confirmed write. */
    predicate Holds(at: Time) {
      !revoked && Continuous(last, at) && at.mono - last.mono < LEASE_DURATION_MS
    }

    function ActionAt(at: Time): Action {
      if !Holds(at) then Revoke
      else if at.mono - last.mono < LEASE_RENEW_MS then Wait
      else Renew(SatAdd(at.epoch, LEASE_DURATION_MS))
    }

    function AfterAction(at: Time): Schedule {
      if Holds(at) then this else this.(revoked := true)
    }

    predicate Confirms(submission: Time, completion: Time) {
      && Continuous(submission, completion)
      && Holds(completion)
      && ActionAt(submission).Renew?
    }

    /** A confirmation that fails a clock check revokes; one that is merely early changes nothing. */
    function AfterConfirm(submission: Time, completion: Time): Schedule {
      if !Continuous(submission, completion) || !Holds(completion) || !Holds(submission) then this.(revoked := true)
      else if ActionAt(submission).Renew? then this.(last := submission)
      else this
    }
  }

  /** The scheduler object. */
  class LeaseSchedule {
    var last: Time
    var revoked: bool

    ghost function Current(): Schedule
      reads this
    {
      Schedule(last, revoked)
    }

    constructor Committed(at: Time)
      ensures Current() == Schedule(at, false)
    {
      last := at;
      revoked := false;
    }

    method Action(at: Time) returns (action: Action)
      modifies this
      ensures action == old(Current()).ActionAt(at)
      ensures Current() == old(Current()).AfterAction(at)
    {
      var elapsed := if at.mono < last.mono then None else Some(at.mono - last.mono);
      var wall := if at.epoch < last.epoch then None else Some(at.epoch - last.epoch);
      if revoked || elapsed.None? || wall.None? || elapsed.value >= LEASE_DURATION_MS
         || AbsDiff(elapsed.value, wall.value) > CLOCK_SLACK_MS {
        revoked := true;
        return Revoke;
      }
      if elapsed.value < LEASE_RENEW_MS {
        action := Wait;
      } else {
        action := Renew(SatAdd(at.epoch, LEASE_DURATION_MS));
      }
    }

    method Confirm(submission: Time, completion: Time) returns (confirmed: bool)
      modifies this
      ensures confirmed == old(Current()).Confirms(submission, completion)
      ensures Current() == old(Current()).AfterConfirm(submission, completion)
    {
      var elapsed := if completion.mono < submission.mono then None else Some(completion.mono - submission.mono);
      var wall := if completion.epoch < submission.epoch then None else Some(completion.epoch - submission.epoch);
      if elapsed.None? || wall.None? || AbsDiff(elapsed.value, wall.value) > CLOCK_SLACK_MS {
        revoked := true;
        return false;
      }
      var atCompletion := Action(completion);
      if atCompletion == Revoke {
        return false;
      }
      var atSubmission := Action(submission);
      if atSubmission.Renew? {
        last := submission;
        confirmed := true;
      } else {
        confirmed := false;
      }
    }
  }

  // ----- single answers ----------------------------------------------------------------------

  /** The answer, on both clocks: `Revoke` once revoked, when a clock ran backwards, when they drifted by
      more than two seconds, or fifteen seconds after the last write; a renewal from five seconds on. */
  lemma AnswersExactly(s: Schedule, at: Time)
    ensures var mono, epoch := at.mono - s.last.mono, at.epoch - s.last.epoch;
      && (s.ActionAt(at) != Revoke <==>
          !s.revoked && 0 <= mono < 15_000 && 0 <= epoch && -2_000 <= mono - epoch <= 2_000)
      && (s.ActionAt(at) == Wait <==> s.ActionAt(at) != Revoke && mono < 5_000)
      && (s.ActionAt(at).Renew? && at.epoch <= U64_MAX - 15_000 ==> s.ActionAt(at).expiresAt == at.epoch + 15_000)
    ensures s.AfterAction(at).last == s.last && (s.AfterAction(at).revoked <==> s.ActionAt(at) == Revoke)
  {
  }

  /** A reader accepts a lease from seventeen seconds before its expiry until just before it. */
  lemma ReadersExactly(expiresAt: u64, now: u64)
    ensures LiveAt(expiresAt, now) <==> 0 < expiresAt - now <= 17_000
  {
  }

  /** The lease a confirmation anchors is the one its renewal was told to write: the deadline counts from
      the submission, however late the write completed. */
  lemma ConfirmKeepsExpiry(s: Schedule, submission: Time, completion: Time)
    requires s.Confirms(submission, completion)
    ensures var anchored := s.AfterConfirm(submission, completion);
      && Expiry(anchored.last) == s.ActionAt(submission).expiresAt
      && anchored.last.mono == submission.mono && !anchored.revoked
  {
  }

  /** Without a confirmation the deadline stays, and a failed clock check revokes. */
  lemma UnconfirmedKeepsAnchor(s: Schedule, submission: Time, completion: Time)
    requires !s.Confirms(submission, completion)
    ensures var after := s.AfterConfirm(submission, completion);
      && after.last == s.last
      && (after.revoked <==> s.revoked || !Continuous(submission, completion)
                             || s.ActionAt(completion) == Revoke || s.ActionAt(submission) == Revoke)
  {
  }

  /** Any answer but `Revoke` bounds the wall clock by the future limit of the last epoch. */
  lemma AnswerBoundsWall(s: Schedule, at: Time)
    requires s.ActionAt(at) != Revoke
    ensures s.last.epoch <= at.epoch < s.last.epoch + LEASE_FUTURE_MS
  {
  }

  /** While the scheduler holds, readers at the same instant see the last written lease live
      exactly until its nominal expiry: the slack between the clocks is a window in which the
      scheduler still waits on a lease that readers no longer accept. */
  lemma HeldLeaseLiveness(s: Schedule, at: Time)
    requires s.ActionAt(at) != Revoke && s.last.epoch + LEASE_DURATION_MS <= U64_MAX
    ensures LiveAt(SatAdd(s.last.epoch, LEASE_DURATION_MS), at.epoch)
        <==> at.epoch < s.last.epoch + LEASE_DURATION_MS
  {
  }

  lemma SlackWindowWitness()
    ensures var s, at := Schedule(Time(0, 0), false), Time(14_000, 15_500);
      s.ActionAt(at).Renew? && !LiveAt(SatAdd(s.last.epoch, LEASE_DURATION_MS), at.epoch)
  {
  }

  /** A renewed lease is accepted by exactly the readers whose clock is between the slack behind its
      submission and its expiry. */
  lemma RenewedLeaseReaders(s: Schedule, at: Time, now: u64)
    requires s.ActionAt(at).Renew? && at.epoch + LEASE_DURATION_MS <= U64_MAX
    ensures LiveAt(s.ActionAt(at).expiresAt, now)
        <==> at.epoch - CLOCK_SLACK_MS <= now < at.epoch + LEASE_DURATION_MS
  {
  }

  // ----- runs --------------------------------------------------------------------------------

  datatype Call = Ask(at: Time) | Confirm(submission: Time, completion: Time)

  function Next(s: Schedule, c: Call): Schedule {
    match c
    case Ask(at) => s.AfterAction(at)
    case Confirm(submission, completion) => s.AfterConfirm(submission, completion)
  }

  function Run(s: Schedule, calls: seq<Call>): Schedule
    decreases |calls|
  {
    if calls == [] then s else Run(Next(s, calls[0]), calls[1..])
  }

  /** The anchors a run goes through, the first included. */
  function Anchors(s: Schedule, calls: seq<Call>): seq<Time>
    decreases |calls|
  {
    if calls == [] then [s.last]
    else
      var rest := Anchors(Next(s, calls[0]), calls[1..]);
      if calls[0].Confirm? && s.Confirms(calls[0].submission, calls[0].completion) then [s.last] + rest else rest
  }

  /** Revocation is absorbing: nothing afterwards renews, confirms or moves the anchor. */
  lemma {:induction false} RevocationAbsorbs(s: Schedule, calls: seq<Call>)
    requires s.revoked
    ensures Run(s, calls) == s && Anchors(s, calls) == [s.last]
    ensures forall at :: Run(s, calls).ActionAt(at) == Revoke
    ensures forall a, b :: !Run(s, calls).Confirms(a, b)
    decreases |calls|
  {
    if calls != [] {
      assert Next(s, calls[0]) == s;
      RevocationAbsorbs(s, calls[1..]);
    }
  }

  /** Two consecutive confirmed anchors. */
  predicate Paced(a: Time, b: Time) {
    && LEASE_RENEW_MS <= b.mono - a.mono < LEASE_DURATION_MS
    && Continuous(a, b)
  }

  /** The instant a confirmed write expires. */
  function Expiry(anchor: Time): u64 {
    SatAdd(anchor.epoch, LEASE_DURATION_MS)
  }

  lemma AnchorsStart(s: Schedule, calls: seq<Call>)
    ensures Anchors(s, calls) != [] && Anchors(s, calls)[0] == s.last
    decreases |calls|
  {
    if calls != [] { AnchorsStart(Next(s, calls[0]), calls[1..]); }
  }

  /** Over any run of calls, consecutive confirmed anchors are between the renewal interval and the
      lease duration apart on the monotonic clock, the two clocks having drifted by no more than
      the slack; so each written expiry is at least 3000 ms past the one before it, short of
      saturation, and readers never see two confirmed leases out of order. */
  lemma {:induction false} AnchorsPaced(s: Schedule, calls: seq<Call>, i: nat)
    requires i + 1 < |Anchors(s, calls)|
    ensures var a, b := Anchors(s, calls)[i], Anchors(s, calls)[i + 1];
      && Paced(a, b)
      && Expiry(a) <= Expiry(b)
      && (b.epoch + LEASE_DURATION_MS <= U64_MAX ==>
            Expiry(a) + (LEASE_RENEW_MS - CLOCK_SLACK_MS) <= Expiry(b))
    decreases |calls|
  {
    var next, rest := Next(s, calls[0]), calls[1..];
    AnchorsStart(next, rest);
    if calls[0].Confirm? && s.Confirms(calls[0].submission, calls[0].completion) {
      if i > 0 { AnchorsPaced(next, rest, i - 1); }
    } else {
      AnchorsPaced(next, rest, i);
    }
  }

  /** The scheduler's anchor is the last of them: the state advances only through confirmation. */
  lemma {:induction false} RunEndsAtLastAnchor(s: Schedule, calls: seq<Call>)
    ensures Anchors(s, calls) != []
    ensures Run(s, calls).last == Anchors(s, calls)[|Anchors(s, calls)| - 1]
    decreases |calls|
  {
    if calls != [] { RunEndsAtLastAnchor(Next(s, calls[0]), calls[1..]); }
  }

  /** Drift does not accumulate faster than the slack per renewal: `k` confirmations take between
      5000k and 15000k monotonic milliseconds and between 3000k and 17000k of wall time. */
  lemma {:induction false} RenewalsOverTime(s: Schedule, calls: seq<Call>, i: nat, k: nat)
    requires i + k < |Anchors(s, calls)|
    ensures var a, b := Anchors(s, calls)[i], Anchors(s, calls)[i + k];
      && LEASE_RENEW_MS * k <= b.mono - a.mono <= LEASE_DURATION_MS * k
      && (LEASE_RENEW_MS - CLOCK_SLACK_MS) * k <= b.epoch - a.epoch <= LEASE_FUTURE_MS * k
    decreases k
  {
    if k > 0 {
      RenewalsOverTime(s, calls, i, k - 1);
      AnchorsPaced(s, calls, i + k - 1);
    }
  }

  /** The leases written over a run: what each confirmed renewal was told to write, and when. */
  datatype Write = Write(submitted: Time, expiresAt: u64)

  function Writes(s: Schedule, calls: seq<Call>): seq<Write>
    decreases |calls|
  {
    if calls == [] then []
    else
      var c, rest := calls[0], Writes(Next(s, calls[0]), calls[1..]);
      if c.Confirm? && s.Confirms(c.submission, c.completion)
      then [Write(c.submission, s.ActionAt(c.submission).expiresAt)] + rest else rest
  }

  /** Every anchor after the first is a written lease: it expires when the readers were told, and counts
      from the submission of that write. */
  lemma {:induction false} AnchorsAreWrites(s: Schedule, calls: seq<Call>)
    ensures var anchors, writes := Anchors(s, calls), Writes(s, calls);
      && |anchors| == |writes| + 1
      && forall i | 0 <= i < |writes| ::
           Expiry(anchors[i + 1]) == writes[i].expiresAt && anchors[i + 1].mono == writes[i].submitted.mono
    decreases |calls|
  {
    if calls != [] {
      var c, next, rest := calls[0], Next(s, calls[0]), calls[1..];
      AnchorsAreWrites(next, rest);
      AnchorsStart(next, rest);
      if c.Confirm? && s.Confirms(c.submission, c.completion) {
        ConfirmKeepsExpiry(s, c.submission, c.completion);
        var anchors, writes := Anchors(s, calls), Writes(s, calls);
        forall i | 0 <= i < |writes|
          ensures Expiry(anchors[i + 1]) == writes[i].expiresAt && anchors[i + 1].mono == writes[i].submitted.mono
        {
          if i > 0 { assert anchors[i + 1] == Anchors(next, rest)[i] && writes[i] == Writes(next, rest)[i - 1]; }
        }
      }
    }
  }

  /** After any run, the scheduler answers anything but `Revoke` only less than fifteen monotonic seconds
      after the last lease was submitted, and less than the slack after that lease expired for readers. */
  lemma NeverOutlivesWrite(s: Schedule, calls: seq<Call>, at: Time)
    requires Writes(s, calls) != [] && Run(s, calls).ActionAt(at) != Revoke
    requires Writes(s, calls)[|Writes(s, calls)| - 1].expiresAt < U64_MAX
    ensures var last := Writes(s, calls)[|Writes(s, calls)| - 1];
      at.mono - last.submitted.mono < 15_000 && at.epoch < last.expiresAt + 2_000
  {
    AnchorsAreWrites(s, calls);
    RunEndsAtLastAnchor(s, calls);
  }
}
