/** Which authority a pane's public tuple has: a program report with a current lease, an unowned
    legacy stamp, or neither. */
module Projection {
  import opened Basics
  import opened Stamp
  import opened Lease
  import opened PaneStore
  import C = Codec

  /** The private texts of a pane, and the server's lease text. */
  datatype Private = Private(
    origin: Option<string>, owner: Option<string>, commit: Option<string>, lease: Option<string>)
  {
    predicate ProgramOrigin() {
      origin.GetOr("") != "" || owner.GetOr("") != "" || commit.GetOr("") != ""
    }
  }

  datatype ProjectionRead =
    | Legacy(read: Option<ReadResult>)
    | Live(stamp: StampedState, owner: C.Owner, commit: C.CommitMarker)
    | Stale
    | Undecodable

  function Parsed<T>(raw: Option<string>, parse: string -> Option<T>): Option<T> {
    if raw.None? then None else parse(raw.value)
  }

  function Project(p: Private, options: Options, now: u64): ProjectionRead {
    if !p.ProgramOrigin() then
      (match FromOptions(options) case Decoded(read) => Legacy(read) case Malformed => Undecodable)
    else
      match (Parsed(p.owner, C.ParseOwner), Parsed(p.commit, C.ParseCommit), Parsed(p.lease, C.ParseLease))
      case (Some(owner), Some(commit), Some(lease)) =>
        if p.origin != Some("1") || commit.owner != owner || lease.token != owner.collector
           || !LiveAt(lease.expiresAt, now) then Stale
        else UnderAuthority(options, owner, commit)
      case (_, _, _) => Stale
  }

  /** The public tuple under a current authority. */
  function UnderAuthority(options: Options, owner: C.Owner, commit: C.CommitMarker): ProjectionRead {
    match FromOptions(options)
    case Malformed => Undecodable
    case Decoded(read) =>
      if read.Some? && read.value.Settled? && read.value.stamp.pid == Agent(owner) && read.value.stamp.source == Hook
      then Live(read.value.stamp, owner, commit) else Stale
  }

  /** The agent is the last process of the chain. */
  function Agent(owner: C.Owner): u32 {
    if owner.processes == [] then 0 else owner.processes[|owner.processes| - 1].pid
  }

  /** The texts one collector leaves: its ownership, a commit under that very ownership, and its own
      lease. */
  predicate WrittenBy(p: Private, owner: C.Owner, commit: C.CommitMarker, expiresAt: u64) {
    && owner.Valid() && commit.Valid() && commit.owner == owner
    && p.origin == Some("1")
    && p.owner == Some(owner.Encode())
    && p.commit == Some(commit.Encode())
    && p.lease == Some(C.Lease(owner.collector, expiresAt).Encode())
  }

  /** The three private texts parse to an owner, its commit and its lease exactly when they are those
      one collector wrote. */
  lemma WrittenExactly(p: Private, owner: C.Owner, commit: C.CommitMarker, expiresAt: u64)
    requires p.origin == Some("1") && commit.owner == owner
    ensures WrittenBy(p, owner, commit, expiresAt)
       <==> && Parsed(p.owner, C.ParseOwner) == Some(owner)
            && Parsed(p.commit, C.ParseCommit) == Some(commit)
            && Parsed(p.lease, C.ParseLease) == Some(C.Lease(owner.collector, expiresAt))
  {
    C.OwnerExact(p.owner.GetOr(""), owner);
    C.CommitExact(p.commit.GetOr(""), commit);
    C.LeaseExact(p.lease.GetOr(""), C.Lease(owner.collector, expiresAt));
  }

  /** What a live read needs of the public tuple. */
  predicate Settles(options: Options, stamp: StampedState, owner: C.Owner) {
    FromOptions(options) == Decoded(Some(Settled(stamp))) && stamp.pid == Agent(owner) && stamp.source == Hook
  }

  lemma LiveIfWritten(p: Private, options: Options, now: u64, stamp: StampedState, owner: C.Owner,
                      commit: C.CommitMarker, expiresAt: u64)
    requires WrittenBy(p, owner, commit, expiresAt) && LiveAt(expiresAt, now) && Settles(options, stamp, owner)
    ensures Project(p, options, now) == Live(stamp, owner, commit)
  {
    WrittenHasAuthority(p, options, now, owner, commit, expiresAt);
  }

  lemma WrittenHasAuthority(p: Private, options: Options, now: u64, owner: C.Owner, commit: C.CommitMarker,
                            expiresAt: u64)
    requires WrittenBy(p, owner, commit, expiresAt) && LiveAt(expiresAt, now)
    ensures Project(p, options, now) == UnderAuthority(options, owner, commit)
  {
    WrittenExactly(p, owner, commit, expiresAt);
    assert p.origin.GetOr("") == "1" && p.ProgramOrigin();
  }

  lemma WrittenIfLive(p: Private, options: Options, now: u64, stamp: StampedState, owner: C.Owner,
                      commit: C.CommitMarker)
    returns (expiresAt: u64)
    requires Project(p, options, now) == Live(stamp, owner, commit)
    ensures WrittenBy(p, owner, commit, expiresAt) && LiveAt(expiresAt, now) && Settles(options, stamp, owner)
  {
    var lease := C.ParseLease(p.lease.value).value;
    expiresAt := lease.expiresAt;
    assert lease == C.Lease(owner.collector, expiresAt);
    WrittenExactly(p, owner, commit, expiresAt);
  }

  /** A read is live exactly when the private texts are those of one collector whose lease the reader
      accepts, and the public tuple is a settled hook stamp of the agent that collector owns. */
  lemma LiveExactly(p: Private, options: Options, now: u64, stamp: StampedState, owner: C.Owner,
                    commit: C.CommitMarker)
    ensures Project(p, options, now) == Live(stamp, owner, commit)
       <==> && (exists expiresAt: u64 :: WrittenBy(p, owner, commit, expiresAt) && LiveAt(expiresAt, now))
            && Settles(options, stamp, owner)
  {
    if Project(p, options, now) == Live(stamp, owner, commit) {
      var expiresAt := WrittenIfLive(p, options, now, stamp, owner, commit);
    }
    if Settles(options, stamp, owner) {
      forall expiresAt: u64 | WrittenBy(p, owner, commit, expiresAt) && LiveAt(expiresAt, now)
        ensures Project(p, options, now) == Live(stamp, owner, commit)
      {
        LiveIfWritten(p, options, now, stamp, owner, commit, expiresAt);
      }
    }
  }

  /** Once a program has left a private mark, no clock turns the public tuple into an unowned one. */
  lemma NeverLegacy(p: Private, options: Options, now: u64)
    ensures Project(p, options, now).Legacy? ==> !p.ProgramOrigin()
    ensures !p.ProgramOrigin() ==> !Project(p, options, now).Live? && !Project(p, options, now).Stale?
  {
  }

  /** The reader's clock matters only through the lease. */
  lemma ClockThroughLease(p: Private, options: Options, now: u64, later: u64, lease: C.Lease)
    requires p.ProgramOrigin() && Parsed(p.lease, C.ParseLease) == Some(lease)
    ensures LiveAt(lease.expiresAt, now) && LiveAt(lease.expiresAt, later)
        ==> Project(p, options, later) == Project(p, options, now)
    ensures !LiveAt(lease.expiresAt, later) ==> Project(p, options, later) == Stale
  {
  }

  /** Authority lapses by itself and for good: a read that is live stays live, unchanged, exactly up to
      the lease's expiry, and the same texts are never live again afterwards. */
  lemma AuthorityLapses(p: Private, options: Options, now: u64, later: u64) returns (expiresAt: u64)
    requires Project(p, options, now).Live? && now <= later
    ensures later < expiresAt ==> Project(p, options, later) == Project(p, options, now)
    ensures expiresAt <= later ==> Project(p, options, later) == Stale
  {
    var read := Project(p, options, now);
    expiresAt := WrittenIfLive(p, options, now, read.stamp, read.owner, read.commit);
    var lease := C.Lease(read.owner.collector, expiresAt);
    C.LeaseExact(p.lease.value, lease);
    ClockThroughLease(p, options, now, later, lease);
  }

  /** Without a private mark the public tuple speaks for itself: it is an unowned stamp, absent or as it
      decodes, or it does not decode. */
  lemma LegacyExactly(p: Private, options: Options, now: u64, read: Option<ReadResult>)
    ensures Project(p, options, now) == Legacy(read)
       <==> && p.origin in {None, Some("")} && p.owner in {None, Some("")} && p.commit in {None, Some("")}
            && FromOptions(options) == Decoded(read)
  {
  }

  /** A read fails only where the tuple does not decode and there is either no private mark or a current
      authority to speak of. */
  lemma UndecodableExactly(p: Private, options: Options, now: u64)
    ensures Project(p, options, now).Undecodable?
       <==> && FromOptions(options).Malformed?
            && (p.ProgramOrigin() ==>
                  exists owner, commit, expiresAt: u64 ::
                    WrittenBy(p, owner, commit, expiresAt) && LiveAt(expiresAt, now))
  {
    if p.ProgramOrigin() {
      if Project(p, options, now).Undecodable? {
        var owner, commit := C.ParseOwner(p.owner.value).value, C.ParseCommit(p.commit.value).value;
        var lease := C.ParseLease(p.lease.value).value;
        assert lease == C.Lease(owner.collector, lease.expiresAt);
        WrittenExactly(p, owner, commit, lease.expiresAt);
      }
      forall owner, commit, expiresAt: u64 | WrittenBy(p, owner, commit, expiresAt) && LiveAt(expiresAt, now)
        ensures FromOptions(options).Malformed? ==> Project(p, options, now).Undecodable?
      {
        WrittenHasAuthority(p, options, now, owner, commit, expiresAt);
      }
    }
  }
}
