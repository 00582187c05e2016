/** The private persistence protocol: nested text records. For every codec one lemma states that a
    text parses to a value if and only if the value is well formed and the text is its encoding, so
    parsing and encoding are inverse bijections and no byte cap ever rejects an encoding. */
module Codec {
  import opened Basics
  import opened Decimal
  import opened Text

  // ----- tools ---------------------------------------------------------------------------------

  predicate Free(s: string, c: char) {
    c !in s
  }

  predicate AllFree(pieces: seq<string>, c: char) {
    forall i | 0 <= i < |pieces| :: Free(pieces[i], c)
  }

  predicate AllAscii(pieces: seq<string>) {
    forall i | 0 <= i < |pieces| :: Ascii(pieces[i])
  }

  lemma SplitExact(raw: string, sep: char, fields: seq<string>)
    requires fields != [] && AllFree(fields, sep)
    ensures Split(raw, sep) == fields <==> raw == Join(fields, sep)
  {
    SplitJoin(fields, sep);
    JoinSplit(raw, sep);
  }

  lemma {:induction false} JoinFree(pieces: seq<string>, sep: char, c: char)
    requires c != sep && AllFree(pieces, c)
    ensures Free(Join(pieces, sep), c)
    decreases |pieces|
  {
    if |pieces| > 1 { JoinFree(pieces[1..], sep, c); }
  }

  lemma {:induction false} JoinAscii(pieces: seq<string>, sep: char)
    requires sep as int < 0x80 && AllAscii(pieces)
    ensures Ascii(Join(pieces, sep))
    decreases |pieces|
  {
    if |pieces| > 1 { JoinAscii(pieces[1..], sep); }
  }

  lemma {:induction false} JoinLength(pieces: seq<string>, sep: char, widest: nat)
    requires pieces != [] && forall i | 0 <= i < |pieces| :: |pieces[i]| <= widest
    ensures |Join(pieces, sep)| <= |pieces| * (widest + 1) - 1
    decreases |pieces|
  {
    if |pieces| > 1 { JoinLength(pieces[1..], sep, widest); }
  }

  /** A rendered number is made of digits, and no longer than its type allows. */
  lemma Shown(n: u64)
    ensures Ascii(Show(n)) && 1 <= |Show(n)| <= 20
    ensures forall c :: !IsDigit(c) ==> Free(Show(n), c)
    ensures n <= U32_MAX ==> |Show(n)| <= 10
    ensures n < 1_000_000 ==> |Show(n)| <= 6
  {
    ShowValue(n);
    Widths();
    ShowLength(n, 20);
    if n <= U32_MAX { ShowLength(n, 10); }
    if n < 1_000_000 { ShowLength(n, 6); }
    var s := Show(n);
    assert forall i | 0 <= i < |s| :: IsDigit(s[i]);
  }

  // ----- tokens and leases ---------------------------------------------------------------------

  predicate IsHex(c: char) {
    '0' <= c <= '9' || 'a' <= c <= 'f'
  }

  predicate IsToken(s: string) {
    |s| == 32 && forall i | 0 <= i < |s| :: IsHex(s[i])
  }

  function ParseToken(s: string): Option<string> {
    if IsToken(s) then Some(s) else None
  }

  lemma TokenShape(s: string)
    requires IsToken(s)
    ensures Ascii(s) && Free(s, ':') && Free(s, '|') && Free(s, '~')
  {
  }

  datatype Lease = Lease(token: string, expiresAt: u64) {
    predicate Valid() { IsToken(token) }

    function Encode(): string { Join([Show(expiresAt), token], ':') }
  }

  function ParseLease(raw: string): Option<Lease> {
    if ByteLen(raw) > 20 + 1 + 32 then None else
    match SplitOnce(raw, ':')
    case None => None
    case Some((expiry, token)) =>
      match (ParseToken(token), ParseNumber(expiry))
      case (Some(t), Some(n)) => Some(Lease(t, n))
      case (_, _) => None
  }

  lemma Joined2(a: string, b: string, sep: char)
    ensures Join([a, b], sep) == a + [sep] + b
  {
    assert [a, b][1..] == [b];
    assert JoinWith([b], [sep]) == b;
  }

  lemma Joined3(a: string, b: string, c: string, sep: char)
    ensures Join([a, b, c], sep) == a + [sep] + (b + [sep] + c)
  {
    assert [a, b, c][1..] == [b, c];
    Joined2(b, c, sep);
  }

  lemma Joined4(a: string, b: string, c: string, d: string, sep: char)
    ensures Join([a, b, c, d], sep) == a + [sep] + (b + [sep] + (c + [sep] + d))
  {
    assert [a, b, c, d][1..] == [b, c, d];
    Joined3(b, c, d, sep);
  }

  /** Two harmless texts with a harmless separator between them. */
  lemma Concatenated(a: string, sep: char, b: string, c: char)
    requires Free(a, c) && Free(b, c) && sep != c && Ascii(a) && Ascii(b) && sep as int < 0x80
    ensures Free(a + [sep] + b, c) && Ascii(a + [sep] + b)
  {
  }

  lemma LeaseExact(raw: string, v: Lease)
    ensures ParseLease(raw) == Some(v) <==> v.Valid() && raw == v.Encode()
  {
    Joined2(Show(v.expiresAt), v.token, ':');
    SplitOnceExact(raw, ':', Show(v.expiresAt), v.token);
    NumberCanonical(Show(v.expiresAt), v.expiresAt);
    Shown(v.expiresAt);
    if v.Valid() {
      TokenShape(v.token);
      AsciiLength(v.Encode());
    }
    if ParseLease(raw) == Some(v) {
      var parts := SplitOnce(raw, ':').value;
      NumberCanonical(parts.0, v.expiresAt);
    }
  }

  // ----- processes -----------------------------------------------------------------------------

  datatype Birth = LinuxTicks(ticks: u64) | MacOsStart(seconds: u64, micros: u32)

  datatype ProcessIdentity = ProcessIdentity(pid: u32, birth: Birth) {
    predicate Valid() { pid != 0 && (birth.MacOsStart? ==> birth.micros < 1_000_000) }

    function Fields(): seq<string> {
      match birth
      case LinuxTicks(ticks) => [Show(pid), "l", Show(ticks)]
      case MacOsStart(seconds, micros) => [Show(pid), "m", Show(seconds), Show(micros)]
    }

    function Encode(): string { Join(Fields(), ':') }
  }

  const MAX_PROCESS_BYTES: nat := 10 + 3 + 20 + 1 + 6

  /** All fields of one process, none left over. */
  function ParseFields(f: seq<string>): Option<ProcessIdentity> {
    if |f| < 3 then None else
    match ParseNumber(f[0])
    case None => None
    case Some(pid) =>
      if pid > U32_MAX || pid == 0 then None
      else if f[1] == "l" && |f| == 3 then
        (match ParseNumber(f[2])
         case None => None
         case Some(ticks) => Some(ProcessIdentity(pid, LinuxTicks(ticks))))
      else if f[1] == "m" && |f| == 4 then
        (match (ParseNumber(f[2]), ParseNumber(f[3]))
         case (Some(seconds), Some(micros)) =>
           if micros > U32_MAX || micros >= 1_000_000 then None
           else Some(ProcessIdentity(pid, MacOsStart(seconds, micros)))
         case (_, _) => None)
      else None
  }

  function ParseProcess(raw: string): Option<ProcessIdentity> {
    ParseFields(Split(raw, ':'))
  }

  lemma FieldsExact(f: seq<string>, p: ProcessIdentity)
    ensures ParseFields(f) == Some(p) <==> p.Valid() && f == p.Fields()
  {
    if |f| >= 3 {
      NumberCanonical(f[0], p.pid);
      match p.birth
      case LinuxTicks(ticks) =>
        NumberCanonical(f[2], ticks);
        assert f == p.Fields() <==> |f| == 3 && f[0] == Show(p.pid) && f[1] == "l" && f[2] == Show(ticks);
      case MacOsStart(seconds, micros) =>
        NumberCanonical(f[2], seconds);
        if |f| == 4 { NumberCanonical(f[3], micros); }
        assert f == p.Fields()
          <==> |f| == 4 && f[0] == Show(p.pid) && f[1] == "m" && f[2] == Show(seconds) && f[3] == Show(micros);
    }
  }

  lemma FieldsShape(p: ProcessIdentity)
    ensures AllFree(p.Fields(), ':') && AllFree(p.Fields(), '~') && AllFree(p.Fields(), '|') && AllAscii(p.Fields())
  {
    Shown(p.pid);
    match p.birth
    case LinuxTicks(ticks) => Shown(ticks);
    case MacOsStart(seconds, micros) => Shown(seconds); Shown(micros);
  }

  lemma ProcessExact(raw: string, p: ProcessIdentity)
    ensures ParseProcess(raw) == Some(p) <==> p.Valid() && raw == p.Encode()
  {
    FieldsExact(Split(raw, ':'), p);
    FieldsShape(p);
    SplitExact(raw, ':', p.Fields());
  }

  lemma ProcessShape(p: ProcessIdentity)
    requires p.Valid()
    ensures Free(p.Encode(), '~') && Free(p.Encode(), '|') && Ascii(p.Encode())
    ensures 0 < |p.Encode()| <= MAX_PROCESS_BYTES
  {
    FieldsShape(p);
    JoinFree(p.Fields(), ':', '~');
    JoinFree(p.Fields(), ':', '|');
    JoinAscii(p.Fields(), ':');
    Shown(p.pid);
    match p.birth
    case LinuxTicks(ticks) =>
      Shown(ticks);
      Joined3(Show(p.pid), "l", Show(ticks), ':');
    case MacOsStart(seconds, micros) =>
      Shown(seconds);
      Shown(micros);
      Joined4(Show(p.pid), "m", Show(seconds), Show(micros), ':');
  }

  // ----- process chains --------------------------------------------------------------------------

  const MAX_CHAIN_BYTES: nat := 256 * (MAX_PROCESS_BYTES + 1) - 1

  /** A lineage from pane root to agent: complete, bounded, and without a repeated pid. */
  predicate ValidChain(chain: seq<ProcessIdentity>) {
    && 1 <= |chain| <= 256
    && (forall i | 0 <= i < |chain| :: chain[i].Valid())
    && (forall i, j | 0 <= i < j < |chain| :: chain[i].pid != chain[j].pid)
  }

  function Encodings(chain: seq<ProcessIdentity>): (texts: seq<string>)
    ensures |texts| == |chain| && forall i | 0 <= i < |chain| :: texts[i] == chain[i].Encode()
  {
    seq(|chain|, i requires 0 <= i < |chain| => chain[i].Encode())
  }

  function EncodeChain(chain: seq<ProcessIdentity>): string {
    Join(Encodings(chain), '~')
  }

  function ParseAll(pieces: seq<string>): Option<seq<ProcessIdentity>>
    decreases |pieces|
  {
    if pieces == [] then Some([]) else
    match (ParseProcess(pieces[0]), ParseAll(pieces[1..]))
    case (Some(p), Some(rest)) => Some([p] + rest)
    case (_, _) => None
  }

  function ParseChain(raw: string): Option<seq<ProcessIdentity>> {
    if ByteLen(raw) > MAX_CHAIN_BYTES then None else
    var pieces := Split(raw, '~');
    match ParseAll(if |pieces| > 257 then pieces[..257] else pieces)
    case None => None
    case Some(chain) => if ValidChain(chain) then Some(chain) else None
  }

  lemma {:induction false} ParseAllExact(pieces: seq<string>, chain: seq<ProcessIdentity>)
    ensures ParseAll(pieces) == Some(chain)
      <==> |pieces| == |chain| && forall i | 0 <= i < |chain| :: chain[i].Valid() && pieces[i] == chain[i].Encode()
    decreases |pieces|
  {
    if pieces != [] && chain != [] {
      ProcessExact(pieces[0], chain[0]);
      ParseAllExact(pieces[1..], chain[1..]);
      assert chain == [chain[0]] + chain[1..];
      assert forall i | 0 <= i < |chain| - 1 :: chain[1..][i] == chain[i + 1];
      assert forall i | 0 <= i < |pieces| - 1 :: pieces[1..][i] == pieces[i + 1];
    }
  }

  lemma ChainShape(chain: seq<ProcessIdentity>)
    requires ValidChain(chain)
    ensures AllFree(Encodings(chain), '~')
    ensures Free(EncodeChain(chain), '|') && Ascii(EncodeChain(chain)) && |EncodeChain(chain)| <= MAX_CHAIN_BYTES
  {
    forall i | 0 <= i < |chain|
      ensures Free(Encodings(chain)[i], '~') && Free(Encodings(chain)[i], '|') && Ascii(Encodings(chain)[i])
      ensures |Encodings(chain)[i]| <= MAX_PROCESS_BYTES
    {
      ProcessShape(chain[i]);
    }
    JoinFree(Encodings(chain), '~', '|');
    JoinAscii(Encodings(chain), '~');
    JoinLength(Encodings(chain), '~', MAX_PROCESS_BYTES);
  }

  lemma ChainExact(raw: string, chain: seq<ProcessIdentity>)
    ensures ParseChain(raw) == Some(chain) <==> ValidChain(chain) && raw == EncodeChain(chain)
  {
    var pieces := Split(raw, '~');
    if ValidChain(chain) {
      ChainShape(chain);
      AsciiLength(EncodeChain(chain));
      SplitExact(raw, '~', Encodings(chain));
      ParseAllExact(pieces, chain);
      if |pieces| > 257 { ParseAllExact(pieces[..257], chain); }
      assert |pieces| == |chain| && (forall i | 0 <= i < |chain| :: pieces[i] == chain[i].Encode())
        <==> pieces == Encodings(chain);
    }
  }

  // ----- owners, commits ---------------------------------------------------------------------------

  const MAX_OWNER_BYTES: nat := 32 + 1 + 20 + 1 + 20 + 1 + MAX_CHAIN_BYTES

  datatype Owner = Owner(collector: string, episode: u64, processes: seq<ProcessIdentity>, streamEpoch: u64) {
    predicate Valid() { IsToken(collector) && episode != 0 && streamEpoch != 0 && ValidChain(processes) }

    function Encode(): string {
      collector + ":" + (Show(episode) + ":" + (Show(streamEpoch) + ":" + EncodeChain(processes)))
    }
  }

  function ParseOwner(raw: string): Option<Owner> {
    if ByteLen(raw) > MAX_OWNER_BYTES then None else
    match SplitOnce(raw, ':')
    case None => None
    case Some((collector, rest1)) =>
      match SplitOnce(rest1, ':')
      case None => None
      case Some((episode, rest2)) =>
        match SplitOnce(rest2, ':')
        case None => None
        case Some((epoch, chain)) =>
          match (ParseToken(collector), ParseNumber(episode), ParseNumber(epoch), ParseChain(chain))
          case (Some(c), Some(e), Some(s), Some(p)) =>
            if e == 0 || s == 0 then None else Some(Owner(c, e, p, s))
          case (_, _, _, _) => None
  }

  lemma OwnerShape(v: Owner)
    requires v.Valid()
    ensures Free(v.Encode(), '|') && Ascii(v.Encode()) && |v.Encode()| <= MAX_OWNER_BYTES
  {
    TokenShape(v.collector);
    Shown(v.episode);
    Shown(v.streamEpoch);
    ChainShape(v.processes);
    var tail2 := Show(v.streamEpoch) + [':'] + EncodeChain(v.processes);
    Concatenated(Show(v.streamEpoch), ':', EncodeChain(v.processes), '|');
    Concatenated(Show(v.episode), ':', tail2, '|');
    Concatenated(v.collector, ':', Show(v.episode) + [':'] + tail2, '|');
    assert v.Encode() == v.collector + [':'] + (Show(v.episode) + [':'] + tail2);
  }

  lemma OwnerExact(raw: string, v: Owner)
    ensures ParseOwner(raw) == Some(v) <==> v.Valid() && raw == v.Encode()
  {
    var tail2 := Show(v.streamEpoch) + ":" + EncodeChain(v.processes);
    var tail1 := Show(v.episode) + ":" + tail2;
    if v.Valid() && raw == v.Encode() {
      OwnerShape(v);
      AsciiLength(v.Encode());
      TokenShape(v.collector);
      Shown(v.episode);
      Shown(v.streamEpoch);
      SplitOnceExact(raw, ':', v.collector, tail1);
      SplitOnceExact(tail1, ':', Show(v.episode), tail2);
      SplitOnceExact(tail2, ':', Show(v.streamEpoch), EncodeChain(v.processes));
      NumberCanonical(Show(v.episode), v.episode);
      NumberCanonical(Show(v.streamEpoch), v.streamEpoch);
      ChainExact(EncodeChain(v.processes), v.processes);
    }
    if ParseOwner(raw) == Some(v) {
      var p1 := SplitOnce(raw, ':').value;
      var p2 := SplitOnce(p1.1, ':').value;
      var p3 := SplitOnce(p2.1, ':').value;
      SplitOnceExact(raw, ':', p1.0, p1.1);
      SplitOnceExact(p1.1, ':', p2.0, p2.1);
      SplitOnceExact(p2.1, ':', p3.0, p3.1);
      NumberCanonical(p2.0, v.episode);
      NumberCanonical(p3.0, v.streamEpoch);
      ChainExact(p3.1, v.processes);
    }
  }

  datatype CommitMarker = CommitMarker(write: string, owner: Owner) {
    predicate Valid() { IsToken(write) && owner.Valid() }

    function Encode(): string { write + "|" + owner.Encode() }
  }

  function ParseCommit(raw: string): Option<CommitMarker> {
    if ByteLen(raw) > 32 + 1 + MAX_OWNER_BYTES then None else
    match SplitOnce(raw, '|')
    case None => None
    case Some((write, owner)) =>
      match (ParseToken(write), ParseOwner(owner))
      case (Some(w), Some(o)) => Some(CommitMarker(w, o))
      case (_, _) => None
  }

  lemma CommitExact(raw: string, v: CommitMarker)
    ensures ParseCommit(raw) == Some(v) <==> v.Valid() && raw == v.Encode()
  {
    SplitOnceExact(raw, '|', v.write, v.owner.Encode());
    if v.Valid() {
      TokenShape(v.write);
      OwnerShape(v.owner);
      AsciiLength(v.Encode());
      OwnerExact(v.owner.Encode(), v.owner);
    }
    if ParseCommit(raw) == Some(v) {
      OwnerExact(SplitOnce(raw, '|').value.1, v.owner);
    }
  }

  // ----- record ids --------------------------------------------------------------------------------

  const MAX_ID_BYTES: nat := 128

  predicate IdentifierChar(c: char) {
    'a' <= c <= 'z' || 'A' <= c <= 'Z' || '0' <= c <= '9' || c == '_' || c == '.' || c == '+' || c == '-'
  }

  predicate IdSegment(s: string) {
    1 <= |s| <= 32 && forall i | 0 <= i < |s| :: IdentifierChar(s[i])
  }

  /** A wire id: up to eight slash-separated segments. The empty text is the root. */
  predicate WireId(s: string) {
    && s != "" && ByteLen(s) <= MAX_ID_BYTES
    && |Split(s, '/')| <= 8
    && forall i | 0 <= i < |Split(s, '/')| :: IdSegment(Split(s, '/')[i])
  }

  predicate RecordId(s: string) {
    s == "" || WireId(s)
  }

  function ParseRecord(s: string): Option<string> {
    if RecordId(s) then Some(s) else None
  }

  lemma RecordShape(s: string)
    requires RecordId(s)
    ensures Free(s, '|') && Ascii(s) && |s| <= MAX_ID_BYTES
  {
    if s != "" {
      var pieces := Split(s, '/');
      JoinSplit(s, '/');
      forall i | 0 <= i < |pieces| ensures Free(pieces[i], '|') && Ascii(pieces[i]) {
        assert IdSegment(pieces[i]);
      }
      JoinFree(pieces, '/', '|');
      JoinAscii(pieces, '/');
      AsciiLength(s);
    }
  }

  // ----- results -------------------------------------------------------------------------------------

  const MAX_RESULT_BYTES: nat := MAX_OWNER_BYTES + MAX_ID_BYTES + 20 + 20 + 5 + 4

  datatype ResultKind = Completion | Failure {
    function Token(): string { if Completion? then "done" else "error" }
  }

  datatype PersistedResult = PersistedResult(
    owner: Owner, identityOwner: u64, record: string, generation: u64, cycle: u64, kind: ResultKind)
  {
    predicate Valid() {
      owner.Valid() && identityOwner == owner.episode && RecordId(record) && generation != 0
    }

    function Fields(): seq<string> {
      [owner.Encode(), record, Show(generation), Show(cycle), kind.Token()]
    }

    function Encode(): string { Join(Fields(), '|') }
  }

  function ParseKind(s: string): Option<ResultKind> {
    if s == "done" then Some(Completion) else if s == "error" then Some(Failure) else None
  }

  function ParseResult(raw: string): Option<PersistedResult> {
    if ByteLen(raw) > MAX_RESULT_BYTES then None else
    var f := Split(raw, '|');
    if |f| != 5 then None else
    match (ParseOwner(f[0]), ParseRecord(f[1]), ParseNumber(f[2]), ParseNumber(f[3]), ParseKind(f[4]))
    case (Some(owner), Some(record), Some(generation), Some(cycle), Some(kind)) =>
      if generation == 0 then None
      else Some(PersistedResult(owner, owner.episode, record, generation, cycle, kind))
    case (_, _, _, _, _) => None
  }

  lemma ResultShape(v: PersistedResult)
    requires v.Valid()
    ensures AllFree(v.Fields(), '|') && Ascii(v.Encode()) && |v.Encode()| <= MAX_RESULT_BYTES
  {
    OwnerShape(v.owner);
    RecordShape(v.record);
    Shown(v.generation);
    Shown(v.cycle);
    JoinAscii(v.Fields(), '|');
    assert v.Fields()[1..] == [v.record, Show(v.generation), Show(v.cycle), v.kind.Token()];
    Joined4(v.record, Show(v.generation), Show(v.cycle), v.kind.Token(), '|');
  }

  /** The five fields parse to exactly one result. */
  lemma ResultFieldsExact(f: seq<string>, v: PersistedResult)
    requires |f| == 5
    ensures (ParseOwner(f[0]) == Some(v.owner) && ParseRecord(f[1]) == Some(v.record)
             && ParseNumber(f[2]) == Some(v.generation) && ParseNumber(f[3]) == Some(v.cycle)
             && ParseKind(f[4]) == Some(v.kind) && v.generation != 0 && v.identityOwner == v.owner.episode)
        <==> v.Valid() && f == v.Fields()
  {
    OwnerExact(f[0], v.owner);
    NumberCanonical(f[2], v.generation);
    NumberCanonical(f[3], v.cycle);
    assert "done" != "error" by { assert "done"[0] != "error"[0]; }
    assert f == v.Fields() <==> f[0] == v.owner.Encode() && f[1] == v.record && f[2] == Show(v.generation)
                                && f[3] == Show(v.cycle) && f[4] == v.kind.Token();
  }

  lemma ResultExact(raw: string, v: PersistedResult)
    ensures ParseResult(raw) == Some(v) <==> v.Valid() && raw == v.Encode()
  {
    var f := Split(raw, '|');
    if |f| == 5 { ResultFieldsExact(f, v); }
    if v.Valid() {
      ResultShape(v);
      AsciiLength(v.Encode());
      SplitExact(raw, '|', v.Fields());
    }
  }

  datatype NotificationClaim = NotificationClaim(token: string, result: PersistedResult) {
    predicate Valid() { IsToken(token) && result.Valid() }

    function Encode(): string { token + "|" + result.Encode() }
  }

  function ParseClaim(raw: string): Option<NotificationClaim> {
    if ByteLen(raw) > 32 + 1 + MAX_RESULT_BYTES then None else
    match SplitOnce(raw, '|')
    case None => None
    case Some((token, result)) =>
      match (ParseToken(token), ParseResult(result))
      case (Some(t), Some(r)) => Some(NotificationClaim(t, r))
      case (_, _) => None
  }

  lemma ClaimExact(raw: string, v: NotificationClaim)
    ensures ParseClaim(raw) == Some(v) <==> v.Valid() && raw == v.Encode()
  {
    SplitOnceExact(raw, '|', v.token, v.result.Encode());
    if v.Valid() {
      TokenShape(v.token);
      ResultShape(v.result);
      AsciiLength(v.Encode());
      ResultExact(v.result.Encode(), v.result);
    }
    if ParseClaim(raw) == Some(v) {
      ResultExact(SplitOnce(raw, '|').value.1, v.result);
    }
  }

  // ----- blocked history -------------------------------------------------------------------------------

  datatype BlockedHistory = BlockedHistory(
    processes: seq<ProcessIdentity>, episode: string, acknowledged: bool, record: string)
  {
    predicate Valid() { ValidChain(processes) && IsToken(episode) && RecordId(record) }

    function Fields(): seq<string> {
      [EncodeChain(processes), episode, if acknowledged then "1" else "0", record]
    }

    function Encode(): string { Join(Fields(), '|') }
  }

  function ParseFlag(s: string): Option<bool> {
    if s == "0" then Some(false) else if s == "1" then Some(true) else None
  }

  function ParseHistory(raw: string): Option<BlockedHistory> {
    if ByteLen(raw) > MAX_CHAIN_BYTES + 36 + MAX_ID_BYTES then None else
    var f := Split(raw, '|');
    if |f| != 4 then None else
    match (ParseChain(f[0]), ParseToken(f[1]), ParseFlag(f[2]), ParseRecord(f[3]))
    case (Some(chain), Some(episode), Some(acknowledged), Some(record)) =>
      Some(BlockedHistory(chain, episode, acknowledged, record))
    case (_, _, _, _) => None
  }

  lemma HistoryShape(v: BlockedHistory)
    requires v.Valid()
    ensures AllFree(v.Fields(), '|') && ByteLen(v.Encode()) <= MAX_CHAIN_BYTES + 36 + MAX_ID_BYTES
  {
    ChainShape(v.processes);
    TokenShape(v.episode);
    RecordShape(v.record);
    JoinAscii(v.Fields(), '|');
    Joined4(v.Fields()[0], v.Fields()[1], v.Fields()[2], v.Fields()[3], '|');
    AsciiLength(v.Encode());
  }

  lemma HistoryParses(v: BlockedHistory)
    requires v.Valid()
    ensures ParseHistory(v.Encode()) == Some(v)
  {
    HistoryShape(v);
    SplitExact(v.Encode(), '|', v.Fields());
    ChainExact(v.Fields()[0], v.processes);
  }

  lemma FlagExact(s: string, flag: bool)
    ensures ParseFlag(s) == Some(flag) <==> s == if flag then "1" else "0"
  {
  }

  lemma HistoryParts(raw: string, v: BlockedHistory)
    requires ParseHistory(raw) == Some(v)
    ensures var f := Split(raw, '|');
      && |f| == 4
      && ParseChain(f[0]) == Some(v.processes) && ParseToken(f[1]) == Some(v.episode)
      && ParseFlag(f[2]) == Some(v.acknowledged) && ParseRecord(f[3]) == Some(v.record)
  {
  }

  lemma HistoryFields(f: seq<string>, v: BlockedHistory)
    requires |f| == 4
    requires ParseChain(f[0]) == Some(v.processes) && ParseToken(f[1]) == Some(v.episode)
    requires ParseFlag(f[2]) == Some(v.acknowledged) && ParseRecord(f[3]) == Some(v.record)
    ensures v.Valid() && f == v.Fields()
  {
    ChainExact(f[0], v.processes);
    FlagExact(f[2], v.acknowledged);
  }

  lemma HistoryCanonical(raw: string, v: BlockedHistory)
    requires ParseHistory(raw) == Some(v)
    ensures v.Valid() && raw == v.Encode()
  {
    HistoryParts(raw, v);
    HistoryFields(Split(raw, '|'), v);
    JoinSplit(raw, '|');
  }

  lemma HistoryExact(raw: string, v: BlockedHistory)
    ensures ParseHistory(raw) == Some(v) <==> v.Valid() && raw == v.Encode()
  {
    if v.Valid() { HistoryParses(v); }
    if ParseHistory(raw) == Some(v) { HistoryCanonical(raw, v); }
  }

  // ----- metadata -----------------------------------------------------------------------------------------

  datatype MetadataEvidence = Context(at: u64) | Quota(at: u64)

  datatype MetadataUpdate = MetadataUpdate(token: string, evidence: Option<MetadataEvidence>) {
    predicate Valid() { IsToken(token) }

    function Lane(): string {
      match evidence
      case Some(Context(_)) => "c"
      case Some(Quota(_)) => "q"
      case None => "n"
    }

    function At(): u64 { if evidence.Some? then evidence.value.at else 0 }

    function Fields(): seq<string> { [token, Lane(), Show(At())] }

    function Encode(): string { Join(Fields(), '|') }
  }

  function ParseEvidence(lane: string, at: u64): Option<Option<MetadataEvidence>> {
    if lane == "c" then Some(Some(Context(at)))
    else if lane == "q" then Some(Some(Quota(at)))
    else if lane == "n" && at == 0 then Some(None)
    else None
  }

  function ParseUpdate(raw: string): Option<MetadataUpdate> {
    if ByteLen(raw) > 56 then None else
    var f := Split(raw, '|');
    if |f| != 3 then None else
    match (ParseToken(f[0]), ParseNumber(f[2]))
    case (Some(token), Some(at)) =>
      (match ParseEvidence(f[1], at)
       case Some(evidence) => Some(MetadataUpdate(token, evidence))
       case None => None)
    case (_, _) => None
  }

  lemma UpdateExact(raw: string, v: MetadataUpdate)
    ensures ParseUpdate(raw) == Some(v) <==> v.Valid() && raw == v.Encode()
  {
    var f := Split(raw, '|');
    if |f| == 3 {
      NumberCanonical(f[2], v.At());
      assert f == v.Fields() <==> f[0] == v.token && f[1] == v.Lane() && f[2] == Show(v.At());
    }
    if v.Valid() {
      TokenShape(v.token);
      Shown(v.At());
      JoinAscii(v.Fields(), '|');
      Joined3(v.token, v.Lane(), Show(v.At()), '|');
      AsciiLength(v.Encode());
      SplitExact(raw, '|', v.Fields());
    }
  }
}
