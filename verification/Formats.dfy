/** The persisted records as texts, field by field, and the values they may hold. */
module Formats {
  import opened Basics
  import opened Decimal
  import opened Text
  import opened Codec
  import M = MetadataOwner

  // ----- values -----------------------------------------------------------------------------------

  /** A token is 32 lower-case hexadecimal digits. */
  lemma TokenExactly(s: string)
    ensures IsToken(s) <==> |s| == 32 && forall c | c in s :: c in "0123456789abcdef"
  {
    if forall c | c in s :: c in "0123456789abcdef" {
      forall i | 0 <= i < |s| ensures IsHex(s[i]) {
        assert s[i] in s;
      }
    }
  }

  /** An identifier is made of ASCII letters and digits and four marks. */
  lemma IdentifierExactly(c: char)
    ensures var low := if 'A' <= c <= 'Z' then (c as int + 32) as char else c;
      IdentifierChar(c) <==> 'a' <= low <= 'z' || c in "0123456789" || c in "_.+-"
  {
  }

  /** A record id is empty, or one to eight segments of one to 32 identifier characters with slashes between
      them, 128 bytes at most. */
  lemma RecordIdExactly(s: string)
    ensures RecordId(s) <==> s == "" || (ByteLen(s) <= 128 && exists segments: seq<string> :: Segmented(s, segments))
  {
    JoinSplit(s, '/');
    if s != "" && RecordId(s) {
      assert Segmented(s, Split(s, '/'));
    }
    forall segments: seq<string> | Segmented(s, segments) ensures s != "" && Split(s, '/') == segments {
      SplitJoin(segments, '/');
      NonEmptyJoin(segments);
    }
  }

  predicate Segmented(s: string, segments: seq<string>) {
    && 1 <= |segments| <= 8 && s == Join(segments, '/')
    && forall i | 0 <= i < |segments| ::
         && 1 <= |segments[i]| <= 32 && '/' !in segments[i]
         && forall k | 0 <= k < |segments[i]| :: IdentifierChar(segments[i][k])
  }

  lemma NonEmptyJoin(segments: seq<string>)
    requires segments != [] && segments[0] != ""
    ensures Join(segments, '/') != ""
  {
  }

  /** A process has a pid, and microseconds that do not make up a second. */
  lemma ProcessExactly(p: ProcessIdentity)
    ensures p.Valid() <==> p.pid >= 1 && (p.birth.MacOsStart? ==> p.birth.micros <= 999_999)
  {
  }

  /** A chain of processes, one more at a time: it starts with any process, takes up to 256 of them, and none
      whose pid it has already. */
  lemma ChainExactly(chain: seq<ProcessIdentity>, p: ProcessIdentity)
    ensures !ValidChain([])
    ensures ValidChain([p]) <==> p.Valid()
    ensures chain != [] ==>
      (ValidChain(chain + [p]) <==>
        ValidChain(chain) && p.Valid() && |chain| <= 255 && forall q | q in chain :: q.pid != p.pid)
  {
    var grown := chain + [p];
    assert grown[..|chain|] == chain && grown[|chain|] == p;
    if ValidChain(grown) {
      assert forall i | 0 <= i < |chain| :: chain[i] == grown[i];
    }
  }

  /** An owner names a collector, an episode and a stream that have begun, and its processes; a result names
      the owner's own episode, a record and a cycle generation that has begun. */
  lemma OwnerExactly(o: Owner, r: PersistedResult)
    ensures o.Valid() <==> IsToken(o.collector) && ValidChain(o.processes) && o.episode >= 1 && o.streamEpoch >= 1
    ensures r.Valid() <==>
      r.owner.Valid() && RecordId(r.record) && r.generation >= 1 && r.identityOwner == r.owner.episode
  {
  }

  /** A metadata owner names a process and a session of up to a kibibyte that prints. */
  lemma MetadataOwnerExactly(o: M.Owner)
    ensures o.Valid() <==> o.process.Valid() && M.Printable(o.session) && o.session != [] && |o.session| < 1_025
  {
  }

  // ----- texts ------------------------------------------------------------------------------------

  lemma LeaseText(v: Lease)
    ensures v.Encode() == Show(v.expiresAt) + ":" + v.token
  {
    Joined2(Show(v.expiresAt), v.token, ':');
  }

  lemma ProcessText(p: ProcessIdentity)
    ensures p.birth.LinuxTicks? ==> p.Encode() == Show(p.pid) + ":l:" + Show(p.birth.ticks)
    ensures p.birth.MacOsStart? ==>
      p.Encode() == Show(p.pid) + ":m:" + Show(p.birth.seconds) + ":" + Show(p.birth.micros)
  {
    match p.birth
    case LinuxTicks(ticks) =>
      Joined3(Show(p.pid), "l", Show(ticks), ':');
      Tagged(Show(p.pid), "l", Show(ticks));
    case MacOsStart(seconds, micros) =>
      Joined4(Show(p.pid), "m", Show(seconds), Show(micros), ':');
      Tagged(Show(p.pid), "m", Show(seconds) + ":" + Show(micros));
      Regroup(Show(p.pid) + ":m:", Show(seconds) + ":", Show(micros));
  }

  lemma Tagged(pid: string, tag: string, rest: string)
    ensures pid + [':'] + (tag + [':'] + rest) == pid + (":" + tag + ":") + rest
  {
  }

  /** The processes of a chain, a tilde between them. */
  lemma ChainText(chain: seq<ProcessIdentity>, p: ProcessIdentity)
    ensures EncodeChain([p]) == p.Encode()
    ensures chain != [] ==> EncodeChain(chain + [p]) == EncodeChain(chain) + "~" + p.Encode()
  {
    if chain != [] {
      assert Encodings(chain + [p]) == Encodings(chain) + [p.Encode()];
      JoinPush(Encodings(chain), p.Encode());
    }
  }

  lemma {:induction false} JoinPush(pieces: seq<string>, piece: string)
    requires pieces != []
    ensures Join(pieces + [piece], '~') == Join(pieces, '~') + "~" + piece
    decreases |pieces|
  {
    assert (pieces + [piece])[1..] == pieces[1..] + [piece];
    if |pieces| == 1 {
      assert JoinWith([piece], ['~']) == piece;
      assert pieces[1..] + [piece] == [piece];
    } else {
      JoinPush(pieces[1..], piece);
      Associate(pieces[0] + ['~'], Join(pieces[1..], '~'), "~", piece);
    }
  }

  lemma OwnerText(v: Owner)
    ensures v.Encode()
         == v.collector + ":" + Show(v.episode) + ":" + Show(v.streamEpoch) + ":" + EncodeChain(v.processes)
  {
    Regroup(v.collector + ":", Show(v.episode) + ":", Show(v.streamEpoch) + ":" + EncodeChain(v.processes));
  }

  lemma CommitText(v: CommitMarker)
    ensures v.Encode() == v.write + "|" + v.owner.Encode()
  {
  }

  lemma ResultText(v: PersistedResult)
    ensures v.Encode() == v.owner.Encode() + "|" + (v.record + "|" + (Show(v.generation) + "|" + (Show(v.cycle) + "|"
                          + if v.kind.Completion? then "done" else "error")))
  {
    var f := v.Fields();
    assert f[1..] == [f[1], f[2], f[3], f[4]];
    Joined4(f[1], f[2], f[3], f[4], '|');
  }

  lemma ClaimText(v: NotificationClaim)
    ensures v.Encode() == v.token + "|" + v.result.Encode()
  {
  }

  lemma HistoryText(v: BlockedHistory)
    ensures v.Encode() == EncodeChain(v.processes) + "|" + (v.episode + "|" + ((if v.acknowledged then "1" else "0")
                          + "|" + v.record))
  {
    var f := v.Fields();
    Joined4(f[0], f[1], f[2], f[3], '|');
  }

  lemma UpdateText(v: MetadataUpdate)
    ensures v.Encode() == v.token + "|" + match v.evidence
              case Some(Context(at)) => "c|" + Show(at)
              case Some(Quota(at)) => "q|" + Show(at)
              case None => "n|0"
  {
    var f := v.Fields();
    Joined3(f[0], f[1], f[2], '|');
    assert Show(0) == "0";
  }

  lemma MetadataOwnerText(v: M.Owner)
    ensures v.Encode() == v.process.Encode() + "|" + M.Hex(v.session)
  {
  }
}
