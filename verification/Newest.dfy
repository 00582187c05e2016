/** Which of several observations is reported: the newest readable record of a log, and the quota
    window closest to exhausted. */
module Newest {
  import opened Basics
  import opened Regions

  /** The last line that reads. */
  function NewestOf<T>(lines: seq<string>, read: string -> Option<T>): Option<T> {
    if lines == [] then None
    else
      var last := read(lines[|lines| - 1]);
      if last.Some? then last else NewestOf(lines[..|lines| - 1], read)
  }

  /** One pass over the lines of a payload, keeping the latest reading. */
  method ScanNewest<T>(payload: string, read: string -> Option<T>) returns (latest: Option<T>)
    ensures latest == NewestOf(Lines(payload), read)
  {
    var lines := Lines(payload);
    latest := None;
    for i := 0 to |lines|
      invariant latest == NewestOf(lines[..i], read)
    {
      assert lines[..i + 1][..i] == lines[..i];
      var reading := read(lines[i]);
      if reading.Some? {
        latest := reading;
      }
    }
    assert lines[..|lines|] == lines;
  }

  /** The newest record is the last line that reads: unreadable lines after it, a truncated record
      among them, neither hide it nor replace it. */
  lemma {:induction false} NewestExact<T>(lines: seq<string>, read: string -> Option<T>, value: T)
    ensures NewestOf(lines, read) == Some(value)
       <==> exists k | 0 <= k < |lines| ::
              read(lines[k]) == Some(value) && forall j | k < j < |lines| :: read(lines[j]) == None
    decreases |lines|
  {
    if lines != [] {
      var init, last := lines[..|lines| - 1], lines[|lines| - 1];
      NewestExact(init, read, value);
      if read(last) == None && NewestOf(lines, read) == Some(value) {
        var k :| 0 <= k < |init| && read(init[k]) == Some(value) && forall j | k < j < |init| :: read(init[j]) == None;
        assert read(lines[k]) == Some(value) && forall j | k < j < |lines| :: read(lines[j]) == None;
      }
    }
  }

  // ----- quota windows --------------------------------------------------------------------------

  datatype Reading = Reading(window: string, pct: nat, resetsAt: Option<u64>)

  datatype QuotaReport = QuotaReport(worst: Reading, windows: seq<Reading>)

  /** The earliest of the readings with the highest percent. */
  function Highest(windows: seq<Reading>): Reading
    requires windows != []
  {
    if |windows| == 1 then windows[0]
    else
      var best := Highest(windows[..|windows| - 1]);
      if windows[|windows| - 1].pct > best.pct then windows[|windows| - 1] else best
  }

  function Worst(windows: seq<Reading>): Option<QuotaReport> {
    if windows == [] then None else Some(QuotaReport(Highest(windows), windows))
  }

  /** A report names a window that no other exceeds, and the first one declared among equals. */
  lemma {:induction false} HighestIsFirstMaximum(windows: seq<Reading>) returns (k: nat)
    requires windows != []
    ensures k < |windows| && Highest(windows) == windows[k]
    ensures forall j | 0 <= j < |windows| :: windows[j].pct <= windows[k].pct
    ensures forall j | 0 <= j < k :: windows[j].pct < windows[k].pct
    decreases |windows|
  {
    k := |windows| - 1;
    if |windows| > 1 {
      var init := windows[..|windows| - 1];
      var m := HighestIsFirstMaximum(init);
      assert forall j | 0 <= j < |init| :: windows[j] == init[j];
      if windows[k].pct <= init[m].pct {
        k := m;
      }
    }
  }

  lemma WorstExact(windows: seq<Reading>)
    ensures Worst(windows).None? <==> windows == []
    ensures Worst(windows).Some? ==> Worst(windows).value.windows == windows && Worst(windows).value.worst in windows
    ensures Worst(windows).Some? ==> forall w | w in windows :: w.pct <= Worst(windows).value.worst.pct
  {
    if windows != [] {
      var k := HighestIsFirstMaximum(windows);
      assert windows[k] in windows;
    }
  }
}
