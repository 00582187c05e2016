/** Vocabulary shared by every component: optional values, the unsigned arithmetic of Rust's
    integer types, and the two closed token sets persisted in pane options. */
module Basics {

  datatype Option<+T> = None | Some(value: T) {
    function GetOr(default: T): T {
      if Some? then value else default
    }
  }

  const U64_MAX: int := 0xFFFF_FFFF_FFFF_FFFF
  const U32_MAX: int := 0xFFFF_FFFF

  type u64 = n: int | 0 <= n <= 0xFFFF_FFFF_FFFF_FFFF
  type u32 = n: int | 0 <= n <= 0xFFFF_FFFF

  /** `u64::saturating_add` */
  function SatAdd(a: u64, b: u64): u64 {
    if a + b > U64_MAX then U64_MAX else a + b
  }

  /** `u64::saturating_sub` */
  function SatSub(a: u64, b: u64): u64 {
    if a < b then 0 else a - b
  }

  /** `u64::saturating_mul` by the thousand that turns seconds into milliseconds */
  function SatMillis(seconds: u64): u64 {
    if seconds * 1000 > U64_MAX then U64_MAX else seconds * 1000
  }

  /** A count kept by `u32::saturating_add`. */
  function Saturated(n: nat): u32 {
    if n < U32_MAX then n else U32_MAX
  }

  /** The published state vocabulary, stored in `@agent_state`. */
  datatype AgentState = Idle | Working | Blocked | Unknown {
    function Token(): string {
      match this
      case Idle => "idle"
      case Working => "working"
      case Blocked => "blocked"
      case Unknown => "unknown"
    }
  }

  function ParseState(s: string): Option<AgentState> {
    if s == "idle" then Some(Idle)
    else if s == "working" then Some(Working)
    else if s == "blocked" then Some(Blocked)
    else if s == "unknown" then Some(Unknown)
    else None
  }

  /** The provenance of a stored claim, stored in `@agent_source`. */
  datatype Provenance = Hook | Capture | Activity | Process {
    function Token(): string {
      match this
      case Hook => "hook"
      case Capture => "capture"
      case Activity => "activity"
      case Process => "process"
    }
  }

  function ParseProvenance(s: string): Option<Provenance> {
    if s == "hook" then Some(Hook)
    else if s == "capture" then Some(Capture)
    else if s == "activity" then Some(Activity)
    else if s == "process" then Some(Process)
    else None
  }

  /** Decoding inverts encoding, and nothing but a token decodes. */
  lemma StateTokenRoundTrip(state: AgentState, s: string)
    ensures ParseState(s) == Some(state) <==> s == state.Token()
    ensures state.Token() != "" && state.Token() != "0"
  {
    assert "idle"[0] == 'i' && "working"[0] == 'w' && "blocked"[0] == 'b' && "unknown"[0] == 'u';
  }

  lemma ProvenanceTokenRoundTrip(source: Provenance, s: string)
    ensures ParseProvenance(s) == Some(source) <==> s == source.Token()
    ensures source.Token() != "" && source.Token() != "0"
  {
    assert "hook"[0] == 'h' && "capture"[0] == 'c' && "activity"[0] == 'a' && "process"[0] == 'p';
  }
}
