/** State-transition edges between two observations of the agent rows, and what replaying them
    reconstructs. */
module Edge {
  import opened Basics

  datatype StateToken = Closed(state: AgentState) | Done

  /** One pane as observed: its identity, its class and what an edge carries along. */
  datatype Row = Row(
    pane: string, agent: string, state: AgentState, attention: bool, detail: Option<string>, locator: string)
  {
    /** The disjoint class: finished and unreviewed is `done`, not `idle`. */
    function Class(): StateToken {
      if state == Idle && attention then Done else Closed(state)
    }
  }

  datatype Edge = Edge(
    pane: string, agent: string, from: Option<StateToken>, to: Option<StateToken>,
    detail: Option<string>, locator: string)

  function EdgeOf(row: Row, from: Option<StateToken>, to: Option<StateToken>): Edge {
    Edge(row.pane, row.agent, from, to, row.detail, row.locator)
  }

  // ----- the diff -------------------------------------------------------------------------------

  /** Rows by pane; a later row of the same pane replaces an earlier one. */
  function ByPane(rows: seq<Row>): map<string, Row> {
    if rows == [] then map[]
    else ByPane(rows[..|rows| - 1])[rows[|rows| - 1].pane := rows[|rows| - 1]]
  }

  function Panes(rows: seq<Row>): set<string> {
    if rows == [] then {} else Panes(rows[..|rows| - 1]) + {rows[|rows| - 1].pane}
  }

  function Change(before: map<string, Row>, row: Row): seq<Edge> {
    if row.pane !in before then [EdgeOf(row, None, Some(row.Class()))]
    else if before[row.pane].Class() == row.Class() then []
    else [EdgeOf(row, Some(before[row.pane].Class()), Some(row.Class()))]
  }

  function Changes(before: map<string, Row>, next: seq<Row>): seq<Edge> {
    if next == [] then [] else Changes(before, next[..|next| - 1]) + Change(before, next[|next| - 1])
  }

  function Departure(present: set<string>, row: Row): seq<Edge> {
    if row.pane in present then [] else [EdgeOf(row, Some(row.Class()), None)]
  }

  function Departures(present: set<string>, prev: seq<Row>): seq<Edge> {
    if prev == [] then [] else Departures(present, prev[..|prev| - 1]) + Departure(present, prev[|prev| - 1])
  }

  /** Appearances and changes in the order of `next`, then departures in the order of `prev`. */
  function Diff(prev: seq<Row>, next: seq<Row>): seq<Edge> {
    Changes(ByPane(prev), next) + Departures(Panes(next), prev)
  }

  method IndexRows(rows: seq<Row>) returns (byPane: map<string, Row>)
    ensures byPane == ByPane(rows)
  {
    byPane := map[];
    for i := 0 to |rows|
      invariant byPane == ByPane(rows[..i])
    {
      assert rows[..i + 1][..i] == rows[..i];
      byPane := byPane[rows[i].pane := rows[i]];
    }
    assert rows[..|rows|] == rows;
  }

  method IndexPanes(rows: seq<Row>) returns (present: set<string>)
    ensures present == Panes(rows)
  {
    present := {};
    for i := 0 to |rows|
      invariant present == Panes(rows[..i])
    {
      assert rows[..i + 1][..i] == rows[..i];
      present := present + {rows[i].pane};
    }
    assert rows[..|rows|] == rows;
  }

  method DiffRows(prev: seq<Row>, next: seq<Row>) returns (edges: seq<Edge>)
    ensures edges == Diff(prev, next)
  {
    var byPane := IndexRows(prev);
    edges := [];
    for i := 0 to |next|
      invariant edges == Changes(byPane, next[..i])
    {
      assert next[..i + 1][..i] == next[..i];
      var row := next[i];
      if row.pane in byPane {
        var from := byPane[row.pane].Class();
        if from != row.Class() {
          edges := edges + [EdgeOf(row, Some(from), Some(row.Class()))];
        }
      } else {
        edges := edges + [EdgeOf(row, None, Some(row.Class()))];
      }
    }
    assert next[..|next|] == next;
    var present := IndexPanes(next);
    ghost var changes := edges;
    for i := 0 to |prev|
      invariant edges == changes + Departures(present, prev[..i])
    {
      assert prev[..i + 1][..i] == prev[..i];
      if prev[i].pane !in present {
        edges := edges + [EdgeOf(prev[i], Some(prev[i].Class()), None)];
      }
    }
    assert prev[..|prev|] == prev;
  }

  // ----- pane by pane ---------------------------------------------------------------------------

  type Classes = map<string, StateToken>

  function Lookup(classes: Classes, pane: string): Option<StateToken> {
    if pane in classes then Some(classes[pane]) else None
  }

  /** An observation names each pane once. */
  predicate Distinct(rows: seq<Row>) {
    forall i, j | 0 <= i < j < |rows| :: rows[i].pane != rows[j].pane
  }

  /** The class of every pane observed. */
  function ClassesOf(rows: seq<Row>): Classes {
    map pane | pane in ByPane(rows) :: ByPane(rows)[pane].Class()
  }

  function EdgesFor(edges: seq<Edge>, pane: string): seq<Edge> {
    if edges == [] then []
    else
      var e := edges[|edges| - 1];
      EdgesFor(edges[..|edges| - 1], pane) + if e.pane == pane then [e] else []
  }

  lemma {:induction false} EdgesForAppend(xs: seq<Edge>, ys: seq<Edge>, pane: string)
    ensures EdgesFor(xs + ys, pane) == EdgesFor(xs, pane) + EdgesFor(ys, pane)
    decreases |ys|
  {
    if ys == [] {
      assert xs + ys == xs;
    } else {
      assert (xs + ys)[..|xs| + |ys| - 1] == xs + ys[..|ys| - 1];
      EdgesForAppend(xs, ys[..|ys| - 1], pane);
    }
  }

  lemma EdgesForOne(edges: seq<Edge>, pane: string)
    requires |edges| <= 1
    ensures EdgesFor(edges, pane) == if edges != [] && edges[0].pane == pane then edges else []
  {
    if |edges| == 1 {
      assert EdgesFor(edges[..0], pane) == [];
      assert edges == [edges[0]];
    }
  }

  lemma {:induction false} PanesIndexed(rows: seq<Row>, pane: string)
    ensures pane in Panes(rows) <==> pane in ByPane(rows)
    ensures pane in ByPane(rows) ==> ByPane(rows)[pane].pane == pane
    decreases |rows|
  {
    if rows != [] { PanesIndexed(rows[..|rows| - 1], pane); }
  }

  lemma {:induction false} LastRowIsNew(rows: seq<Row>, row: Row)
    requires forall i | 0 <= i < |rows| :: rows[i].pane != row.pane
    ensures row.pane !in ByPane(rows)
    decreases |rows|
  {
    if rows != [] { LastRowIsNew(rows[..|rows| - 1], row); }
  }

  lemma ChangeFor(before: map<string, Row>, row: Row, pane: string)
    ensures EdgesFor(Change(before, row), pane) == if pane == row.pane then Change(before, row) else []
  {
    EdgesForOne(Change(before, row), pane);
  }

  lemma {:induction false} ChangesFor(before: map<string, Row>, next: seq<Row>, pane: string)
    requires Distinct(next)
    ensures EdgesFor(Changes(before, next), pane)
         == if pane in ByPane(next) then Change(before, ByPane(next)[pane]) else []
    decreases |next|
  {
    if next != [] {
      var init, row := next[..|next| - 1], next[|next| - 1];
      ChangesFor(before, init, pane);
      LastRowIsNew(init, row);
      ChangeFor(before, row, pane);
      EdgesForAppend(Changes(before, init), Change(before, row), pane);
    }
  }

  lemma {:induction false} DeparturesFor(present: set<string>, prev: seq<Row>, pane: string)
    requires Distinct(prev)
    ensures EdgesFor(Departures(present, prev), pane)
         == if pane in ByPane(prev) then Departure(present, ByPane(prev)[pane]) else []
    decreases |prev|
  {
    if prev != [] {
      var init, row := prev[..|prev| - 1], prev[|prev| - 1];
      DeparturesFor(present, init, pane);
      LastRowIsNew(init, row);
      EdgesForOne(Departure(present, row), pane);
      EdgesForAppend(Departures(present, init), Departure(present, row), pane);
    }
  }

  /** A pane has one edge if its class changed, appeared or vanished, from the one to the other and
      built from the last row seen of it, and none otherwise. */
  lemma DiffForPane(prev: seq<Row>, next: seq<Row>, pane: string)
    requires Distinct(prev) && Distinct(next)
    ensures EdgesFor(Diff(prev, next), pane)
         == if Lookup(ClassesOf(prev), pane) == Lookup(ClassesOf(next), pane) then []
            else [EdgeOf(if pane in ByPane(next) then ByPane(next)[pane] else ByPane(prev)[pane],
                         Lookup(ClassesOf(prev), pane), Lookup(ClassesOf(next), pane))]
  {
    ChangesFor(ByPane(prev), next, pane);
    DeparturesFor(Panes(next), prev, pane);
    EdgesForAppend(Changes(ByPane(prev), next), Departures(Panes(next), prev), pane);
    PanesIndexed(next, pane);
    PanesIndexed(prev, pane);
  }

  // ----- replay ---------------------------------------------------------------------------------

  /** What a consumer of the stream does with an edge. */
  function Apply(classes: Classes, e: Edge): Classes {
    if e.to.Some? then classes[e.pane := e.to.value] else classes - {e.pane}
  }

  function Replay(classes: Classes, edges: seq<Edge>): Classes {
    if edges == [] then classes else Apply(Replay(classes, edges[..|edges| - 1]), edges[|edges| - 1])
  }

  /** A pane ends where its last edge leads. */
  lemma {:induction false} ReplayForPane(classes: Classes, edges: seq<Edge>, pane: string)
    ensures Lookup(Replay(classes, edges), pane)
         == var es := EdgesFor(edges, pane); if es == [] then Lookup(classes, pane) else es[|es| - 1].to
    decreases |edges|
  {
    if edges != [] { ReplayForPane(classes, edges[..|edges| - 1], pane); }
  }

  lemma SameClasses(a: Classes, b: Classes)
    requires forall pane :: Lookup(a, pane) == Lookup(b, pane)
    ensures a == b
  {
    forall pane ensures pane in a <==> pane in b
                ensures pane in a && pane in b ==> a[pane] == b[pane] {
      assert Lookup(a, pane) == Lookup(b, pane);
    }
  }

  /** Replaying a diff on the earlier observation gives the later one. */
  lemma DiffReplays(prev: seq<Row>, next: seq<Row>)
    requires Distinct(prev) && Distinct(next)
    ensures Replay(ClassesOf(prev), Diff(prev, next)) == ClassesOf(next)
  {
    forall pane ensures Lookup(Replay(ClassesOf(prev), Diff(prev, next)), pane) == Lookup(ClassesOf(next), pane) {
      DiffForPane(prev, next, pane);
      ReplayForPane(ClassesOf(prev), Diff(prev, next), pane);
    }
    SameClasses(Replay(ClassesOf(prev), Diff(prev, next)), ClassesOf(next));
  }

  /** Nothing is streamed exactly when no class changed. */
  lemma DiffEmptyExactly(prev: seq<Row>, next: seq<Row>)
    requires Distinct(prev) && Distinct(next)
    ensures Diff(prev, next) == [] <==> ClassesOf(prev) == ClassesOf(next)
  {
    if Diff(prev, next) == [] {
      DiffReplays(prev, next);
    } else if ClassesOf(prev) == ClassesOf(next) {
      var edges := Diff(prev, next);
      DiffForPane(prev, next, edges[|edges| - 1].pane);
    }
  }

  /** All the edges streamed over a sequence of observations. */
  function Stream(observations: seq<seq<Row>>): seq<Edge> {
    if |observations| < 2 then []
    else Stream(observations[..|observations| - 1])
         + Diff(observations[|observations| - 2], observations[|observations| - 1])
  }

  lemma {:induction false} ReplayAppend(classes: Classes, xs: seq<Edge>, ys: seq<Edge>)
    ensures Replay(classes, xs + ys) == Replay(Replay(classes, xs), ys)
    decreases |ys|
  {
    if ys == [] {
      assert xs + ys == xs;
    } else {
      assert (xs + ys)[..|xs| + |ys| - 1] == xs + ys[..|ys| - 1];
      ReplayAppend(classes, xs, ys[..|ys| - 1]);
    }
  }

  /** A consumer that saw the first observation and every edge since knows the last one. */
  lemma {:induction false} StreamReconstructs(observations: seq<seq<Row>>)
    requires observations != [] && forall i | 0 <= i < |observations| :: Distinct(observations[i])
    ensures Replay(ClassesOf(observations[0]), Stream(observations)) == ClassesOf(observations[|observations| - 1])
    decreases |observations|
  {
    var n := |observations|;
    if n >= 2 {
      var before, last := Stream(observations[..n - 1]), Diff(observations[n - 2], observations[n - 1]);
      StreamReconstructs(observations[..n - 1]);
      DiffReplays(observations[n - 2], observations[n - 1]);
      ReplayAppend(ClassesOf(observations[0]), before, last);
    }
  }

  // ----- what an edge says ------------------------------------------------------------------------

  /** Of the idle only those that ask for a look are done; everything else keeps its state. */
  lemma ClassExactly(row: Row)
    ensures row.Class() == Done <==> row.state == Idle && row.attention
    ensures forall state :: row.Class() == Closed(state) <==> row.state == state && !(state == Idle && row.attention)
  {
  }

  /** The edge is about this row of this pane. */
  predicate Describes(e: Edge, row: Row) {
    e.pane == row.pane && e.agent == row.agent && e.detail == row.detail && e.locator == row.locator
  }

  /** Every edge leads from the class its pane had to the class it has, which differ, and carries what the
      last row seen of the pane says. */
  lemma EdgeSays(prev: seq<Row>, next: seq<Row>, k: int)
    requires Distinct(prev) && Distinct(next) && 0 <= k < |Diff(prev, next)|
    ensures var e := Diff(prev, next)[k];
      && e.from == Lookup(ClassesOf(prev), e.pane) && e.to == Lookup(ClassesOf(next), e.pane) && e.from != e.to
      && (e.pane in ByPane(next) || e.pane in ByPane(prev))
      && Describes(e, if e.pane in ByPane(next) then ByPane(next)[e.pane] else ByPane(prev)[e.pane])
  {
    var edges := Diff(prev, next);
    var pane := edges[k].pane;
    DiffForPane(prev, next, pane);
    EdgesForKeeps(edges, k);
    PanesIndexed(next, pane);
    PanesIndexed(prev, pane);
  }

  lemma {:induction false} EdgesForKeeps(edges: seq<Edge>, k: int)
    requires 0 <= k < |edges|
    ensures edges[k] in EdgesFor(edges, edges[k].pane)
    decreases |edges|
  {
    var last := |edges| - 1;
    if k < last {
      EdgesForKeeps(edges[..last], k);
      assert edges[..last][k] == edges[k];
    }
  }

  /** Taking a diff back, last edge first. */
  function Rewind(classes: Classes, edges: seq<Edge>): Classes
    decreases |edges|
  {
    if edges == [] then classes
    else
      var e := edges[|edges| - 1];
      Rewind(if e.from.Some? then classes[e.pane := e.from.value] else classes - {e.pane}, edges[..|edges| - 1])
  }

  lemma {:induction false} RewindForPane(classes: Classes, edges: seq<Edge>, pane: string)
    ensures Lookup(Rewind(classes, edges), pane)
         == var es := EdgesFor(edges, pane); if es == [] then Lookup(classes, pane) else es[0].from
    decreases |edges|
  {
    if edges != [] {
      var e := edges[|edges| - 1];
      var undone := if e.from.Some? then classes[e.pane := e.from.value] else classes - {e.pane};
      RewindForPane(undone, edges[..|edges| - 1], pane);
    }
  }

  /** A diff can be taken back: from the later observation it leads to the earlier one. */
  lemma DiffRewinds(prev: seq<Row>, next: seq<Row>)
    requires Distinct(prev) && Distinct(next)
    ensures Rewind(ClassesOf(next), Diff(prev, next)) == ClassesOf(prev)
  {
    forall pane ensures Lookup(Rewind(ClassesOf(next), Diff(prev, next)), pane) == Lookup(ClassesOf(prev), pane) {
      DiffForPane(prev, next, pane);
      RewindForPane(ClassesOf(next), Diff(prev, next), pane);
    }
    SameClasses(Rewind(ClassesOf(next), Diff(prev, next)), ClassesOf(prev));
  }

  /** The row of a pane, counted from the first; -1 when there is none. */
  function Position(rows: seq<Row>, pane: string): (i: int)
    ensures i == -1 || (0 <= i < |rows| && rows[i].pane == pane)
  {
    if rows == [] then -1
    else if rows[|rows| - 1].pane == pane then |rows| - 1
    else Position(rows[..|rows| - 1], pane)
  }

  predicate InOrder(edges: seq<Edge>, rows: seq<Row>) {
    && (forall k | 0 <= k < |edges| :: Position(rows, edges[k].pane) >= 0)
    && (forall j, k | 0 <= j < k < |edges| :: Position(rows, edges[j].pane) < Position(rows, edges[k].pane))
  }

  lemma OneMoreRow(edges: seq<Edge>, more: seq<Edge>, rows: seq<Row>, row: Row)
    requires InOrder(edges, rows) && |more| <= 1 && (|more| == 1 ==> more[0].pane == row.pane)
    requires Position(rows, row.pane) == -1
    ensures InOrder(edges + more, rows + [row])
  {
    assert (rows + [row])[..|rows|] == rows;
    forall k | 0 <= k < |edges| ensures Position(rows + [row], edges[k].pane) == Position(rows, edges[k].pane) {
    }
  }

  lemma {:induction false} NewPosition(rows: seq<Row>, pane: string)
    ensures Position(rows, pane) == -1 <==> pane !in ByPane(rows)
    decreases |rows|
  {
    if rows != [] { NewPosition(rows[..|rows| - 1], pane); }
  }

  lemma {:induction false} ChangesInOrder(before: map<string, Row>, next: seq<Row>)
    requires Distinct(next)
    ensures InOrder(Changes(before, next), next)
    ensures forall k | 0 <= k < |Changes(before, next)| :: Changes(before, next)[k].to.Some?
    decreases |next|
  {
    if next != [] {
      var init, row := next[..|next| - 1], next[|next| - 1];
      ChangesInOrder(before, init);
      LastRowIsNew(init, row);
      NewPosition(init, row.pane);
      OneMoreRow(Changes(before, init), Change(before, row), init, row);
      assert init + [row] == next;
    }
  }

  lemma {:induction false} DeparturesInOrder(present: set<string>, prev: seq<Row>)
    requires Distinct(prev)
    ensures InOrder(Departures(present, prev), prev)
    ensures forall k | 0 <= k < |Departures(present, prev)| :: Departures(present, prev)[k].to.None?
    decreases |prev|
  {
    if prev != [] {
      var init, row := prev[..|prev| - 1], prev[|prev| - 1];
      DeparturesInOrder(present, init);
      LastRowIsNew(init, row);
      NewPosition(init, row.pane);
      OneMoreRow(Departures(present, init), Departure(present, row), init, row);
      assert init + [row] == prev;
    }
  }

  /** The edges that lead somewhere come first, in the order of the later observation; then the departures,
      in the order of the earlier one. */
  lemma DiffInOrder(prev: seq<Row>, next: seq<Row>) returns (n: nat)
    requires Distinct(prev) && Distinct(next)
    ensures n <= |Diff(prev, next)|
    ensures forall k | 0 <= k < |Diff(prev, next)| :: Diff(prev, next)[k].to.Some? <==> k < n
    ensures InOrder(Diff(prev, next)[..n], next) && InOrder(Diff(prev, next)[n..], prev)
  {
    n := |Changes(ByPane(prev), next)|;
    ChangesInOrder(ByPane(prev), next);
    DeparturesInOrder(Panes(next), prev);
    assert Diff(prev, next)[..n] == Changes(ByPane(prev), next);
    assert Diff(prev, next)[n..] == Departures(Panes(next), prev);
  }
}
