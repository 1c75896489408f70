/** The network graph component: how a node is labelled, described, sized and
    coloured, how a link is stroked, where link ends and nodes are drawn, the
    private copies handed to the force simulation, and the drag handlers that pin
    and unpin a node and steer the simulation's alpha target. */
module NetworkGraph {
  import opened Seqs
  import opened Text
  import opened GraphData

  // ------------------------------------------------------ node presentation

  /** The text drawn beside a node: `d.question || d.label || d.id`. */
  function DisplayLabel(n: Node): (r: string)
    ensures HasText(n.question) ==> r == n.question.value
    ensures !HasText(n.question) && HasText(n.labelText) ==> r == n.labelText.value
    ensures !HasText(n.question) && !HasText(n.labelText) ==> r == n.id
    ensures r == "" <==> !HasText(n.question) && !HasText(n.labelText) && n.id == ""
  {
    if HasText(n.question) then n.question.value
    else if HasText(n.labelText) then n.labelText.value
    else n.id
  }

  /** 1 for a part that is present, 0 for one that is left out. */
  function OneIf(b: bool): nat
  {
    if b then 1 else 0
  }

  /** The tooltip lines: the id, then question, label, year and the outlier mark,
      each present exactly when its field is truthy, always in this order. */
  function TooltipLines(n: Node): (r: seq<string>)
    ensures |r| == 1 + OneIf(HasText(n.question)) + OneIf(HasText(n.labelText)) +
                   OneIf(HasYear(n)) + OneIf(IsOutlier(n))
    ensures r[0] == "ID: " + n.id
    ensures HasText(n.question) ==> r[1] == "Question: " + n.question.value
    ensures HasText(n.labelText) ==>
              r[1 + OneIf(HasText(n.question))] == "Label: " + n.labelText.value
    ensures HasYear(n) ==>
              r[1 + OneIf(HasText(n.question)) + OneIf(HasText(n.labelText))] ==
              "Year: " + IntToString(n.year.value)
    ensures IsOutlier(n) <==> r[|r| - 1] == "Outlier"
  {
    var q := if HasText(n.question) then ["Question: " + n.question.value] else [];
    var l := if HasText(n.labelText) then ["Label: " + n.labelText.value] else [];
    var y := if HasYear(n) then ["Year: " + IntToString(n.year.value)] else [];
    var o := if IsOutlier(n) then ["Outlier"] else [];
    PartsInOrder("ID: " + n.id, q, l, y, o);
    var r := ["ID: " + n.id] + q + l + y + o;
    if IsOutlier(n) then r
    else
      var last := if HasYear(n) then y[0] else if HasText(n.labelText) then l[0]
                  else if HasText(n.question) then q[0] else "ID: " + n.id;
      NotTheOutlierLine(last);
      r
  }

  /** Where each optional part of `[first] + q + l + y + o` lands, each part
      holding at most one line. */
  lemma PartsInOrder(first: string, q: seq<string>, l: seq<string>, y: seq<string>, o: seq<string>)
    requires |q| <= 1 && |l| <= 1 && |y| <= 1 && |o| <= 1
    ensures var r := [first] + q + l + y + o;
            |r| == 1 + |q| + |l| + |y| + |o| && r[0] == first &&
            (|q| == 1 ==> r[1] == q[0]) &&
            (|l| == 1 ==> r[1 + |q|] == l[0]) &&
            (|y| == 1 ==> r[1 + |q| + |l|] == y[0]) &&
            r[|r| - 1] == (if |o| == 1 then o[0] else if |y| == 1 then y[0]
                           else if |l| == 1 then l[0] else if |q| == 1 then q[0] else first)
  {
  }

  /** A tooltip line other than the outlier mark starts with another letter. */
  lemma NotTheOutlierLine(line: string)
    requires line != [] && line[0] != 'O'
    ensures line != "Outlier"
  {
  }

  /** The tooltip text, built by pushing the lines one by one and joining them. */
  method Tooltip(n: Node) returns (text: string)
    ensures text == Join(TooltipLines(n), "\n")
  {
    var q := if HasText(n.question) then ["Question: " + n.question.value] else [];
    var l := if HasText(n.labelText) then ["Label: " + n.labelText.value] else [];
    var y := if HasYear(n) then ["Year: " + IntToString(n.year.value)] else [];
    var o := if IsOutlier(n) then ["Outlier"] else [];
    var parts := ["ID: " + n.id];
    if HasText(n.question) {
      parts := parts + ["Question: " + n.question.value];
    }
    assert parts == ["ID: " + n.id] + q;
    if HasText(n.labelText) {
      parts := parts + ["Label: " + n.labelText.value];
    }
    assert parts == ["ID: " + n.id] + q + l;
    if HasYear(n) {
      parts := parts + ["Year: " + IntToString(n.year.value)];
    }
    assert parts == ["ID: " + n.id] + q + l + y;
    if IsOutlier(n) {
      parts := parts + ["Outlier"];
    }
    assert parts == ["ID: " + n.id] + q + l + y + o;
    TooltipLinesPieces(n);
    assert parts == TooltipLines(n);
    text := Join(parts, "\n");
  }

  /** `TooltipLines` as the concatenation of its optional pieces. */
  lemma TooltipLinesPieces(n: Node)
    ensures TooltipLines(n) ==
            ["ID: " + n.id]
            + (if HasText(n.question) then ["Question: " + n.question.value] else [])
            + (if HasText(n.labelText) then ["Label: " + n.labelText.value] else [])
            + (if HasYear(n) then ["Year: " + IntToString(n.year.value)] else [])
            + (if IsOutlier(n) then ["Outlier"] else [])
  {
  }

  /** When no field holds a line break, the tooltip splits back into its lines. */
  lemma TooltipSplitsIntoLines(n: Node)
    requires '\n' !in n.id
    requires n.question.Some? ==> '\n' !in n.question.value
    requires n.labelText.Some? ==> '\n' !in n.labelText.value
    ensures Split(Join(TooltipLines(n), "\n"), '\n') == TooltipLines(n)
  {
    var lines := TooltipLines(n);
    forall i | 0 <= i < |lines| ensures '\n' !in lines[i] {
      if HasYear(n) && lines[i] == "Year: " + IntToString(n.year.value) {
        var digits := IntToString(n.year.value);
        forall k | 0 <= k < |digits| ensures digits[k] != '\n' {
        }
        assert lines[i] == "Year: " + digits;
      }
    }
    SplitJoin(lines, '\n');
  }

  /** The circle radius: larger for outliers. */
  function Radius(n: Node): (r: nat)
    ensures r == 8 <==> IsOutlier(n)
    ensures r == 6 <==> !IsOutlier(n)
  {
    if IsOutlier(n) then 8 else 6
  }

  /** The range of the year colour scale. */
  datatype Palette = Chart1 | Chart2 | Chart3

  /** A circle's fill: the destructive colour, or a palette colour. */
  datatype Fill = Destructive | PaletteFill(colour: Palette)

  /** The circle fill. `colorScale` is the ordinal scale over the colour domain. */
  function NodeFill(n: Node, colorScale: int -> Palette): (f: Fill)
    ensures f == Destructive <==> IsOutlier(n)
    ensures !IsOutlier(n) && HasYear(n) ==> f == PaletteFill(colorScale(n.year.value))
    ensures !IsOutlier(n) && !HasYear(n) ==> f == PaletteFill(Chart1)
  {
    if IsOutlier(n) then Destructive
    else if HasYear(n) then PaletteFill(colorScale(n.year.value))
    else PaletteFill(Chart1)
  }

  /** The colour domain keeps first-seen order: it is not the sorted year list. */
  lemma ColourDomainIsUnsorted(a: Node, b: Node)
    requires a.year == Some(2020) && b.year == Some(2019)
    ensures DistinctYears([a, b]) == [2020, 2019]
  {
    assert TruthyYears([a, b]) == [2020, 2019] by {
      assert [a, b][1..] == [b];
      assert TruthyYears([b]) == [2019] by {
        assert [b][1..] == [];
      }
    }
    assert [2020, 2019][..1] == [2020];
    assert Distinct([2020]) == [2020] by {
      assert [2020][..0] == [];
    }
  }

  // ---------------------------------------------------------- link strokes

  /** `0.2 + similarity * 0.6` with `similarity = d.similarity ?? 1`. */
  function StrokeOpacity(l: Link): (o: real)
    ensures 0.0 <= SimilarityOrDefault(l) <= 1.0 ==> 0.2 <= o <= 0.8
    ensures l.similarity.None? ==> o == 0.8
  {
    0.2 + SimilarityOrDefault(l) * 0.6
  }

  /** `1 + similarity * 3` with `similarity = d.similarity ?? 1`. */
  function StrokeWidth(l: Link): (w: real)
    ensures 0.0 <= SimilarityOrDefault(l) <= 1.0 ==> 1.0 <= w <= 4.0
    ensures l.similarity.None? ==> w == 4.0
    ensures w == 5.0 * StrokeOpacity(l)
  {
    1.0 + SimilarityOrDefault(l) * 3.0
  }

  /** A more similar link is drawn more opaque and wider. */
  lemma StrokeMonotone(a: Link, b: Link)
    requires SimilarityOrDefault(a) < SimilarityOrDefault(b)
    ensures StrokeOpacity(a) < StrokeOpacity(b)
    ensures StrokeWidth(a) < StrokeWidth(b)
  {
  }

  // ------------------------------------------------------------ positions

  /** `c ?? 0`. */
  function OrZero(c: Option<real>): real
  {
    match c
    case None => 0.0
    case Some(v) => v
  }

  /** The node group's translation `(d.x ?? 0, d.y ?? 0)`. */
  function Translation(n: Node): (t: (real, real))
    ensures n.x.Some? ==> t.0 == n.x.value
    ensures n.y.Some? ==> t.1 == n.y.value
    ensures n.x.None? ==> t.0 == 0.0
    ensures n.y.None? ==> t.1 == 0.0
  {
    (OrZero(n.x), OrZero(n.y))
  }

  datatype Segment = Segment(x1: real, y1: real, x2: real, y2: real)

  /** The line of a link whose endpoints were resolved to `source` and `target`:
      it runs between the two points the nodes are drawn at. */
  function LinkSegment(source: Node, target: Node): (s: Segment)
    ensures (s.x1, s.y1) == Translation(source)
    ensures (s.x2, s.y2) == Translation(target)
  {
    Segment(OrZero(source.x), OrZero(source.y), OrZero(target.x), OrZero(target.y))
  }

  // ------------------------------------------------------ simulation state

  /** A mutable record object: what `{ ...d }` creates and the simulation mutates. */
  class Datum<T> {
    var rec: T

    constructor (r: T)
      ensures rec == r
    {
      rec := r;
    }
  }

  /** `xs.map((d) => ({ ...d }))`: one new object per record, same length and order. */
  method CopyAll<T>(xs: seq<T>) returns (copies: seq<Datum<T>>)
    ensures |copies| == |xs|
    ensures forall i :: 0 <= i < |xs| ==> fresh(copies[i]) && copies[i].rec == xs[i]
    ensures forall i, j :: 0 <= i < j < |copies| ==> copies[i] != copies[j]
  {
    copies := [];
    var i := 0;
    while i < |xs|
      invariant 0 <= i <= |xs| && |copies| == i
      invariant forall k :: 0 <= k < i ==> fresh(copies[k]) && copies[k].rec == xs[k]
      invariant forall k, m :: 0 <= k < m < i ==> copies[k] != copies[m]
    {
      var d := new Datum(xs[i]);
      copies := copies + [d];
      i := i + 1;
    }
  }

  /** The state of the force simulation that the drag handlers change: its alpha
      target and whether its timer runs. The forces themselves are not modelled.
      The timer stops on clean-up and, inside d3, once the simulation has cooled;
      neither is modelled, so `running` stays true on these objects and `Restart`
      keeps it so; the drag-state functions below let it vary. */
  class Simulation {
    var alphaTarget: real
    var running: bool
    const nodes: seq<Datum<Node>>

    /** `forceSimulation(nodes)`: starts running, towards alpha target 0. */
    constructor (nodes: seq<Datum<Node>>)
      ensures this.nodes == nodes && alphaTarget == 0.0 && running
    {
      this.nodes := nodes;
      alphaTarget := 0.0;
      running := true;
    }

    method SetAlphaTarget(v: real)
      modifies this`alphaTarget
      ensures alphaTarget == v
    {
      alphaTarget := v;
    }

    method Restart()
      modifies this`running
      ensures running
    {
      running := true;
    }
  }

  // ----------------------------------------------------------------- drag

  /** A drag event: `active` counts the other gestures in progress, `(x, y)` is where the
      subject is being dragged to: its position at the start plus the pointer's movement. */
  datatype DragEvent = DragEvent(active: nat, x: real, y: real)

  datatype Phase = Start | Move | End

  /** What the drag handlers read and write: the dragged node's record and the
      simulation's alpha target and timer. */
  datatype DragState = DragState(subject: Node, alphaTarget: real, running: bool)

  /** The effect of one drag callback. Only the node's pin and the simulation
      change; a start or an end moves the alpha target only when no other drag is
      active, and only a start restarts the timer. */
  function OnDrag(s: DragState, phase: Phase, ev: DragEvent): (r: DragState)
    ensures r.subject == s.subject.(fx := r.subject.fx, fy := r.subject.fy)
    ensures phase == Start ==>
              r.subject.fx == s.subject.x && r.subject.fy == s.subject.y &&
              (ev.active == 0 ==> r.alphaTarget == 0.3 && r.running) &&
              (ev.active > 0 ==> r.alphaTarget == s.alphaTarget && r.running == s.running)
    ensures phase == Move ==>
              r.subject.fx == Some(ev.x) && r.subject.fy == Some(ev.y) &&
              r.alphaTarget == s.alphaTarget && r.running == s.running
    ensures phase == End ==>
              r.subject.fx.None? && r.subject.fy.None? && r.running == s.running &&
              r.alphaTarget == (if ev.active == 0 then 0.0 else s.alphaTarget)
  {
    match phase
    case Start =>
      DragState(s.subject.(fx := s.subject.x, fy := s.subject.y),
                if ev.active == 0 then 0.3 else s.alphaTarget,
                if ev.active == 0 then true else s.running)
    case Move =>
      s.(subject := s.subject.(fx := Some(ev.x), fy := Some(ev.y)))
    case End =>
      DragState(s.subject.(fx := None, fy := None),
                if ev.active == 0 then 0.0 else s.alphaTarget,
                s.running)
  }

  /** The effect of a sequence of drag callbacks: whatever the sequence, only
      the node's pin changes, and a running timer is never stopped. */
  function Replay(s: DragState, steps: seq<(Phase, DragEvent)>): (r: DragState)
    ensures r.subject == s.subject.(fx := r.subject.fx, fy := r.subject.fy)
    ensures s.running ==> r.running
    decreases |steps|
  {
    if steps == [] then s else Replay(OnDrag(s, steps[0].0, steps[0].1), steps[1..])
  }

  lemma {:induction false} ReplayAppend(s: DragState, a: seq<(Phase, DragEvent)>, b: seq<(Phase, DragEvent)>)
    ensures Replay(s, a + b) == Replay(Replay(s, a), b)
    decreases |a|
  {
    if a == [] {
      assert a + b == b;
    } else {
      assert (a + b)[0] == a[0] && (a + b)[1..] == a[1..] + b;
      ReplayAppend(OnDrag(s, a[0].0, a[0].1), a[1..], b);
    }
  }

  ghost predicate AllMoves(steps: seq<(Phase, DragEvent)>)
  {
    forall k :: 0 <= k < |steps| ==> steps[k].0 == Move
  }

  /** During a drag the node is pinned at the last drag event's position; nothing else
      of the node and nothing of the simulation changes. */
  lemma {:induction false} MovesPinAtEventPosition(s: DragState, moves: seq<(Phase, DragEvent)>)
    requires |moves| >= 1 && AllMoves(moves)
    ensures var last := moves[|moves| - 1].1;
            Replay(s, moves) ==
            s.(subject := s.subject.(fx := Some(last.x), fy := Some(last.y)))
    decreases |moves|
  {
    var next := OnDrag(s, moves[0].0, moves[0].1);
    if |moves| > 1 {
      MovesPinAtEventPosition(next, moves[1..]);
    }
  }

  /** A drag-start, any number of drag moves and a drag-end leave the node as it
      was except that it is unpinned. */
  lemma GestureUnpins(s: DragState, start: DragEvent, moves: seq<(Phase, DragEvent)>, end: DragEvent)
    requires AllMoves(moves)
    ensures Replay(s, [(Start, start)] + moves + [(End, end)]).subject ==
            s.subject.(fx := None, fy := None)
  {
    var started := OnDrag(s, Start, start);
    ReplayAppend(s, [(Start, start)] + moves, [(End, end)]);
    ReplayAppend(s, [(Start, start)], moves);
    if |moves| >= 1 {
      MovesPinAtEventPosition(started, moves);
    }
  }

  /** Alpha target and timer over a whole gesture: a gesture that is the only one
      in progress heats the simulation up and lets it cool to 0; one that overlaps
      another leaves both untouched. */
  lemma GestureAlpha(s: DragState, start: DragEvent, moves: seq<(Phase, DragEvent)>, end: DragEvent)
    requires AllMoves(moves)
    ensures var t := Replay(s, [(Start, start)] + moves + [(End, end)]);
            (start.active == 0 && end.active == 0 ==> t.alphaTarget == 0.0 && t.running) &&
            (start.active > 0 && end.active > 0 ==> t.alphaTarget == s.alphaTarget && t.running == s.running)
  {
    var started := OnDrag(s, Start, start);
    ReplayAppend(s, [(Start, start)] + moves, [(End, end)]);
    ReplayAppend(s, [(Start, start)], moves);
    if |moves| >= 1 {
      MovesPinAtEventPosition(started, moves);
    }
  }

  /** The drag state the handlers see. */
  function StateOf(simulation: Simulation, subject: Datum<Node>): DragState
    reads simulation, subject
  {
    DragState(subject.rec, simulation.alphaTarget, simulation.running)
  }

  /** `dragstarted`: heat the simulation up if no other drag is active, and pin
      the node where it is. */
  method DragStarted(simulation: Simulation, ev: DragEvent, subject: Datum<Node>)
    modifies simulation, subject
    ensures StateOf(simulation, subject) == OnDrag(old(StateOf(simulation, subject)), Start, ev)
    ensures forall m :: m in simulation.nodes && m != subject ==> m.rec == old(m.rec)
  {
    if ev.active == 0 {
      simulation.SetAlphaTarget(0.3);
      simulation.Restart();
    }
    subject.rec := subject.rec.(fx := subject.rec.x);
    subject.rec := subject.rec.(fy := subject.rec.y);
  }

  /** `dragged`: move the pin to the drag event's position. */
  method Dragged(simulation: Simulation, ev: DragEvent, subject: Datum<Node>)
    modifies subject
    ensures StateOf(simulation, subject) == OnDrag(old(StateOf(simulation, subject)), Move, ev)
    ensures forall m :: m in simulation.nodes && m != subject ==> m.rec == old(m.rec)
  {
    subject.rec := subject.rec.(fx := Some(ev.x));
    subject.rec := subject.rec.(fy := Some(ev.y));
  }

  /** `dragended`: let the simulation cool if no other drag is active, and unpin the node. */
  method DragEnded(simulation: Simulation, ev: DragEvent, subject: Datum<Node>)
    modifies simulation, subject
    ensures StateOf(simulation, subject) == OnDrag(old(StateOf(simulation, subject)), End, ev)
    ensures forall m :: m in simulation.nodes && m != subject ==> m.rec == old(m.rec)
  {
    if ev.active == 0 {
      simulation.SetAlphaTarget(0.0);
    }
    subject.rec := subject.rec.(fx := None);
    subject.rec := subject.rec.(fy := None);
  }
}
