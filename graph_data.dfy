/** The `Node` and `Link` records of the dashboard, the JavaScript truthiness
    tests its rules use on their optional fields, and the two derived values that
    both the page and the graph component compute from them: a link's similarity
    with its default, and the distinct years of a node list. */
module GraphData {
  import opened Seqs

  datatype Option<+T> = None | Some(value: T)

  /** The value of one of the open-ended extra fields, carried along unread. */
  datatype Attr = Attr(json: string)

  /** A graph node. `labelText` is the record's `label` field (`label` is a
      keyword here). `x`, `y`, `vx`, `vy`, `fx`, `fy` are the simulation fields;
      an absent field and a `null` one are both `None`. */
  datatype Node = Node(
    id: string,
    labelText: Option<string>,
    question: Option<string>,
    year: Option<int>,
    isOutlier: Option<bool>,
    x: Option<real>,
    y: Option<real>,
    vx: Option<real>,
    vy: Option<real>,
    fx: Option<real>,
    fy: Option<real>,
    extra: map<string, Attr>)

  /** A graph link, its endpoints given by node id. */
  datatype Link = Link(source: string, target: string, similarity: Option<real>, extra: map<string, Attr>)

  /** A text field is truthy when present and non-empty. */
  predicate HasText(s: Option<string>)
  {
    s.Some? && s.value != ""
  }

  /** `node.year` is truthy: present and non-zero. */
  predicate HasYear(n: Node)
  {
    n.year.Some? && n.year.value != 0
  }

  /** `node.isOutlier` is truthy. */
  predicate IsOutlier(n: Node)
  {
    n.isOutlier == Some(true)
  }

  /** `link.similarity ?? 1`: only an absent value is defaulted, a zero is kept. */
  function SimilarityOrDefault(l: Link): (s: real)
    ensures l.similarity.None? ==> s == 1.0
    ensures l.similarity.Some? ==> s == l.similarity.value
  {
    match l.similarity
    case None => 1.0
    case Some(v) => v
  }

  /** `nodes.map(n => n.year).filter(Boolean)`: the truthy years, in node order,
      one entry per node whose year is truthy. */
  function TruthyYears(nodes: seq<Node>): (r: seq<int>)
    ensures |r| <= |nodes|
    ensures forall y :: y in r <==> y != 0 && exists n :: n in nodes && n.year == Some(y)
  {
    if nodes == [] then []
    else
      assert nodes == [nodes[0]] + nodes[1..];
      var n := nodes[0];
      (if HasYear(n) then [n.year.value] else []) + TruthyYears(nodes[1..])
  }

  /** The truthy years follow the nodes that have one: one entry per such node,
      in node order, each that node's year. */
  ghost predicate FollowNodes(nodes: seq<Node>)
  {
    |TruthyYears(nodes)| == |Filter(HasYear, nodes)| &&
    forall i :: 0 <= i < |TruthyYears(nodes)| ==>
      Filter(HasYear, nodes)[i].year == Some(TruthyYears(nodes)[i])
  }

  /** The first step of `filter(HasYear)`. */
  lemma FilterHasYearStep(nodes: seq<Node>)
    requires nodes != []
    ensures Filter(HasYear, nodes) ==
            (if HasYear(nodes[0]) then [nodes[0]] else []) + Filter(HasYear, nodes[1..])
  {
    assert nodes == [nodes[0]] + nodes[1..];
  }

  /** Putting a node and its year in front of two lists that correspond
      position by position keeps them corresponding. */
  lemma ConsKeepsYears(n: Node, f': seq<Node>, t': seq<int>)
    requires n.year.Some?
    requires |t'| == |f'| && forall i :: 0 <= i < |t'| ==> f'[i].year == Some(t'[i])
    ensures var f, t := [n] + f', [n.year.value] + t';
            |t| == |f| && forall i :: 0 <= i < |t| ==> f[i].year == Some(t[i])
  {
    var f, t := [n] + f', [n.year.value] + t';
    forall i | 0 < i < |t| ensures f[i].year == Some(t[i]) {
      assert f[i] == f'[i - 1] && t[i] == t'[i - 1];
    }
  }

  /** One node more: a node with a truthy year adds its year in front, any
      other node adds nothing. */
  lemma FollowNodesStep(nodes: seq<Node>)
    requires nodes != [] && FollowNodes(nodes[1..])
    ensures FollowNodes(nodes)
  {
    var n, tail := nodes[0], nodes[1..];
    FilterHasYearStep(nodes);
    assert TruthyYears(nodes) == (if HasYear(n) then [n.year.value] else []) + TruthyYears(tail);
    if HasYear(n) {
      ConsKeepsYears(n, Filter(HasYear, tail), TruthyYears(tail));
    } else {
      assert TruthyYears(nodes) == TruthyYears(tail);
    }
  }

  lemma {:induction false} TruthyYearsFollowNodes(nodes: seq<Node>)
    ensures |TruthyYears(nodes)| == |Filter(HasYear, nodes)|
    ensures forall i :: 0 <= i < |TruthyYears(nodes)| ==>
              Filter(HasYear, nodes)[i].year == Some(TruthyYears(nodes)[i])
  {
    if nodes != [] {
      TruthyYearsFollowNodes(nodes[1..]);
      FollowNodesStep(nodes);
    }
  }

  /** `[...new Set(nodes.map(n => n.year).filter(Boolean))]`: every truthy year once,
      in the order in which the years are first seen. */
  function DistinctYears(nodes: seq<Node>): (r: seq<int>)
    ensures NoDuplicates(r)
    ensures 0 !in r
    ensures forall y :: y in r <==> y != 0 && exists n :: n in nodes && n.year == Some(y)
    ensures forall i :: 0 <= i < |r| ==> r[i] in TruthyYears(nodes)
    ensures forall i, j :: 0 <= i < j < |r| ==>
              FirstIndex(TruthyYears(nodes), r[i]) < FirstIndex(TruthyYears(nodes), r[j])
  {
    DistinctFirstSeenOrder(TruthyYears(nodes));
    Distinct(TruthyYears(nodes))
  }
}
