/** The dashboard page: the node and link filters, the year toggle, the year
    lists an upload derives from the nodes, the statistics, and the page state
    that a file upload changes. */
module Dashboard {
  import opened Seqs
  import opened Text
  import opened GraphData

  // ---------------------------------------------------------------- filters

  /** The year half of the node filter: the node has no truthy year, no year is
      selected, or its year is one of the selected ones. */
  predicate YearMatch(n: Node, selectedYears: seq<int>): (r: bool)
    ensures !HasYear(n) ==> r
    ensures |selectedYears| == 0 ==> r
    ensures HasYear(n) && |selectedYears| > 0 ==> (r <==> n.year.value in selectedYears)
  {
    !HasYear(n) || |selectedYears| == 0 || n.year.value in selectedYears
  }

  /** The outlier half of the node filter. */
  predicate OutlierMatch(n: Node, showOutliers: bool): (r: bool)
    ensures showOutliers ==> r
    ensures !showOutliers ==> (r <==> !IsOutlier(n))
  {
    showOutliers || !IsOutlier(n)
  }

  /** The whole node test: both halves hold. */
  predicate NodePasses(n: Node, selectedYears: seq<int>, showOutliers: bool): (r: bool)
    ensures |selectedYears| == 0 && showOutliers ==> r
    ensures !HasYear(n) && !IsOutlier(n) ==> r
    ensures !showOutliers && IsOutlier(n) ==> !r
    ensures HasYear(n) && |selectedYears| > 0 && n.year.value !in selectedYears ==> !r
    ensures HasYear(n) && n.year.value in selectedYears && OutlierMatch(n, showOutliers) ==> r
  {
    YearMatch(n, selectedYears) && OutlierMatch(n, showOutliers)
  }

  /** The node test as the callback handed to `filter`. */
  function NodeTest(selectedYears: seq<int>, showOutliers: bool): Node -> bool
  {
    (n: Node) => NodePasses(n, selectedYears, showOutliers)
  }

  /** The visible nodes: exactly the nodes that pass, each as often as in the
      input, in input order. */
  function FilterNodes(nodes: seq<Node>, selectedYears: seq<int>, showOutliers: bool): (r: seq<Node>)
    ensures IsSubsequence(r, nodes)
    ensures forall n :: multiset(r)[n] ==
              if NodePasses(n, selectedYears, showOutliers) then multiset(nodes)[n] else 0
    ensures forall n :: n in r <==> n in nodes && NodePasses(n, selectedYears, showOutliers)
    ensures |selectedYears| == 0 && showOutliers ==> r == nodes
    ensures !showOutliers ==> forall n :: n in r ==> !IsOutlier(n)
  {
    var keep := NodeTest(selectedYears, showOutliers);
    FilterIsSubsequence(keep, nodes);
    var r := Filter(keep, nodes);
    assert |selectedYears| == 0 && showOutliers ==> r == nodes by {
      if |selectedYears| == 0 && showOutliers {
        FilterKeepsAll(keep, nodes);
      }
    }
    r
  }

  /** The link filter: the similarity, with an absent one read as 1, reaches the threshold. */
  predicate LinkPasses(l: Link, threshold: real): (r: bool)
    ensures l.similarity.Some? ==> (r <==> l.similarity.value >= threshold)
    ensures l.similarity.None? ==> (r <==> threshold <= 1.0)
  {
    SimilarityOrDefault(l) >= threshold
  }

  /** The visible links: exactly the links that pass, in input order. */
  function FilterLinks(links: seq<Link>, threshold: real): (r: seq<Link>)
    ensures IsSubsequence(r, links)
    ensures forall l :: multiset(r)[l] == if LinkPasses(l, threshold) then multiset(links)[l] else 0
    ensures forall l :: l in r <==> l in links && SimilarityOrDefault(l) >= threshold
    ensures threshold <= 1.0 ==> forall l :: l in links && l.similarity.None? ==> l in r
  {
    var keep := (l: Link) => LinkPasses(l, threshold);
    FilterIsSubsequence(keep, links);
    Filter(keep, links)
  }

  /** A link with similarity 0 is not defaulted: it is dropped at every positive
      threshold and kept at every threshold up to 0. */
  lemma ZeroSimilarityLinks(links: seq<Link>, threshold: real)
    ensures threshold > 0.0 ==>
              forall l :: l in FilterLinks(links, threshold) ==> l.similarity != Some(0.0)
    ensures threshold <= 0.0 ==>
              forall l :: l in links && l.similarity == Some(0.0) ==> l in FilterLinks(links, threshold)
  {
  }

  // ------------------------------------------------------------ year toggle

  /** The functional update of `toggleYear`: a selected year is removed wherever
      it occurs, an unselected one is appended. */
  function Toggled(prev: seq<int>, year: int): (r: seq<int>)
    ensures year in prev ==> year !in r && IsSubsequence(r, prev)
    ensures year !in prev ==> r == prev + [year]
    ensures year in r <==> year !in prev
    ensures forall y :: y != year ==> multiset(r)[y] == multiset(prev)[y]
  {
    if year in prev then
      var others := (y: int) => y != year;
      FilterIsSubsequence(others, prev);
      Filter(others, prev)
    else
      prev + [year]
  }

  /** Toggling a year twice restores which years are selected. */
  lemma ToggledTwiceMembership(prev: seq<int>, year: int)
    ensures forall y :: y in Toggled(Toggled(prev, year), year) <==> y in prev
  {
    var once := Toggled(prev, year);
    forall y | y != year ensures y in Toggled(once, year) <==> y in prev {
      assert multiset(Toggled(once, year))[y] == multiset(once)[y] == multiset(prev)[y];
    }
  }

  /** Toggling an unselected year twice restores the list exactly. */
  lemma ToggledTwiceAbsent(prev: seq<int>, year: int)
    requires year !in prev
    ensures Toggled(Toggled(prev, year), year) == prev
  {
    var others := (y: int) => y != year;
    FilterAppend(others, prev, [year]);
    FilterKeepsAll(others, prev);
    assert Filter(others, [year]) == [];
  }

  /** Toggling a selected year twice moves it to the end. */
  lemma ToggledTwiceMovesToEnd()
    ensures Toggled(Toggled([2019, 2020], 2019), 2019) == [2020, 2019]
  {
    var others := (y: int) => y != 2019;
    assert Toggled([2019, 2020], 2019) == Filter(others, [2019, 2020]);
    assert Filter(others, [2019, 2020]) == Filter(others, [2020]);
    assert Filter(others, [2020]) == [2020];
  }

  /** A duplicate-free selection stays duplicate-free. */
  lemma ToggledKeepsNoDuplicates(prev: seq<int>, year: int)
    requires NoDuplicates(prev)
    ensures NoDuplicates(Toggled(prev, year))
  {
    var r := Toggled(prev, year);
    NoDuplicatesIffSingleOccurrences(prev);
    NoDuplicatesIffSingleOccurrences(r);
    assert multiset(r)[year] <= 1 by {
      if year !in prev {
        assert multiset(prev)[year] == 0;
      }
    }
    assert forall y :: multiset(r)[y] <= 1 by {
      forall y ensures multiset(r)[y] <= 1 {
        if y != year {
          assert multiset(r)[y] == multiset(prev)[y];
        }
      }
    }
  }

  // ------------------------------------------------------------- year lists

  /** `years.sort()`: the same years, ordered by their string forms. */
  function SortYears(years: seq<int>): (r: seq<int>)
    ensures multiset(r) == multiset(years)
    ensures SortedBy(r, IntToString)
  {
    SortBy(years, IntToString)
  }

  lemma String999()
    ensures IntToString(999) == "999"
  {
    assert NatToString(9) == "9";
    assert NatToString(99) == "99";
  }

  lemma String1000()
    ensures IntToString(1000) == "1000"
  {
    assert NatToString(1) == "1";
    assert NatToString(10) == "10";
    assert NatToString(100) == "100";
  }

  /** Default `sort` compares string forms, so 1000 sorts before 999. */
  lemma SortYearsComparesStrings()
    ensures SortYears([999, 1000]) == [1000, 999]
  {
    String999();
    String1000();
    assert LexLe("1000", "999") && !LexLe("999", "1000");
    assert [999, 1000][..1] == [999];
    assert SortBy([999], IntToString) == [999] by {
      assert [999][..0] == [];
    }
  }

  /** The list an accepted nodes upload stores in both `availableYears` and
      `selectedYears`: each truthy year of the nodes exactly once, sorted. */
  function UploadedYears(nodes: seq<Node>): (r: seq<int>)
    ensures SortedBy(r, IntToString)
    ensures NoDuplicates(r)
    ensures 0 !in r
    ensures forall y :: multiset(r)[y] ==
              if y != 0 && exists n :: n in nodes && n.year == Some(y) then 1 else 0
  {
    var years := DistinctYears(nodes);
    var r := SortYears(years);
    NoDuplicatesPermutation(years, r);
    NoDuplicatesIffSingleOccurrences(r);
    forall y ensures multiset(r)[y] == if y in years then 1 else 0 {
      assert multiset(r)[y] == multiset(years)[y];
    }
    r
  }

  /** Distinct years have distinct string forms, so the uploaded list is strictly
      ordered: no later year's string sorts at or before an earlier one's. */
  lemma UploadedYearsStrictlyOrdered(nodes: seq<Node>)
    ensures var r := UploadedYears(nodes);
            forall i, j :: 0 <= i < j < |r| ==> !LexLe(IntToString(r[j]), IntToString(r[i]))
  {
    var r := UploadedYears(nodes);
    forall i, j | 0 <= i < j < |r| ensures !LexLe(IntToString(r[j]), IntToString(r[i])) {
      if LexLe(IntToString(r[j]), IntToString(r[i])) {
        LexLeAntisymmetric(IntToString(r[i]), IntToString(r[j]));
        IntToStringInjective(r[i], r[j]);
        assert false;
      }
    }
  }

  // ------------------------------------------------------------- statistics

  datatype Stats = Stats(totalNodes: nat, filteredNodes: nat, totalLinks: nat, filteredLinks: nat, outliers: nat)

  /** The positions of the nodes flagged as outliers. */
  ghost function OutlierPositions(nodes: seq<Node>): set<int>
  {
    set i | 0 <= i < |nodes| && IsOutlier(nodes[i])
  }

  /** `nodes.filter(n => n.isOutlier).length` counts the flagged positions. */
  lemma OutlierCount(nodes: seq<Node>)
    ensures |Filter(IsOutlier, nodes)| == |OutlierPositions(nodes)|
  {
    FilterLengthIsPositionCount(IsOutlier, nodes);
    assert Positions(IsOutlier, nodes) == OutlierPositions(nodes);
  }

  /** With outliers hidden, the visible nodes and the outliers are disjoint selections. */
  lemma HiddenOutliersBound(nodes: seq<Node>, selectedYears: seq<int>)
    ensures |FilterNodes(nodes, selectedYears, false)| + |Filter(IsOutlier, nodes)| <= |nodes|
  {
    FilterDisjointCounts(NodeTest(selectedYears, false), IsOutlier, nodes);
  }

  /** The five counts shown above the graph. */
  function ComputeStats(nodes: seq<Node>, links: seq<Link>, selectedYears: seq<int>,
                        showOutliers: bool, threshold: real): (s: Stats)
    ensures s.totalNodes == |nodes| && s.totalLinks == |links|
    ensures s.filteredNodes == |FilterNodes(nodes, selectedYears, showOutliers)|
    ensures s.filteredLinks == |FilterLinks(links, threshold)|
    ensures s.filteredNodes <= s.totalNodes && s.filteredLinks <= s.totalLinks
    ensures s.outliers == |OutlierPositions(nodes)|
    ensures !showOutliers ==> s.filteredNodes + s.outliers <= s.totalNodes
    ensures |selectedYears| == 0 && showOutliers ==> s.filteredNodes == s.totalNodes
  {
    OutlierCount(nodes);
    HiddenOutliersBound(nodes, selectedYears);
    Stats(|nodes|, |FilterNodes(nodes, selectedYears, showOutliers)|,
          |links|, |FilterLinks(links, threshold)|, |Filter(IsOutlier, nodes)|)
  }

  // ----------------------------------------------------------- file upload

  datatype File = File(name: string)

  /** What a `catch` clause receives. */
  datatype Thrown = ErrorObject(message: string) | OtherValue

  /** The outcome of `JSON.parse` on the file's text, seen as the caller's element type. */
  datatype Parsed<T> = ArrayValue(items: seq<T>) | NonArrayValue | ParseFailure(thrown: Thrown)

  /** The two callbacks of the file reader. */
  datatype ReadEvent<T> = Loaded(parsed: Parsed<T>) | ReadFailed

  /** One call of the upload handler: its file type and what the reader reported. */
  datatype Upload = NodesUpload(nodesEvent: ReadEvent<Node>) | LinksUpload(linksEvent: ReadEvent<Link>)

  function FileType(u: Upload): string
  {
    if u.NodesUpload? then "nodes" else "links"
  }

  predicate Accepted(u: Upload)
  {
    match u
    case NodesUpload(e) => e.Loaded? && e.parsed.ArrayValue?
    case LinksUpload(e) => e.Loaded? && e.parsed.ArrayValue?
  }

  function NotArrayMessage(fileType: string): string
  {
    fileType + " file must contain an array"
  }

  /** The `catch` message: a fixed prefix, then the error's message, or
      "invalid json" for a thrown value that is not an error object. */
  function ParseErrorMessage(fileType: string, thrown: Thrown): (r: string)
    ensures var prefix := "error parsing " + fileType + " file: ";
            StartsWith(r, prefix) &&
            r[|prefix|..] == (if thrown.ErrorObject? then thrown.message else "invalid json")
  {
    "error parsing " + fileType + " file: " +
    match thrown
    case ErrorObject(m) => m
    case OtherValue => "invalid json"
  }

  function ReadErrorMessage(fileType: string): string
  {
    "error reading " + fileType + " file"
  }

  /** The message a reader event leaves in `error`; `None` for an array, which clears it. */
  function EventError<T>(fileType: string, e: ReadEvent<T>): (r: Option<string>)
    ensures r.None? <==> e.Loaded? && e.parsed.ArrayValue?
    ensures e.ReadFailed? ==> r == Some("error reading " + fileType + " file")
    ensures e == Loaded(NonArrayValue) ==>
              r == Some("error parsing " + fileType + " file: " + (fileType + " file must contain an array"))
    ensures e.Loaded? && e.parsed.ParseFailure? && e.parsed.thrown.OtherValue? ==>
              r == Some("error parsing " + fileType + " file: " + "invalid json")
    ensures e.Loaded? && e.parsed.ParseFailure? && e.parsed.thrown.ErrorObject? ==>
              r == Some("error parsing " + fileType + " file: " + e.parsed.thrown.message)
  {
    match e
    case ReadFailed => Some(ReadErrorMessage(fileType))
    case Loaded(ArrayValue(_)) => None
    case Loaded(NonArrayValue) => Some(ParseErrorMessage(fileType, ErrorObject(NotArrayMessage(fileType))))
    case Loaded(ParseFailure(thrown)) => Some(ParseErrorMessage(fileType, thrown))
  }

  /** The message an upload leaves in `error`; `None` for an accepted upload,
      which clears it. */
  function UploadError(u: Upload): (r: Option<string>)
    ensures r.None? <==> Accepted(u)
    ensures r.Some? ==> r.value != ""
    ensures r.Some? ==>
              r.value == ReadErrorMessage(FileType(u)) ||
              StartsWith(r.value, "error parsing " + FileType(u) + " file: ")
  {
    match u
    case NodesUpload(e) => EventError("nodes", e)
    case LinksUpload(e) => EventError("links", e)
  }

  /** The state cells of the page. */
  class DashboardState {
    var nodes: seq<Node>
    var links: seq<Link>
    var nodesFile: Option<File>
    var linksFile: Option<File>
    var error: string
    var similarityThreshold: real
    var selectedYears: seq<int>
    var showOutliers: bool
    var availableYears: seq<int>

    /** The year lists keep the shape uploads and toggles give them. */
    ghost predicate Valid()
      reads this
    {
      NoDuplicates(availableYears) && SortedBy(availableYears, IntToString) && 0 !in availableYears &&
      NoDuplicates(selectedYears)
    }

    constructor ()
      ensures Valid()
      ensures nodes == [] && links == [] && nodesFile == None && linksFile == None && error == ""
      ensures similarityThreshold == 0.0 && selectedYears == [] && showOutliers && availableYears == []
    {
      nodes, links := [], [];
      nodesFile, linksFile := None, None;
      error := "";
      similarityThreshold := 0.0;
      selectedYears := [];
      showOutliers := true;
      availableYears := [];
    }

    /** The reader callbacks of `handleFileUpload`: an accepted file replaces its
        own list (and, for nodes, both year lists) and clears the error; anything
        else only sets the error. */
    method HandleFileUpload(file: File, upload: Upload)
      requires Valid()
      modifies this
      ensures Valid()
      ensures error == match UploadError(upload) case Some(m) => m case None => ""
      ensures similarityThreshold == old(similarityThreshold) && showOutliers == old(showOutliers)
      ensures !Accepted(upload) ==>
                nodes == old(nodes) && links == old(links) &&
                nodesFile == old(nodesFile) && linksFile == old(linksFile) &&
                availableYears == old(availableYears) && selectedYears == old(selectedYears)
      ensures Accepted(upload) && upload.NodesUpload? ==>
                nodes == upload.nodesEvent.parsed.items && nodesFile == Some(file) &&
                availableYears == UploadedYears(nodes) && selectedYears == availableYears &&
                links == old(links) && linksFile == old(linksFile)
      ensures Accepted(upload) && upload.LinksUpload? ==>
                links == upload.linksEvent.parsed.items && linksFile == Some(file) &&
                nodes == old(nodes) && nodesFile == old(nodesFile) &&
                availableYears == old(availableYears) && selectedYears == old(selectedYears)
    {
      match upload
      case NodesUpload(ev) => LoadNodes(file, ev);
      case LinksUpload(ev) => LoadLinks(file, ev);
    }

    /** The `type === "nodes"` branch of the handler. */
    method LoadNodes(file: File, ev: ReadEvent<Node>)
      requires Valid()
      modifies this
      ensures Valid()
      ensures error == match EventError("nodes", ev) case Some(m) => m case None => ""
      ensures similarityThreshold == old(similarityThreshold) && showOutliers == old(showOutliers)
      ensures links == old(links) && linksFile == old(linksFile)
      ensures EventError("nodes", ev).Some? ==>
                nodes == old(nodes) && nodesFile == old(nodesFile) &&
                availableYears == old(availableYears) && selectedYears == old(selectedYears)
      ensures EventError("nodes", ev).None? ==>
                nodes == ev.parsed.items && nodesFile == Some(file) &&
                availableYears == UploadedYears(nodes) && selectedYears == availableYears
    {
      match ev {
        case ReadFailed =>
          error := ReadErrorMessage("nodes");
        case Loaded(parsed) =>
          var caught: Option<Thrown> := None;
          match parsed {
            case ParseFailure(t) =>
              caught := Some(t);
            case NonArrayValue =>
              caught := Some(ErrorObject(NotArrayMessage("nodes")));
            case ArrayValue(items) =>
              AcceptNodes(file, items);
          }
          if caught.Some? {
            error := ParseErrorMessage("nodes", caught.value);
          }
      }
    }

    /** The successful path of the nodes branch: the nodes and file are stored,
        and the distinct years, sorted, become both year lists. */
    method AcceptNodes(file: File, items: seq<Node>)
      modifies this
      ensures Valid()
      ensures nodes == items && nodesFile == Some(file) && error == ""
      ensures availableYears == UploadedYears(items) && selectedYears == availableYears
      ensures links == old(links) && linksFile == old(linksFile)
      ensures similarityThreshold == old(similarityThreshold) && showOutliers == old(showOutliers)
    {
      var years := UploadedYears(items);
      assert NoDuplicates(years) && SortedBy(years, IntToString) && 0 !in years;
      nodes, nodesFile := items, Some(file);
      availableYears, selectedYears := years, years;
      error := "";
    }

    /** The `type === "links"` branch of the handler. */
    method LoadLinks(file: File, ev: ReadEvent<Link>)
      modifies this
      ensures error == match EventError("links", ev) case Some(m) => m case None => ""
      ensures similarityThreshold == old(similarityThreshold) && showOutliers == old(showOutliers)
      ensures nodes == old(nodes) && nodesFile == old(nodesFile)
      ensures availableYears == old(availableYears) && selectedYears == old(selectedYears)
      ensures EventError("links", ev).Some? ==> links == old(links) && linksFile == old(linksFile)
      ensures EventError("links", ev).None? ==> links == ev.parsed.items && linksFile == Some(file)
    {
      match ev {
        case ReadFailed =>
          error := ReadErrorMessage("links");
        case Loaded(parsed) =>
          var caught: Option<Thrown> := None;
          match parsed {
            case ParseFailure(t) =>
              caught := Some(t);
            case NonArrayValue =>
              caught := Some(ErrorObject(NotArrayMessage("links")));
            case ArrayValue(items) =>
              links := items;
              linksFile := Some(file);
              error := "";
          }
          if caught.Some? {
            error := ParseErrorMessage("links", caught.value);
          }
      }
    }

    /** `toggleYear`: only the selection changes. */
    method ToggleYear(year: int)
      requires Valid()
      modifies this`selectedYears
      ensures Valid()
      ensures selectedYears == Toggled(old(selectedYears), year)
    {
      ToggledKeepsNoDuplicates(selectedYears, year);
      selectedYears := Toggled(selectedYears, year);
    }

    method SetSimilarityThreshold(v: real)
      modifies this`similarityThreshold
      ensures similarityThreshold == v
    {
      similarityThreshold := v;
    }

    method SetShowOutliers(b: bool)
      modifies this`showOutliers
      ensures showOutliers == b
    {
      showOutliers := b;
    }

    /** `filteredData.nodes`: the stored nodes that pass under the current settings. */
    function FilteredNodes(): (r: seq<Node>)
      reads this
      ensures IsSubsequence(r, nodes)
      ensures forall n :: n in r <==> n in nodes && NodePasses(n, selectedYears, showOutliers)
      ensures forall n :: multiset(r)[n] ==
                if NodePasses(n, selectedYears, showOutliers) then multiset(nodes)[n] else 0
    {
      FilterNodes(nodes, selectedYears, showOutliers)
    }

    /** `filteredData.links`: the stored links that reach the current threshold. */
    function FilteredLinks(): (r: seq<Link>)
      reads this
      ensures IsSubsequence(r, links)
      ensures forall l :: l in r <==> l in links && LinkPasses(l, similarityThreshold)
      ensures forall l :: multiset(r)[l] ==
                if LinkPasses(l, similarityThreshold) then multiset(links)[l] else 0
    {
      FilterLinks(links, similarityThreshold)
    }

    /** `stats`: the counts of the stored lists and of what is shown. */
    function CurrentStats(): (st: Stats)
      reads this
      ensures st.totalNodes == |nodes| && st.totalLinks == |links|
      ensures st.filteredNodes == |FilteredNodes()| && st.filteredLinks == |FilteredLinks()|
      ensures st.outliers == |OutlierPositions(nodes)|
    {
      ComputeStats(nodes, links, selectedYears, showOutliers, similarityThreshold)
    }
  }
}
