/**
 * `parseCSV`: an edge list with a header line becomes a dataset whose links
 * follow the data lines and whose nodes are the endpoint ids in first-seen order.
 */
module Csv {
  import opened Wrappers
  import opened JsText
  import opened Graph

  /** `csv.trim().split('\n')`. */
  function Lines(csv: string): (r: seq<string>)
    ensures |r| >= 1
  {
    Split(Trim(csv), '\n')
  }

  /** `line.split(',').map(v => v.trim())`. */
  function Fields(line: string): (r: seq<string>)
    ensures |r| >= 1
  {
    TrimAll(Split(line, ','))
  }

  /** `{ source: values[0], target: values[1] }`; `values[1]` is `undefined` when there is only one field. */
  function LinkOfFields(values: seq<string>): (l: Link)
    requires |values| >= 1
    ensures l.source == Raw(Some(values[0]))
    ensures l.target.Raw? && (l.target.rawId.None? <==> |values| == 1)
    ensures |values| >= 2 ==> l.target == Raw(Some(values[1]))
  {
    Link(Raw(Some(values[0])), Raw(if |values| >= 2 then Some(values[1]) else None))
  }

  /** The link one data line contributes: `values` is the line split on commas, each value trimmed. */
  function LineLink(line: string): (l: Link)
    ensures l.source.Raw? && l.source.rawId.Some? && l.target.Raw?
    ensures l.target.rawId.None? <==> ',' !in line
  {
    SplitSingle(line, ',');
    LinkOfFields(Fields(line))
  }

  /** The links of the data lines: every line but the first, in order. */
  function DataLinks(lines: seq<string>): seq<Link>
  {
    if |lines| <= 1 then [] else DataLinks(lines[..|lines| - 1]) + [LineLink(lines[|lines| - 1])]
  }

  /** One link per line after the header, in line order. */
  lemma {:induction false} DataLinksByLine(lines: seq<string>)
    requires |lines| >= 1
    ensures |DataLinks(lines)| == |lines| - 1
    ensures forall k :: 0 <= k < |lines| - 1 ==> DataLinks(lines)[k] == LineLink(lines[k + 1])
  {
    if |lines| > 1 {
      var p := lines[..|lines| - 1];
      DataLinksByLine(p);
      forall k | 0 <= k < |lines| - 1
        ensures DataLinks(lines)[k] == LineLink(lines[k + 1])
      {
        if k < |p| - 1 {
          assert p[k + 1] == lines[k + 1];
        }
      }
    }
  }

  /** The dataset `parseCSV(csv)` returns. */
  function CsvDataset(csv: string): Dataset
  {
    DatasetOfLinks(DataLinks(Lines(csv)))
  }

  /** `parseCSV`: split the trimmed text into lines, then scan the lines after the header. */
  method ParseCsv(csv: string) returns (data: Dataset)
    ensures data == CsvDataset(csv)
  {
    var lines := Split(Trim(csv), '\n');
    data := ScanLines(lines);
  }

  /** The loop of `parseCSV`: a `Set` of ids and an array of links, both filled line by line. */
  method ScanLines(lines: seq<string>) returns (data: Dataset)
    requires |lines| >= 1
    ensures data == DatasetOfLinks(DataLinks(lines))
  {
    var nodes: seq<NodeId> := [];
    var links: seq<Link> := [];
    var i := 1;
    while i < |lines|
      invariant 1 <= i <= |lines|
      invariant links == DataLinks(lines[..i])
      invariant nodes == InsertionOrder(LinkIds(links))
    {
      var link := LineLink(lines[i]);
      DataLinksSnoc(lines, i);
      InsertionOrderSnocLink(links, link);
      nodes := SetAdd(nodes, link.source.Id());
      nodes := SetAdd(nodes, link.target.Id());
      links := links + [link];
      i := i + 1;
    }
    assert lines[..i] == lines;
    data := Dataset(NodesOf(nodes), links);
  }

  /** One iteration of the scan appends the link of line `i`. */
  lemma DataLinksSnoc(lines: seq<string>, i: nat)
    requires 1 <= i < |lines|
    ensures DataLinks(lines[..i + 1]) == DataLinks(lines[..i]) + [LineLink(lines[i])]
  {
    assert lines[..i + 1][..i] == lines[..i];
  }

  /** A line without a comma gives its trimmed text as source and an undefined target. */
  lemma LineLinkNoComma(line: string)
    requires ',' !in line
    ensures LineLink(line) == Link(Raw(Some(Trim(line))), Raw(None))
  {
    SplitNoSeparator(line, ',');
  }

  /**
   * A line with a comma gives the trimmed text before the first comma as source
   * and the trimmed text between the first and the second comma (or the end of
   * the line) as target; anything after a second comma is ignored.
   */
  lemma LineLinkComma(a: string, b: string, rest: string)
    requires ',' !in a && ',' !in b
    requires rest == [] || rest[0] == ','
    ensures LineLink(a + [','] + b + rest) == Link(Raw(Some(Trim(a))), Raw(Some(Trim(b))))
  {
    assert a + [','] + b + rest == a + [','] + (b + rest);
    SplitAtFirst(a, ',', b + rest);
    if rest == [] {
      assert b + rest == b;
      SplitNoSeparator(b, ',');
    } else {
      assert b + rest == b + [','] + rest[1..];
      SplitAtFirst(b, ',', rest[1..]);
    }
  }

  /** The source of a line's link is always defined; its target is undefined exactly when the line has no comma. */
  lemma LineLinkShape(line: string)
    ensures LineLink(line).source.Raw? && LineLink(line).source.Id().Some?
    ensures LineLink(line).target == Raw(None) <==> ',' !in line
  {
    SplitPieces(line, ',');
  }

  /** The source of every parsed link is defined; its target is undefined exactly when its line has no comma. */
  lemma CsvLinkShape(csv: string, k: nat)
    requires k < |Lines(csv)| - 1
    ensures k < |CsvDataset(csv).links|
    ensures CsvDataset(csv).links[k].source.Id().Some?
    ensures CsvDataset(csv).links[k].target == Raw(None) <==> ',' !in Lines(csv)[k + 1]
  {
    DataLinksByLine(Lines(csv));
    LineLinkShape(Lines(csv)[k + 1]);
  }

  /** Exactly one link per line after the header, link `k` coming from line `k + 1`. */
  lemma CsvLinksFollowLines(csv: string)
    ensures |CsvDataset(csv).links| == |Lines(csv)| - 1
    ensures forall k :: 0 <= k < |CsvDataset(csv).links| ==>
      CsvDataset(csv).links[k] == LineLink(Lines(csv)[k + 1])
  {
    DataLinksByLine(Lines(csv));
  }

  /**
   * The node list has no duplicates, covers every endpoint, holds nothing that
   * is not an endpoint, and lists ids in the order of their first appearance in
   * the scan (source before target within a line).
   */
  lemma CsvNodes(csv: string)
    ensures Distinct(NodeIds(CsvDataset(csv).nodes))
    ensures Covers(CsvDataset(csv))
    ensures forall k :: 0 <= k < |CsvDataset(csv).nodes| ==>
      CsvDataset(csv).nodes[k].id in LinkIds(CsvDataset(csv).links)
    ensures InFirstSeenOrder(LinkIds(CsvDataset(csv).links), NodeIds(CsvDataset(csv).nodes))
  {
    DatasetOfLinksNodes(DataLinks(Lines(csv)));
  }

  /** A data line `x,y` with one-character ids. */
  lemma ExampleLine(x: char, y: char)
    requires x != ',' && y != ',' && !IsWhitespace(x) && !IsWhitespace(y)
    ensures LineLink([x, ',', y]) == Link(Raw(Some([x])), Raw(Some([y])))
  {
    assert [x, ',', y] == [x] + [','] + [y] + [];
    LineLinkComma([x], [y], []);
    TrimNoop([x]);
    TrimNoop([y]);
  }
}
