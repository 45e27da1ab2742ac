/**
 * `displayDataPreview`: the first five links as table rows. A cell shows
 * `${link.source.id || link.source}`, which throws a TypeError when the
 * endpoint is `undefined`; rows appended before the throw stay in the table.
 */
module Preview {
  import opened Wrappers
  import opened Graph
  import opened JsText
  import opened Csv

  const PreviewRows: nat := 5

  /** `data.links.slice(0, 5)`: the first `min(5, |links|)` links, in order. */
  function PreviewLinks(links: seq<Link>): (r: seq<Link>)
    ensures |r| == if |links| < PreviewRows then |links| else PreviewRows
    ensures r <= links
  {
    links[..if |links| < PreviewRows then |links| else PreviewRows]
  }

  /** The text of one cell, or `None` when evaluating it throws. */
  function CellText(e: Endpoint): (r: Option<string>)
    ensures r.None? <==> e == Raw(None)
    ensures e.Raw? && e.rawId.Some? ==> r == e.rawId
    ensures e.Resolved? ==> r.Some? && r.value != ""
    ensures e.Resolved? && e.node.id.Some? && e.node.id.value != "" ==> r == e.node.id
  {
    match e
    case Raw(None) => None
    case Raw(Some(s)) => Some(s)
    case Resolved(Node(Some(s))) => if s != "" then Some(s) else Some("[object Object]")
    case Resolved(Node(None)) => Some("[object Object]")
  }

  predicate Renders(l: Link)
  {
    CellText(l.source).Some? && CellText(l.target).Some?
  }

  datatype PreviewTable = PreviewTable(rows: seq<(string, string)>, threw: bool)

  /**
   * The `forEach` that appends one row per link: it stops at the first link
   * whose cells throw, keeping the rows before it.
   */
  function RenderRows(links: seq<Link>): (t: PreviewTable)
    ensures |t.rows| <= |links|
    ensures forall k :: 0 <= k < |t.rows| ==>
      Renders(links[k]) &&
      t.rows[k] == (CellText(links[k].source).value, CellText(links[k].target).value)
    ensures !t.threw ==> |t.rows| == |links|
    ensures t.threw ==> |t.rows| < |links| && !Renders(links[|t.rows|])
    ensures t.threw <==> exists k :: 0 <= k < |links| && !Renders(links[k])
  {
    if links == [] then PreviewTable([], false)
    else if !Renders(links[0]) then PreviewTable([], true)
    else
      var rest := RenderRows(links[1..]);
      assert forall k :: 1 <= k < |links| ==> links[k] == links[1..][k - 1];
      PreviewTable([(CellText(links[0].source).value, CellText(links[0].target).value)] + rest.rows,
                   rest.threw)
  }

  /** The table body `displayDataPreview` produces for a dataset's links. */
  function DisplayPreview(links: seq<Link>): (t: PreviewTable)
    ensures |t.rows| <= PreviewRows && |t.rows| <= |links|
    ensures forall k :: 0 <= k < |t.rows| ==>
      Renders(links[k]) &&
      t.rows[k] == (CellText(links[k].source).value, CellText(links[k].target).value)
    ensures t.threw <==> exists k :: 0 <= k < |links| && k < PreviewRows && !Renders(links[k])
    ensures !t.threw ==> |t.rows| == |PreviewLinks(links)|
  {
    RenderRows(PreviewLinks(links))
  }

  /** The cells of a data line's link render exactly when the line has a comma, and then show its first two fields. */
  lemma LineLinkRenders(line: string)
    ensures Renders(LineLink(line)) <==> ',' in line
    ensures Renders(LineLink(line)) ==>
      |Fields(line)| >= 2 &&
      CellText(LineLink(line).source) == Some(Fields(line)[0]) &&
      CellText(LineLink(line).target) == Some(Fields(line)[1])
  {
    LineLinkShape(line);
    SplitSingle(line, ',');
  }

  /** Row `k` of the table shows the trimmed first two fields of data line `k + 1`. */
  predicate RowShowsLine(t: PreviewTable, lines: seq<string>, k: nat)
  {
    k < |t.rows| && k + 1 < |lines| && |Fields(lines[k + 1])| >= 2 &&
    t.rows[k] == (Fields(lines[k + 1])[0], Fields(lines[k + 1])[1])
  }

  /** The links the preview shows are those of data lines 1 to `min(5, |lines| - 1)`. */
  lemma PreviewLinesShape(lines: seq<string>)
    requires |lines| >= 1
    ensures |PreviewLinks(DataLinks(lines))| == if |lines| - 1 < PreviewRows then |lines| - 1 else PreviewRows
    ensures forall k :: 0 <= k < |PreviewLinks(DataLinks(lines))| ==>
      PreviewLinks(DataLinks(lines))[k] == LineLink(lines[k + 1])
  {
    DataLinksByLine(lines);
  }

  /** Rendering the links of consecutive data lines, starting with line 1. */
  lemma {:induction false} RowsOfLineLinks(lines: seq<string>, shown: seq<Link>)
    requires |shown| < |lines|
    requires forall k :: 0 <= k < |shown| ==> shown[k] == LineLink(lines[k + 1])
    ensures RenderRows(shown).threw <==> exists k :: 1 <= k <= |shown| && ',' !in lines[k]
    ensures forall k :: 0 <= k < |RenderRows(shown).rows| ==> RowShowsLine(RenderRows(shown), lines, k)
  {
    var t := RenderRows(shown);
    forall k | 0 <= k < |shown|
      ensures Renders(shown[k]) <==> ',' in lines[k + 1]
      ensures Renders(shown[k]) ==> (|Fields(lines[k + 1])| >= 2 &&
        (CellText(shown[k].source).value, CellText(shown[k].target).value) ==
          (Fields(lines[k + 1])[0], Fields(lines[k + 1])[1]))
    {
      LineLinkRenders(lines[k + 1]);
    }
    forall k | 0 <= k < |t.rows|
      ensures RowShowsLine(t, lines, k)
    {
      assert Renders(shown[k]);
      assert t.rows[k] == (CellText(shown[k].source).value, CellText(shown[k].target).value);
    }
    if t.threw {
      var k :| 0 <= k < |shown| && !Renders(shown[k]);
      assert 1 <= k + 1 <= |shown| && ',' !in lines[k + 1];
    }
    if exists k :: 1 <= k <= |shown| && ',' !in lines[k] {
      var k :| 1 <= k <= |shown| && ',' !in lines[k];
      assert !Renders(shown[k - 1]);
    }
  }

  /** The preview of the links of `lines`, line by line. */
  lemma PreviewOfLines(lines: seq<string>)
    requires |lines| >= 1
    ensures DisplayPreview(DataLinks(lines)).threw <==>
      exists k :: 1 <= k < |lines| && k <= PreviewRows && ',' !in lines[k]
    ensures forall k :: 0 <= k < |DisplayPreview(DataLinks(lines)).rows| ==>
      RowShowsLine(DisplayPreview(DataLinks(lines)), lines, k)
  {
    var shown := PreviewLinks(DataLinks(lines));
    PreviewLinesShape(lines);
    RowsOfLineLinks(lines, shown);
    assert DisplayPreview(DataLinks(lines)) == RenderRows(shown);
  }

  /**
   * For a parsed CSV file the preview throws exactly when one of the first
   * five data lines has no comma; row `k` shows the trimmed first two fields
   * of data line `k + 1`.
   */
  lemma CsvPreview(csv: string)
    ensures DisplayPreview(CsvDataset(csv).links).threw <==>
      exists k :: 1 <= k < |Lines(csv)| && k <= PreviewRows && ',' !in Lines(csv)[k]
    ensures forall k :: 0 <= k < |DisplayPreview(CsvDataset(csv).links).rows| ==>
      RowShowsLine(DisplayPreview(CsvDataset(csv).links), Lines(csv), k)
  {
    var lines := Lines(csv);
    var links := CsvDataset(csv).links;
    assert links == DataLinks(lines);
    PreviewOfLines(lines);
  }
}
