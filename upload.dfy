/**
 * The `.csv` branch of `handleFile`, and a worked example of the whole path
 * from a CSV text to the degree table the graph view sizes its nodes by.
 */
module Upload {
  import opened Wrappers
  import opened JsText
  import opened Graph
  import opened Csv
  import opened Degrees
  import opened Guidelines
  import opened Preview

  /**
   * The `.csv` branch of the reader's `onload`: the parsed dataset becomes
   * `currentData` before the preview is drawn, so it is replaced even when the
   * preview then throws; the views are redrawn only when the preview did not throw.
   */
  method UploadCsv(state: AppState, content: string) returns (preview: PreviewTable, rerender: bool)
    modifies state
    ensures state.currentData == Some(CsvDataset(content))
    ensures state.activeGuidelines == old(state.activeGuidelines)
    ensures preview == DisplayPreview(CsvDataset(content).links)
    ensures rerender <==> !preview.threw
  {
    var data := ParseCsv(content);
    state.currentData := Some(data);
    preview := DisplayPreview(data.links);
    rerender := !preview.threw;
  }

  /** The lines of a header followed by `x,y`, `y,z` and `x,z`. */
  lemma TriangleLines(header: string, x: char, y: char, z: char)
    requires header != [] && !IsWhitespace(header[0]) && '\n' !in header
    requires x != '\n' && y != '\n' && !IsWhitespace(z)
    ensures Lines(header + ['\n', x, ',', y, '\n', y, ',', z, '\n', x, ',', z]) ==
      [header, [x, ',', y], [y, ',', z], [x, ',', z]]
  {
    var l1, l2, l3 := [x, ',', y], [y, ',', z], [x, ',', z];
    var t2 := l2 + ['\n'] + l3;
    var t1 := l1 + ['\n'] + t2;
    var csv := header + ['\n'] + t1;
    assert header + ['\n', x, ',', y, '\n', y, ',', z, '\n', x, ',', z] == csv;
    assert Trim(csv) == csv by {
      assert csv[0] == header[0] && csv[|csv| - 1] == z;
      TrimNoop(csv);
    }
    assert Split(t2, '\n') == [l2, l3] by {
      SplitAtFirst(l2, '\n', l3);
      SplitNoSeparator(l3, '\n');
    }
    assert Split(t1, '\n') == [l1, l2, l3] by {
      SplitAtFirst(l1, '\n', t2);
    }
    SplitAtFirst(header, '\n', t1);
  }

  /** The endpoint scan of three links: source then target of each, in order. */
  lemma ThreeLinkIds(l1: Link, l2: Link, l3: Link)
    ensures LinkIds([l1, l2, l3]) ==
      [l1.source.Id(), l1.target.Id(), l2.source.Id(), l2.target.Id(), l3.source.Id(), l3.target.Id()]
  {
    LinkIdsAt([l1, l2, l3]);
    var ids := LinkIds([l1, l2, l3]);
    assert ids[2 * 0] == l1.source.Id() && ids[2 * 0 + 1] == l1.target.Id();
    assert ids[2 * 1] == l2.source.Id() && ids[2 * 1 + 1] == l2.target.Id();
    assert ids[2 * 2] == l3.source.Id() && ids[2 * 2 + 1] == l3.target.Id();
  }

  /** The set filled with `x, y, y, z, x, z` holds `x, y, z` in that order. */
  lemma TriangleIds<T>(x: T, y: T, z: T)
    requires x != y && y != z && x != z
    ensures InsertionOrder([x, y, y, z, x, z]) == [x, y, z]
  {
    var s := [x, y, y, z, x, z];
    assert s[..1][..0] == [];
    assert InsertionOrder(s[..1]) == [x];
    assert s[..2][..1] == s[..1];
    assert InsertionOrder(s[..2]) == [x, y];
    assert s[..3][..2] == s[..2];
    assert InsertionOrder(s[..3]) == [x, y];
    assert s[..4][..3] == s[..3];
    assert InsertionOrder(s[..4]) == [x, y, z];
    assert s[..5][..4] == s[..4];
    assert InsertionOrder(s[..5]) == [x, y, z];
    assert s[..5] == s[..|s| - 1];
  }

  /** The table after the first loop over the nodes `x, y, z`. */
  lemma TriangleZero(x: NodeId, y: NodeId, z: NodeId)
    ensures ZeroTable([x, y, z]) == map[x := 0, y := 0, z := 0]
  {
    var t := ZeroTable([x, y, z]);
    assert forall id :: id in [x, y, z] <==> id in {x, y, z};
    assert t.Keys == {x, y, z};
  }

  /** Adding 1 to one entry of a table with the three keys `x, y, z`. */
  lemma BumpThree(x: NodeId, y: NodeId, z: NodeId, p: nat, q: nat, r: nat)
    requires x != y && y != z && x != z
    ensures Bump(map[x := p, y := q, z := r], x) == map[x := p + 1, y := q, z := r]
    ensures Bump(map[x := p, y := q, z := r], y) == map[x := p, y := q + 1, z := r]
    ensures Bump(map[x := p, y := q, z := r], z) == map[x := p, y := q, z := r + 1]
  {
  }

  /** Adding 1 for each of the ends `x, y`, `y, z`, `x, z` to the zero table of `x, y, z` gives 2 for each node. */
  lemma TriangleBumps(x: NodeId, y: NodeId, z: NodeId)
    requires x != y && y != z && x != z
    ensures Bump(Bump(Bump(Bump(Bump(Bump(map[x := 0, y := 0, z := 0], x), y), y), z), x), z) ==
      map[x := 2, y := 2, z := 2]
  {
    var t1 := Bump(map[x := 0, y := 0, z := 0], x);
    assert t1 == map[x := 1, y := 0, z := 0] by { BumpThree(x, y, z, 0, 0, 0); }
    var t2 := Bump(t1, y);
    assert t2 == map[x := 1, y := 1, z := 0] by { BumpThree(x, y, z, 1, 0, 0); }
    var t3 := Bump(t2, y);
    assert t3 == map[x := 1, y := 2, z := 0] by { BumpThree(x, y, z, 1, 1, 0); }
    var t4 := Bump(t3, z);
    assert t4 == map[x := 1, y := 2, z := 1] by { BumpThree(x, y, z, 1, 2, 0); }
    var t5 := Bump(t4, x);
    assert t5 == map[x := 2, y := 2, z := 1] by { BumpThree(x, y, z, 1, 2, 1); }
    BumpThree(x, y, z, 2, 2, 1);
  }

  /**
   * Nodes `x, y, z` and links `x -> y`, `y -> z`, `x -> z`: the degree table
   * has exactly the keys `x, y, z`, each with degree 2.
   */
  lemma TriangleTable(nodes: seq<Node>, l1: Link, l2: Link, l3: Link, x: NodeId, y: NodeId, z: NodeId)
    requires x != y && y != z && x != z
    requires NodeIds(nodes) == [x, y, z]
    requires l1.source.Id() == x && l1.target.Id() == y
    requires l2.source.Id() == y && l2.target.Id() == z
    requires l3.source.Id() == x && l3.target.Id() == z
    ensures DegreeTable(Dataset(nodes, [l1, l2, l3])) == map[x := 2, y := 2, z := 2]
  {
    var t0 := DegreeTable(Dataset(nodes, []));
    assert t0 == map[x := 0, y := 0, z := 0] by {
      NoLinks(nodes);
      TriangleZero(x, y, z);
    }
    var t1 := DegreeTable(Dataset(nodes, [l1]));
    assert t1 == Bump(Bump(t0, x), y) by {
      assert [] + [l1] == [l1];
      AddLink(nodes, [], l1);
    }
    var t2 := DegreeTable(Dataset(nodes, [l1, l2]));
    assert t2 == Bump(Bump(t1, y), z) by {
      assert [l1] + [l2] == [l1, l2];
      AddLink(nodes, [l1], l2);
    }
    assert DegreeTable(Dataset(nodes, [l1, l2, l3])) == Bump(Bump(t2, x), z) by {
      assert [l1, l2] + [l3] == [l1, l2, l3];
      AddLink(nodes, [l1, l2], l3);
    }
    TriangleBumps(x, y, z);
  }

  /**
   * A header and the lines `x,y`, `y,z`, `x,z`: three links in line order,
   * the nodes `x, y, z` in first-seen order, and a degree of 2 for each.
   */
  lemma TriangleExample(header: string, x: char, y: char, z: char)
    requires header != [] && !IsWhitespace(header[0]) && '\n' !in header
    requires x !in {',', '\n'} && y !in {',', '\n'} && z !in {',', '\n'}
    requires !IsWhitespace(x) && !IsWhitespace(y) && !IsWhitespace(z)
    requires x != y && y != z && x != z
    ensures CsvDataset(header + ['\n', x, ',', y, '\n', y, ',', z, '\n', x, ',', z]).links ==
      [Link(Raw(Some([x])), Raw(Some([y]))), Link(Raw(Some([y])), Raw(Some([z]))), Link(Raw(Some([x])), Raw(Some([z])))]
    ensures NodeIds(CsvDataset(header + ['\n', x, ',', y, '\n', y, ',', z, '\n', x, ',', z]).nodes) ==
      [Some([x]), Some([y]), Some([z])]
    ensures DegreeTable(CsvDataset(header + ['\n', x, ',', y, '\n', y, ',', z, '\n', x, ',', z])) ==
      map[Some([x]) := 2, Some([y]) := 2, Some([z]) := 2]
  {
    var csv := header + ['\n', x, ',', y, '\n', y, ',', z, '\n', x, ',', z];
    var links := [Link(Raw(Some([x])), Raw(Some([y]))), Link(Raw(Some([y])), Raw(Some([z]))), Link(Raw(Some([x])), Raw(Some([z])))];
    TriangleLines(header, x, y, z);
    ExampleLine(x, y);
    ExampleLine(y, z);
    ExampleLine(x, z);
    DataLinksByLine(Lines(csv));
    assert DataLinks(Lines(csv)) == links;
    ThreeLinkIds(links[0], links[1], links[2]);
    assert links == [links[0], links[1], links[2]];
    TriangleIds(Some([x]), Some([y]), Some([z]));
    TriangleTable(CsvDataset(csv).nodes, links[0], links[1], links[2], Some([x]), Some([y]), Some([z]));
  }
}
