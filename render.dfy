/** What one `renderGraph` call computes for its nodes: the degree table, then each node's attributes. */
module Render {
  import opened Graph
  import opened Guidelines
  import opened Degrees
  import opened Encoding

  /** The radius and fill of every node of `data`, in node order, for one of the two views. */
  method RenderNodeStyles(data: Dataset, withGuidelines: bool, active: set<Guideline>)
    returns (styles: seq<NodeStyle>)
    ensures |styles| == |data.nodes|
    ensures forall i :: 0 <= i < |styles| ==>
      styles[i] == Style(data.nodes[i], i, DegreeTable(data), withGuidelines, active)
  {
    var degrees := ComputeDegrees(data);
    styles := seq(|data.nodes|, i requires 0 <= i < |data.nodes| =>
      Style(data.nodes[i], i, degrees, withGuidelines, active));
  }
}
