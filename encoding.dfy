/**
 * The `r` and `fill` callbacks `renderGraph` gives each node. Radii are kept
 * in half-units (twice the radius) so that no fractions are needed.
 */
module Encoding {
  import opened Graph
  import opened Guidelines
  import opened Degrees

  const Palette: seq<string> :=
    ["#667eea", "#764ba2", "#f093fb", "#4facfe", "#43e97b", "#fa709a", "#fee140"]

  const NeutralFill: string := "#999"

  /** Twice the radius: `5 + degree * 0.5` with the `size` guideline on the annotated view, `5` otherwise. */
  function RadiusHalfUnits(withGuidelines: bool, active: set<Guideline>, degree: nat): (r: nat)
    ensures r >= 10
  {
    if withGuidelines && Size in active then 10 + degree else 10
  }

  /** `colors[i % colors.length]` with the `color` guideline on the annotated view, `'#999'` otherwise. */
  function Fill(withGuidelines: bool, active: set<Guideline>, index: nat): (c: string)
    ensures c == NeutralFill || c in Palette
  {
    if withGuidelines && Color in active then Palette[index % |Palette|] else NeutralFill
  }

  datatype NodeStyle = NodeStyle(radiusHalf: nat, fill: string)

  /** The attributes of the node at position `index`, whose degree is read with `degrees.get(d.id) || 0`. */
  function Style(node: Node, index: nat, degrees: map<NodeId, nat>,
                 withGuidelines: bool, active: set<Guideline>): (st: NodeStyle)
    ensures st.radiusHalf >= 10 && (st.fill == NeutralFill || st.fill in Palette)
    ensures !withGuidelines ==> st == NodeStyle(10, NeutralFill)
    ensures withGuidelines && Size in active ==> st.radiusHalf == 10 + Lookup(degrees, node.id)
    ensures withGuidelines && Color in active ==> st.fill == Palette[index % 7]
    ensures withGuidelines && Size !in active ==> st.radiusHalf == 10
    ensures withGuidelines && Color !in active ==> st.fill == NeutralFill
  {
    NodeStyle(RadiusHalfUnits(withGuidelines, active, Lookup(degrees, node.id)),
              Fill(withGuidelines, active, index))
  }

  /** In source units the radius is `5 + degree * 0.5` when sized by degree and `5` otherwise. */
  lemma RadiusInSourceUnits(withGuidelines: bool, active: set<Guideline>, degree: nat)
    ensures (RadiusHalfUnits(withGuidelines, active, degree) as real) / 2.0 ==
      if withGuidelines && Size in active then 5.0 + (degree as real) * 0.5 else 5.0
  {
  }

  /** The radius depends on the `size` guideline only: `color`, `crossings` and `clustering` do not change it. */
  lemma RadiusIgnoresOtherGuidelines(withGuidelines: bool, a1: set<Guideline>, a2: set<Guideline>, degree: nat)
    requires Size in a1 <==> Size in a2
    ensures RadiusHalfUnits(withGuidelines, a1, degree) == RadiusHalfUnits(withGuidelines, a2, degree)
  {
  }

  /** The fill depends on the `color` guideline and the index only: not on `size`, the others, or the degree. */
  lemma FillIgnoresOtherGuidelines(withGuidelines: bool, a1: set<Guideline>, a2: set<Guideline>, index: nat)
    requires Color in a1 <==> Color in a2
    ensures Fill(withGuidelines, a1, index) == Fill(withGuidelines, a2, index)
  {
  }

  /** The palette has seven entries and the fill cycles through them with the index. */
  lemma FillCycles(withGuidelines: bool, active: set<Guideline>, index: nat)
    ensures |Palette| == 7
    ensures Fill(withGuidelines, active, index + 7) == Fill(withGuidelines, active, index)
  {
  }

  /** The plain view gives every node radius 5 and the neutral grey, whatever the guidelines. */
  lemma PlainViewIsUniform(node: Node, index: nat, degrees: map<NodeId, nat>, active: set<Guideline>)
    ensures Style(node, index, degrees, false, active) == NodeStyle(10, NeutralFill)
  {
  }

  /**
   * A node of degree 4 at index 1 on the annotated view: with `color` alone it
   * keeps radius 5 and takes the second palette entry; with `size` alone it
   * gets radius 7 and stays grey.
   */
  lemma EncodingIndependence(node: Node, degrees: map<NodeId, nat>)
    requires node.id in degrees && degrees[node.id] == 4
    ensures Style(node, 1, degrees, true, {Color}) == NodeStyle(10, "#764ba2")
    ensures Style(node, 1, degrees, true, {Size}) == NodeStyle(14, "#999")
  {
  }
}
