/**
 * `loadSampleData`: a 30-node ring in which each node may also get one
 * long-range link. The two `Math.random()` calls of each iteration are an
 * oracle: one `Draw` per node says whether a long-range link was attempted
 * and which target `Math.floor(Math.random() * 30)` picked.
 */
module Sample {
  import opened Wrappers
  import opened JsText
  import opened Graph
  import opened Preview
  import opened Guidelines

  const SampleSize: nat := 30

  /** A node index `0 <= i < 30`, the range of `Math.floor(Math.random() * 30)`. */
  type Slot = i: int | 0 <= i < SampleSize

  /** The outcome of iteration `i`'s random draws. */
  datatype Draw = NoLongRange | LongRange(target: Slot)

  /** `${i}`. */
  function SampleId(i: nat): NodeId
  {
    Some(NatToString(i))
  }

  /** The local connection of node `i` to its successor on the ring. */
  function RingLink(i: nat): (l: Link)
    ensures l.source == Raw(SampleId(i)) && l.target == Raw(SampleId((i + 1) % SampleSize))
    ensures l.source.Id() != l.target.Id()
  {
    NatToStringInjective(i, (i + 1) % SampleSize);
    Link(Raw(SampleId(i)), Raw(SampleId((i + 1) % SampleSize)))
  }

  /** The links iteration `i` pushes: the ring link, then a long-range link whose target is not `i`. */
  function StepLinks(i: nat, d: Draw): (r: seq<Link>)
    ensures 1 <= |r| <= 2 && r[0] == RingLink(i)
    ensures |r| == 2 <==> d.LongRange? && d.target != i
    ensures |r| == 2 ==> r[1] == Link(Raw(SampleId(i)), Raw(SampleId(d.target)))
  {
    match d
    case NoLongRange => [RingLink(i)]
    case LongRange(t) => if t != i then [RingLink(i), Link(Raw(SampleId(i)), Raw(SampleId(t)))] else [RingLink(i)]
  }

  /** The links after the first `|draws|` iterations. */
  function SampleLinks(draws: seq<Draw>): seq<Link>
  {
    if draws == [] then [] else SampleLinks(draws[..|draws| - 1]) + StepLinks(|draws| - 1, draws[|draws| - 1])
  }

  /**
   * `Array.from({length: 30}, (_, i) => ({id: `${i}`}))`: thirty nodes whose ids
   * are distinct decimal strings, node `i` reading back as `i`.
   */
  function SampleNodes(): (r: seq<Node>)
    ensures |r| == SampleSize
    ensures forall i :: 0 <= i < SampleSize ==>
      r[i].id.Some? && IsDecimalOf(r[i].id.value, i) && (r[i].id.value[0] == '0' ==> r[i].id.value == "0")
    ensures Distinct(NodeIds(r))
  {
    assert forall i: nat :: i < SampleSize ==> IsDecimalOf(NatToString(i), i) by {
      forall i: nat | i < SampleSize
        ensures IsDecimalOf(NatToString(i), i)
      {
        DecimalRoundTrip(i);
      }
    }
    assert forall i: nat, j: nat :: i < j < SampleSize ==> NatToString(i) != NatToString(j) by {
      forall i: nat, j: nat | i < j < SampleSize
        ensures NatToString(i) != NatToString(j)
      {
        NatToStringInjective(i, j);
      }
    }
    seq(SampleSize, i requires 0 <= i < SampleSize => Node(SampleId(i)))
  }

  /** The sample dataset for one outcome of the random draws. */
  function SampleGraph(draws: seq<Draw>): Dataset
  {
    Dataset(SampleNodes(), SampleLinks(draws))
  }

  /** `loadSampleData`: build the sample and make it the current dataset; the guidelines are untouched. */
  method LoadSampleData(state: AppState, draws: seq<Draw>) returns (data: Dataset)
    requires |draws| == SampleSize
    modifies state
    ensures data == SampleGraph(draws)
    ensures state.currentData == Some(data)
    ensures state.activeGuidelines == old(state.activeGuidelines)
  {
    data := BuildSampleData(draws);
    state.currentData := Some(data);
  }

  /** `loadSampleData`'s construction of `sampleData`. */
  method BuildSampleData(draws: seq<Draw>) returns (data: Dataset)
    requires |draws| == SampleSize
    ensures data == SampleGraph(draws)
  {
    var nodes := SampleNodes();
    var links: seq<Link> := [];
    for i := 0 to SampleSize
      invariant links == SampleLinks(draws[..i])
    {
      var prev := links;
      links := links + [Link(Raw(SampleId(i)), Raw(SampleId((i + 1) % SampleSize)))];
      match draws[i] {
        case NoLongRange =>
          assert links == prev + StepLinks(i, draws[i]);
        case LongRange(target) =>
          if target != i {
            links := links + [Link(Raw(SampleId(i)), Raw(SampleId(target)))];
          }
          assert links == prev + StepLinks(i, draws[i]);
      }
      assert SampleLinks(draws[..i + 1]) == SampleLinks(draws[..i]) + StepLinks(i, draws[i]) by {
        assert draws[..i + 1][..i] == draws[..i];
      }
    }
    assert draws[..SampleSize] == draws;
    data := Dataset(nodes, links);
  }

  /** How many iterations added a long-range link. */
  function LongRangeCount(draws: seq<Draw>): nat
  {
    if draws == [] then 0
    else LongRangeCount(draws[..|draws| - 1]) + |StepLinks(|draws| - 1, draws[|draws| - 1])| - 1
  }

  /** Every iteration adds one or two links. */
  lemma {:induction false} SampleLinkCount(draws: seq<Draw>)
    ensures |SampleLinks(draws)| == |draws| + LongRangeCount(draws)
    ensures LongRangeCount(draws) <= |draws|
  {
    if draws != [] {
      SampleLinkCount(draws[..|draws| - 1]);
    }
  }

  /** Between 30 and 60 links, whatever the draws. */
  lemma SampleLinkBounds(draws: seq<Draw>)
    requires |draws| == SampleSize
    ensures SampleSize <= |SampleGraph(draws).links| <= 2 * SampleSize
  {
    SampleLinkCount(draws);
  }

  /** The links of iteration `i` start right after those of the earlier iterations. */
  lemma {:induction false} SampleLinksPrefix(draws: seq<Draw>, i: nat)
    requires i < |draws|
    ensures SampleLinks(draws[..i]) + StepLinks(i, draws[i]) <= SampleLinks(draws)
  {
    if i < |draws| - 1 {
      var p := draws[..|draws| - 1];
      assert p[..i] == draws[..i];
      SampleLinksPrefix(p, i);
    } else {
      assert draws[..|draws| - 1] == draws[..i];
    }
  }

  /** Every ring link `i -> (i + 1) % 30` is present, so the ring is never broken. */
  lemma SampleHasRing(draws: seq<Draw>, i: nat)
    requires |draws| == SampleSize && i < SampleSize
    ensures RingLink(i) in SampleGraph(draws).links
  {
    SampleLinksPrefix(draws, i);
    var before := SampleLinks(draws[..i]);
    assert SampleGraph(draws).links[|before|] == RingLink(i);
  }

  /** A link pushed in iteration `i` has source `${i}` and a different target in `0..29`. */
  predicate FromSlotElsewhere(i: nat, l: Link)
  {
    exists t: nat :: t < SampleSize && t != i &&
      l == Link(Raw(SampleId(i)), Raw(SampleId(t)))
  }

  /** The links of iteration `i < 30` leave node `i` for another node of the ring. */
  lemma StepLinksShape(i: nat, d: Draw)
    requires i < SampleSize
    ensures forall l :: l in StepLinks(i, d) ==> FromSlotElsewhere(i, l)
  {
    assert (i + 1) % SampleSize != i;
    assert FromSlotElsewhere(i, RingLink(i));
  }

  /** No link after the first `|draws| <= 30` iterations is a self-loop, and every endpoint is a sample node. */
  lemma {:induction false} SampleLinksWellFormed(draws: seq<Draw>)
    requires |draws| <= SampleSize
    ensures forall l :: l in SampleLinks(draws) ==>
      exists i: nat, t: nat :: i < SampleSize && t < SampleSize && i != t &&
        l == Link(Raw(SampleId(i)), Raw(SampleId(t)))
  {
    if draws != [] {
      var n := |draws| - 1;
      SampleLinksWellFormed(draws[..n]);
      StepLinksShape(n, draws[n]);
      forall l | l in StepLinks(n, draws[n])
        ensures exists i: nat, t: nat ::
          i < SampleSize && t < SampleSize && i != t && l == Link(Raw(SampleId(i)), Raw(SampleId(t)))
      {
        var t: nat :| t < SampleSize && t != n && l == Link(Raw(SampleId(n)), Raw(SampleId(t)));
      }
    }
  }

  /** The sample has no self-loops: the guard `target !== i` and `(i + 1) % 30 != i` exclude them. */
  lemma SampleNoSelfLoops(draws: seq<Draw>)
    requires |draws| == SampleSize
    ensures forall l :: l in SampleGraph(draws).links ==> l.source.Id() != l.target.Id()
  {
    SampleLinksWellFormed(draws);
    forall l | l in SampleGraph(draws).links
      ensures l.source.Id() != l.target.Id()
    {
      var i: nat, t: nat :| i < SampleSize && t < SampleSize && i != t &&
        l == Link(Raw(SampleId(i)), Raw(SampleId(t)));
      NatToStringInjective(i, t);
    }
  }

  /** Every endpoint of the sample is one of its nodes. */
  lemma SampleCovers(draws: seq<Draw>)
    requires |draws| == SampleSize
    ensures Covers(SampleGraph(draws))
  {
    SampleLinksWellFormed(draws);
    var g := SampleGraph(draws);
    forall k | 0 <= k < |g.links|
      ensures g.links[k].source.Id() in NodeIds(g.nodes)
      ensures g.links[k].target.Id() in NodeIds(g.nodes)
    {
      var l := g.links[k];
      assert l in g.links;
      var i: nat, t: nat :| i < SampleSize && t < SampleSize && i != t &&
        l == Link(Raw(SampleId(i)), Raw(SampleId(t)));
      assert NodeIds(g.nodes)[i] == SampleId(i);
      assert NodeIds(g.nodes)[t] == SampleId(t);
    }
  }

  /** Every sample target is defined, so the preview of the sample shows its first five links without throwing. */
  lemma SamplePreview(draws: seq<Draw>)
    requires |draws| == SampleSize
    ensures !DisplayPreview(SampleGraph(draws).links).threw
    ensures |DisplayPreview(SampleGraph(draws).links).rows| == PreviewRows
  {
    SampleLinksWellFormed(draws);
    SampleLinkCount(draws);
    var shown := PreviewLinks(SampleGraph(draws).links);
    forall k | 0 <= k < |shown|
      ensures Renders(shown[k])
    {
      assert shown[k] in SampleGraph(draws).links;
    }
  }
}
