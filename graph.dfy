/**
 * The dataset model shared by ingestion, the degree table and the encoding:
 * nodes carry an id, links carry two endpoints. JavaScript's `undefined`
 * (the target of a CSV line without a comma) is `None`.
 */
module Graph {
  import opened Wrappers

  type NodeId = Option<string>

  datatype Node = Node(id: NodeId)

  /**
   * A link endpoint is either the raw id written by ingestion or, once the
   * force layout has resolved it, the node object itself.
   */
  datatype Endpoint = Raw(rawId: NodeId) | Resolved(node: Node)
  {
    /** `typeof e === 'object' ? e.id : e`. */
    function Id(): (r: NodeId)
      ensures this.Raw? ==> r == this.rawId
      ensures this.Resolved? ==> r == this.node.id
    {
      match this
      case Raw(id) => id
      case Resolved(n) => n.id
    }
  }

  datatype Link = Link(source: Endpoint, target: Endpoint)

  datatype Dataset = Dataset(nodes: seq<Node>, links: seq<Link>)

  function NodeIds(nodes: seq<Node>): (r: seq<NodeId>)
    ensures |r| == |nodes|
    ensures forall k :: 0 <= k < |nodes| ==> r[k] == nodes[k].id
  {
    seq(|nodes|, k requires 0 <= k < |nodes| => nodes[k].id)
  }

  function NodesOf(ids: seq<NodeId>): (r: seq<Node>)
    ensures NodeIds(r) == ids
  {
    seq(|ids|, k requires 0 <= k < |ids| => Node(ids[k]))
  }

  /** Every endpoint id in scan order: source before target within a link, links in order. */
  function LinkIds(links: seq<Link>): (r: seq<NodeId>)
    ensures |r| == 2 * |links|
  {
    if links == [] then []
    else
      var n := |links| - 1;
      LinkIds(links[..n]) + [links[n].source.Id(), links[n].target.Id()]
  }

  /** Positions `2k` and `2k + 1` of the scan hold the source and the target of link `k`. */
  lemma {:induction false} LinkIdsAt(links: seq<Link>)
    ensures forall k :: 0 <= k < |links| ==>
      LinkIds(links)[2 * k] == links[k].source.Id() && LinkIds(links)[2 * k + 1] == links[k].target.Id()
  {
    if links != [] {
      var n := |links| - 1;
      var p := links[..n];
      LinkIdsAt(p);
      assert forall k :: 0 <= k < n ==> p[k] == links[k];
    }
  }

  lemma {:induction false} LinkIdsAppend(links: seq<Link>, l: Link)
    ensures LinkIds(links + [l]) == LinkIds(links) + [l.source.Id(), l.target.Id()]
  {
    assert (links + [l])[..|links|] == links;
  }

  /** An id occurs among the endpoint ids exactly when some link has it as source or target. */
  lemma InLinkIds(links: seq<Link>, id: NodeId)
    ensures id in LinkIds(links) <==>
      exists k :: 0 <= k < |links| && (links[k].source.Id() == id || links[k].target.Id() == id)
  {
    var r := LinkIds(links);
    LinkIdsAt(links);
    if id in r {
      var j :| 0 <= j < |r| && r[j] == id;
      var k := j / 2;
      assert j == 2 * k || j == 2 * k + 1;
    }
  }

  predicate Distinct<T(==)>(s: seq<T>)
  {
    forall i, j :: 0 <= i < j < |s| ==> s[i] != s[j]
  }

  /** The dataset invariant: every link endpoint names a node of the dataset. */
  predicate Covers(data: Dataset)
  {
    forall k :: 0 <= k < |data.links| ==>
      data.links[k].source.Id() in NodeIds(data.nodes) &&
      data.links[k].target.Id() in NodeIds(data.nodes)
  }

  /** `set.add(x)` on an insertion-ordered JavaScript `Set`, seen as the sequence of its elements. */
  function SetAdd<T(==)>(xs: seq<T>, x: T): (r: seq<T>)
    ensures Distinct(xs) ==> Distinct(r)
    ensures x in r
    ensures forall k :: 0 <= k < |r| ==> r[k] in xs || r[k] == x
    ensures xs <= r
  {
    if x in xs then xs else xs + [x]
  }

  /** The elements of a `Set` filled by adding every element of `s` in turn. */
  function InsertionOrder<T(==)>(s: seq<T>): (r: seq<T>)
    ensures Distinct(r)
    ensures forall k :: 0 <= k < |r| ==> r[k] in s
    ensures forall k :: 0 <= k < |s| ==> s[k] in r
  {
    if s == [] then [] else SetAdd(InsertionOrder(s[..|s| - 1]), s[|s| - 1])
  }

  /** Adding one more element to the scan is one more `set.add`. */
  lemma InsertionOrderAppend<T>(s: seq<T>, x: T)
    ensures InsertionOrder(s + [x]) == SetAdd(InsertionOrder(s), x)
  {
    assert (s + [x])[..|s|] == s;
  }

  /** Adding two more elements to the scan is two more `set.add`s. */
  lemma InsertionOrderAppend2<T>(s: seq<T>, x: T, y: T)
    ensures InsertionOrder(s + [x, y]) == SetAdd(SetAdd(InsertionOrder(s), x), y)
  {
    assert s + [x, y] == (s + [x]) + [y];
    InsertionOrderAppend(s, x);
    InsertionOrderAppend(s + [x], y);
  }

  /** The ids of one more link are added to the set in scan order, source first. */
  lemma InsertionOrderSnocLink(links: seq<Link>, l: Link)
    ensures InsertionOrder(LinkIds(links + [l])) ==
      SetAdd(SetAdd(InsertionOrder(LinkIds(links)), l.source.Id()), l.target.Id())
  {
    LinkIdsAppend(links, l);
    InsertionOrderAppend2(LinkIds(links), l.source.Id(), l.target.Id());
  }

  /** The position of the first occurrence of `x` in `s`. */
  function FirstIndex<T(==)>(s: seq<T>, x: T): (i: nat)
    requires x in s
    ensures i < |s| && s[i] == x
    ensures forall k :: 0 <= k < i ==> s[k] != x
  {
    if s[0] == x then 0 else 1 + FirstIndex(s[1..], x)
  }

  lemma {:induction false} FirstIndexExtend<T>(s: seq<T>, a: T, x: T)
    requires x in s
    ensures FirstIndex(s + [a], x) == FirstIndex(s, x)
  {
    var i := FirstIndex(s, x);
    var j := FirstIndex(s + [a], x);
    assert (s + [a])[i] == x;
    assert j <= i;
    assert s[j] == x;
  }

  /** Every element of `r` occurs in `s`, and `r` lists them by increasing first position in `s`. */
  ghost predicate InFirstSeenOrder<T>(s: seq<T>, r: seq<T>)
  {
    && (forall k :: 0 <= k < |r| ==> r[k] in s)
    && (forall i, j :: 0 <= i < j < |r| ==> FirstIndex(s, r[i]) < FirstIndex(s, r[j]))
  }

  /** Appending to the scan keeps the first positions of what was already there. */
  lemma FirstSeenExtend<T>(p: seq<T>, a: T, r: seq<T>)
    requires InFirstSeenOrder(p, r)
    ensures InFirstSeenOrder(p + [a], r)
  {
    forall k | 0 <= k < |r|
      ensures FirstIndex(p + [a], r[k]) == FirstIndex(p, r[k])
    {
      FirstIndexExtend(p, a, r[k]);
    }
  }

  /** An element seen for the first time at the end of the scan goes last. */
  lemma FirstSeenAppendNew<T>(p: seq<T>, a: T, r: seq<T>)
    requires InFirstSeenOrder(p + [a], r)
    requires forall k :: 0 <= k < |r| ==> r[k] in p
    requires a !in p
    ensures InFirstSeenOrder(p + [a], r + [a])
  {
    var s := p + [a];
    assert FirstIndex(s, a) == |p|;
    forall k | 0 <= k < |r|
      ensures FirstIndex(s, r[k]) < |p|
    {
      FirstIndexExtend(p, a, r[k]);
    }
  }

  /** The set lists its elements in the order in which they were first added. */
  lemma {:induction false} InsertionOrderFirstSeen<T>(s: seq<T>)
    ensures InFirstSeenOrder(s, InsertionOrder(s))
  {
    if s != [] {
      var n := |s| - 1;
      var p := s[..n];
      assert s == p + [s[n]];
      InsertionOrderFirstSeen(p);
      var r' := InsertionOrder(p);
      FirstSeenExtend(p, s[n], r');
      if s[n] !in r' {
        FirstSeenAppendNew(p, s[n], r');
      }
    }
  }

  /** The dataset made of `links` and, as its nodes, their endpoint ids in first-seen order. */
  function DatasetOfLinks(links: seq<Link>): Dataset
  {
    Dataset(NodesOf(InsertionOrder(LinkIds(links))), links)
  }

  /**
   * The nodes of `DatasetOfLinks(links)` have no duplicates, cover every
   * endpoint, hold nothing that is not an endpoint, and come in the order of
   * their first appearance among the endpoint ids.
   */
  lemma DatasetOfLinksNodes(links: seq<Link>)
    ensures Distinct(NodeIds(DatasetOfLinks(links).nodes))
    ensures Covers(DatasetOfLinks(links))
    ensures forall k :: 0 <= k < |DatasetOfLinks(links).nodes| ==>
      DatasetOfLinks(links).nodes[k].id in LinkIds(links)
    ensures InFirstSeenOrder(LinkIds(links), NodeIds(DatasetOfLinks(links).nodes))
  {
    var data := DatasetOfLinks(links);
    var ids := LinkIds(links);
    assert NodeIds(data.nodes) == InsertionOrder(ids);
    InsertionOrderFirstSeen(ids);
    LinkIdsAt(links);
    forall k | 0 <= k < |links|
      ensures links[k].source.Id() in NodeIds(data.nodes)
      ensures links[k].target.Id() in NodeIds(data.nodes)
    {
      assert ids[2 * k] == links[k].source.Id();
      assert ids[2 * k + 1] == links[k].target.Id();
    }
  }
}
