/**
 * The degree table `renderGraph` builds before laying out a graph: every node
 * starts at 0, and each link adds 1 to its source and 1 to its target, whether
 * or not those ids belong to a node.
 */
module Degrees {
  import opened Graph

  /** How many link ends carry `id`: its count in the scan of all endpoint ids. */
  function Incidence(links: seq<Link>, id: NodeId): nat
  {
    multiset(LinkIds(links))[id]
  }

  /** The table `degrees` holds once both `forEach` loops are done. */
  function DegreeTable(data: Dataset): map<NodeId, nat>
  {
    map id | id in NodeIds(data.nodes) + LinkIds(data.links) :: Incidence(data.links, id)
  }

  /** `degrees.get(id) || 0`. */
  function Lookup(table: map<NodeId, nat>, id: NodeId): (r: nat)
    ensures id in table ==> r == table[id]
    ensures id !in table ==> r == 0
  {
    if id in table then table[id] else 0
  }

  /** The table after the first loop: an entry of 0 for each of the given ids. */
  function ZeroTable(ids: seq<NodeId>): map<NodeId, nat>
  {
    map id | id in ids :: 0
  }

  /** Before any link is counted the table is the zero table of the node ids. */
  lemma NoLinks(nodes: seq<Node>)
    ensures DegreeTable(Dataset(nodes, [])) == ZeroTable(NodeIds(nodes))
  {
    assert LinkIds([]) == [];
    assert NodeIds(nodes) + [] == NodeIds(nodes);
  }

  /** The two `forEach` loops of `renderGraph` that fill the `degrees` map. */
  method ComputeDegrees(data: Dataset) returns (degrees: map<NodeId, nat>)
    ensures degrees == DegreeTable(data)
  {
    degrees := ZeroDegrees(data.nodes);
    NoLinks(data.nodes);
    degrees := CountEnds(data, degrees);
  }

  /** `nodes.forEach(n => degrees.set(n.id, 0))`. */
  method ZeroDegrees(nodes: seq<Node>) returns (degrees: map<NodeId, nat>)
    ensures degrees == ZeroTable(NodeIds(nodes))
  {
    ghost var nodeIds := NodeIds(nodes);
    degrees := map[];
    for i := 0 to |nodes|
      invariant degrees == ZeroTable(nodeIds[..i])
    {
      degrees := degrees[nodes[i].id := 0];
      assert nodeIds[..i + 1] == nodeIds[..i] + [nodes[i].id];
    }
    assert nodeIds[..|nodes|] == nodeIds;
  }

  /** `links.forEach(...)`: add 1 to the entries of the source and the target of every link. */
  method CountEnds(data: Dataset, zero: map<NodeId, nat>) returns (degrees: map<NodeId, nat>)
    requires zero == DegreeTable(Dataset(data.nodes, []))
    ensures degrees == DegreeTable(data)
  {
    degrees := zero;
    assert data.links[..0] == [];
    for i := 0 to |data.links|
      invariant degrees == DegreeTable(Dataset(data.nodes, data.links[..i]))
    {
      ghost var before := degrees;
      degrees := CountLinkEnds(degrees, data.links[i]);
      CountLink(data.nodes, data.links, i, before, degrees);
    }
    assert data.links[..|data.links|] == data.links;
  }

  /** The callback of the second `forEach`: resolve both ends of `link` and add 1 to each end's entry. */
  method CountLinkEnds(degrees: map<NodeId, nat>, link: Link) returns (after: map<NodeId, nat>)
    ensures after == Bump(Bump(degrees, link.source.Id()), link.target.Id())
    ensures after.Keys == degrees.Keys + {link.source.Id(), link.target.Id()}
    ensures forall id :: id in after ==>
      after[id] == Lookup(degrees, id) + (if id == link.source.Id() then 1 else 0) +
        (if id == link.target.Id() then 1 else 0)
  {
    var sourceId := link.source.Id();
    var targetId := link.target.Id();
    after := degrees[sourceId := Lookup(degrees, sourceId) + 1];
    after := after[targetId := Lookup(after, targetId) + 1];
    BumpTwice(degrees, sourceId, targetId);
  }

  /** One iteration of the second loop turns the table of the first `i` links into that of the first `i + 1`. */
  lemma CountLink(nodes: seq<Node>, links: seq<Link>, i: nat, before: map<NodeId, nat>, after: map<NodeId, nat>)
    requires i < |links|
    requires before == DegreeTable(Dataset(nodes, links[..i]))
    requires after == Bump(Bump(before, links[i].source.Id()), links[i].target.Id())
    ensures after == DegreeTable(Dataset(nodes, links[..i + 1]))
  {
    assert links[..i + 1] == links[..i] + [links[i]];
    AddLink(nodes, links[..i], links[i]);
  }

  /** Every node has an entry, and a node that no link touches has degree 0. */
  lemma UntouchedNodeIsZero(data: Dataset, id: NodeId)
    requires id in NodeIds(data.nodes)
    requires forall k :: 0 <= k < |data.links| ==>
      data.links[k].source.Id() != id && data.links[k].target.Id() != id
    ensures id in DegreeTable(data) && DegreeTable(data)[id] == 0
  {
    InLinkIds(data.links, id);
  }

  /** An endpoint id that no node has still gets an entry, counting at least that link. */
  lemma UnknownEndpointCounted(data: Dataset, k: nat)
    requires k < |data.links|
    ensures data.links[k].source.Id() in DegreeTable(data)
    ensures data.links[k].target.Id() in DegreeTable(data)
    ensures DegreeTable(data)[data.links[k].source.Id()] >= 1
    ensures DegreeTable(data)[data.links[k].target.Id()] >= 1
  {
    InLinkIds(data.links, data.links[k].source.Id());
    InLinkIds(data.links, data.links[k].target.Id());
  }

  /** `degrees.set(id, (degrees.get(id) || 0) + 1)`. */
  function Bump(table: map<NodeId, nat>, id: NodeId): (r: map<NodeId, nat>)
  {
    table[id := Lookup(table, id) + 1]
  }

  /**
   * One more link adds 1 to the entry of its source and then 1 to the entry
   * of its target (both created at 0 if missing); nothing else changes.
   */
  lemma AddLink(nodes: seq<Node>, links: seq<Link>, l: Link)
    ensures DegreeTable(Dataset(nodes, links + [l])) ==
      Bump(Bump(DegreeTable(Dataset(nodes, links)), l.source.Id()), l.target.Id())
  {
    var t := DegreeTable(Dataset(nodes, links));
    var u := DegreeTable(Dataset(nodes, links + [l]));
    var b := Bump(Bump(t, l.source.Id()), l.target.Id());
    AddLinkKeys(nodes, links, l);
    AddLinkValues(nodes, links, l);
    BumpTwice(t, l.source.Id(), l.target.Id());
    assert u.Keys == b.Keys;
    assert forall id :: id in u ==> u[id] == b[id];
  }

  /** Bumping `a` and then `b` adds their two keys and only changes their entries. */
  lemma BumpTwice(t: map<NodeId, nat>, a: NodeId, b: NodeId)
    ensures Bump(Bump(t, a), b).Keys == t.Keys + {a, b}
    ensures forall id :: id in Bump(Bump(t, a), b) ==>
      Bump(Bump(t, a), b)[id] == Lookup(t, id) + (if id == a then 1 else 0) + (if id == b then 1 else 0)
  {
  }

  /** One more link adds its two ends to the keys of the table. */
  lemma AddLinkKeys(nodes: seq<Node>, links: seq<Link>, l: Link)
    ensures DegreeTable(Dataset(nodes, links + [l])).Keys ==
      DegreeTable(Dataset(nodes, links)).Keys + {l.source.Id(), l.target.Id()}
  {
    LinkIdsAppend(links, l);
  }

  /** One more link leaves the entries of other ids as they were. */
  lemma AddLinkValues(nodes: seq<Node>, links: seq<Link>, l: Link)
    ensures forall id :: id in DegreeTable(Dataset(nodes, links + [l])) ==>
      DegreeTable(Dataset(nodes, links + [l]))[id] ==
        Lookup(DegreeTable(Dataset(nodes, links)), id) +
        (if id == l.source.Id() then 1 else 0) + (if id == l.target.Id() then 1 else 0)
  {
    forall id | id in DegreeTable(Dataset(nodes, links + [l]))
      ensures DegreeTable(Dataset(nodes, links + [l]))[id] ==
        Lookup(DegreeTable(Dataset(nodes, links)), id) +
        (if id == l.source.Id() then 1 else 0) + (if id == l.target.Id() then 1 else 0)
    {
      IncidenceAppend(links, l, id);
      if id !in DegreeTable(Dataset(nodes, links)) {
        assert id !in LinkIds(links);
      }
    }
  }

  /** One more link adds its own ends to the incidence counts. */
  lemma IncidenceAppend(links: seq<Link>, l: Link, id: NodeId)
    ensures Incidence(links + [l], id) == Incidence(links, id) +
      (if id == l.source.Id() then 1 else 0) + (if id == l.target.Id() then 1 else 0)
  {
    LinkIdsAppend(links, l);
    var ids := LinkIds(links);
    assert multiset(ids + [l.source.Id(), l.target.Id()]) ==
      multiset(ids) + multiset{l.source.Id()} + multiset{l.target.Id()};
  }

  /** A self-loop `a -> a` adds exactly 2 to the degree of `a`. */
  lemma SelfLoopAddsTwo(nodes: seq<Node>, links: seq<Link>, a: Endpoint, b: Endpoint)
    requires a.Id() == b.Id()
    ensures DegreeTable(Dataset(nodes, links + [Link(a, b)]))[a.Id()] ==
      Lookup(DegreeTable(Dataset(nodes, links)), a.Id()) + 2
  {
    AddLink(nodes, links, Link(a, b));
  }

  /** The keys of the `degrees` map in insertion order: node ids, then endpoint ids not seen before. */
  function DegreeKeys(data: Dataset): (r: seq<NodeId>)
    ensures Distinct(r)
    ensures forall id :: id in r <==> id in DegreeTable(data)
  {
    var all := NodeIds(data.nodes) + LinkIds(data.links);
    assert forall id :: id in all <==> id in DegreeTable(data);
    InsertionOrder(all)
  }

  /** The sum of the table's values over the given keys. */
  function SumOver(keys: seq<NodeId>, table: map<NodeId, nat>): int
    requires forall k :: 0 <= k < |keys| ==> keys[k] in table
  {
    if keys == [] then 0 else SumOver(keys[..|keys| - 1], table) + table[keys[|keys| - 1]]
  }

  /** The sum of the counts in `s` of the given keys. */
  function SumCounts<T(==)>(keys: seq<T>, s: seq<T>): int
  {
    if keys == [] then 0 else SumCounts(keys[..|keys| - 1], s) + multiset(s)[keys[|keys| - 1]]
  }

  lemma {:induction false} SumCountsEmpty<T>(keys: seq<T>)
    ensures SumCounts(keys, []) == 0
  {
    if keys != [] {
      SumCountsEmpty(keys[..|keys| - 1]);
    }
  }

  lemma {:induction false} SumCountsSnoc<T>(keys: seq<T>, s: seq<T>, a: T)
    requires Distinct(keys)
    ensures SumCounts(keys, s + [a]) == SumCounts(keys, s) + (if a in keys then 1 else 0)
  {
    if keys != [] {
      var p := keys[..|keys| - 1];
      SumCountsSnoc(p, s, a);
      assert a in keys <==> a in p || a == keys[|keys| - 1];
      assert a == keys[|keys| - 1] ==> a !in p;
    }
  }

  /** Over distinct keys that include every element of `s`, the counts add up to `|s|`. */
  lemma {:induction false} SumCountsAll<T>(keys: seq<T>, s: seq<T>)
    requires Distinct(keys)
    requires forall k :: 0 <= k < |s| ==> s[k] in keys
    ensures SumCounts(keys, s) == |s|
  {
    if s == [] {
      SumCountsEmpty(keys);
    } else {
      var p := s[..|s| - 1];
      assert s == p + [s[|s| - 1]];
      SumCountsAll(keys, p);
      SumCountsSnoc(keys, p, s[|s| - 1]);
    }
  }

  lemma {:induction false} SumOverIsSumCounts(keys: seq<NodeId>, table: map<NodeId, nat>, s: seq<NodeId>)
    requires forall k :: 0 <= k < |keys| ==> keys[k] in table && table[keys[k]] == multiset(s)[keys[k]]
    ensures SumOver(keys, table) == SumCounts(keys, s)
  {
    if keys != [] {
      SumOverIsSumCounts(keys[..|keys| - 1], table, s);
    }
  }

  /** Degree sum law: the values of the table, each key once, add up to twice the number of links. */
  lemma DegreeSum(data: Dataset)
    ensures SumOver(DegreeKeys(data), DegreeTable(data)) == 2 * |data.links|
  {
    var keys := DegreeKeys(data);
    var table := DegreeTable(data);
    var s := LinkIds(data.links);
    SumOverIsSumCounts(keys, table, s);
    forall k | 0 <= k < |s|
      ensures s[k] in keys
    {
      assert s[k] in table;
    }
    SumCountsAll(keys, s);
  }
}
