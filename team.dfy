/** The team section's graph: three organising heads in a row at the top, the
    seventeen committee members in two rows below, and an edge from every head
    to every committee member. */
module Team {
  import Decimal

  const HeadNames: seq<string> := ["Organizing Head 1", "Organizing Head 2", "Organizing Head 3"]
  const HeadRoles: seq<string> := ["Chief Architect", "Operations Lead", "Technical Director"]
  /** `HEADS.length`. */
  const HeadCount := 3
  /** `COMMITTEES.length`. */
  const CommitteeCount := 17
  const NodeCount := HeadCount + CommitteeCount

  const HeadSpacing := 450
  const HeadsY := 50
  const Row1Count := 9
  const Row2Count := 8
  const CommitteeSpacingX := 280
  const CommitteeRow1Y := 450
  const CommitteeRow2Y := 750

  // Every row width below is even, so halving it is exact, as in the source.
  const HeadsStartX := -(((HeadCount - 1) * HeadSpacing) / 2)
  const Row1StartX := -(((Row1Count - 1) * CommitteeSpacingX) / 2)
  const Row2StartX := -(((Row2Count - 1) * CommitteeSpacingX) / 2)

  datatype Node = Node(id: string, x: int, y: int, name: string, role: string, isHead: bool)
  datatype Edge = Edge(id: string, source: string, target: string)

  /** `head-${i}`. */
  function HeadId(i: nat): (r: string)
    ensures 5 < |r| && r[..5] == "head-" && r[5..] == Decimal.FromNat(i)
  {
    var r := "head-" + Decimal.FromNat(i);
    assert r[5..] == Decimal.FromNat(i);
    r
  }

  /** `committee-${i}`. */
  function CommitteeId(i: nat): (r: string)
    ensures 10 < |r| && r[..10] == "committee-" && r[10..] == Decimal.FromNat(i)
  {
    var r := "committee-" + Decimal.FromNat(i);
    assert r[10..] == Decimal.FromNat(i);
    r
  }

  /** The node of head `i`. */
  function HeadNode(i: nat): (n: Node)
    requires i < HeadCount
    ensures n.isHead && n.id == HeadId(i) && n.y == HeadsY
    ensures -450 <= n.x <= 450 && n.x % HeadSpacing == 0
  {
    Node(HeadId(i), HeadsStartX + i * HeadSpacing, HeadsY, HeadNames[i], HeadRoles[i], true)
  }

  /** The node of committee member `i`: the first nine fill the upper row,
      the rest the lower one. */
  function CommitteeNode(i: nat): (n: Node)
    requires i < CommitteeCount
    ensures !n.isHead && n.id == CommitteeId(i) && n.role == "Core Committee"
    ensures i < Row1Count ==> n.y == CommitteeRow1Y && -1120 <= n.x <= 1120
    ensures Row1Count <= i ==> n.y == CommitteeRow2Y && -980 <= n.x <= 980
  {
    var x := if i < Row1Count then Row1StartX + i * CommitteeSpacingX
             else Row2StartX + (i - Row1Count) * CommitteeSpacingX;
    var y := if i < Row1Count then CommitteeRow1Y else CommitteeRow2Y;
    Node(CommitteeId(i), x, y, "Committee " + Decimal.FromNat(i + 1), "Core Committee", false)
  }

  /** The edge from head `h` to committee member `c`. */
  function EdgeOf(h: nat, c: nat): (e: Edge)
    ensures e.source == HeadId(h) && e.target == CommitteeId(c)
    ensures e.id == "edge-" + e.source + "-" + e.target
  {
    Edge("edge-" + HeadId(h) + "-" + CommitteeId(c), HeadId(h), CommitteeId(c))
  }

  /** The nodes in the order they are pushed: heads, then committee members. */
  function NodeAt(k: nat): (n: Node)
    requires k < NodeCount
    ensures n.isHead <==> k < HeadCount
  {
    if k < HeadCount then HeadNode(k) else CommitteeNode(k - HeadCount)
  }

  /** The edges in the order they are pushed: for each committee member, one
      edge from each head. */
  function EdgeAt(k: nat): (e: Edge)
    requires k < HeadCount * CommitteeCount
    ensures k % HeadCount < HeadCount && k / HeadCount < CommitteeCount
    ensures e.source == HeadId(k % HeadCount) && e.target == CommitteeId(k / HeadCount)
  {
    EdgeOf(k % HeadCount, k / HeadCount)
  }

  /** The first `n` nodes in push order. */
  ghost function NodesUpTo(n: nat): (r: seq<Node>)
    requires n <= NodeCount
    ensures |r| == n && forall k :: 0 <= k < n ==> r[k] == NodeAt(k)
  {
    seq(n, k requires 0 <= k < n => NodeAt(k))
  }

  /** The first `n` edges in push order. */
  ghost function EdgesUpTo(n: nat): (r: seq<Edge>)
    requires n <= HeadCount * CommitteeCount
    ensures |r| == n && forall k :: 0 <= k < n ==> r[k] == EdgeAt(k)
  {
    seq(n, k requires 0 <= k < n => EdgeAt(k))
  }

  lemma NodesUpToStep(n: nat)
    requires n < NodeCount
    ensures NodesUpTo(n + 1) == NodesUpTo(n) + [NodeAt(n)]
  {
  }

  lemma EdgesUpToStep(n: nat)
    requires n < HeadCount * CommitteeCount
    ensures EdgesUpTo(n + 1) == EdgesUpTo(n) + [EdgeAt(n)]
  {
  }

  /** `generateNodesAndEdges`. */
  method GenerateNodesAndEdges() returns (nodes: seq<Node>, edges: seq<Edge>)
    ensures |nodes| == NodeCount && |edges| == HeadCount * CommitteeCount
    ensures forall k :: 0 <= k < NodeCount ==> nodes[k] == NodeAt(k)
    ensures forall c, h :: 0 <= c < CommitteeCount && 0 <= h < HeadCount ==>
      edges[c * HeadCount + h] == EdgeOf(h, c)
  {
    nodes, edges := [], [];

    var i := 0;
    while i < HeadCount
      invariant 0 <= i <= HeadCount
      invariant nodes == NodesUpTo(i)
    {
      var x := HeadsStartX + i * HeadSpacing;
      NodesUpToStep(i);
      nodes := nodes + [Node(HeadId(i), x, HeadsY, HeadNames[i], HeadRoles[i], true)];
      i := i + 1;
    }

    i := 0;
    while i < CommitteeCount
      invariant 0 <= i <= CommitteeCount
      invariant nodes == NodesUpTo(HeadCount + i)
      invariant edges == EdgesUpTo(i * HeadCount)
    {
      var x, y;
      if i < Row1Count {
        x := Row1StartX + i * CommitteeSpacingX;
        y := CommitteeRow1Y;
      } else {
        var j := i - Row1Count;
        x := Row2StartX + j * CommitteeSpacingX;
        y := CommitteeRow2Y;
      }
      NodesUpToStep(HeadCount + i);
      nodes := nodes + [Node(CommitteeId(i), x, y, "Committee " + Decimal.FromNat(i + 1), "Core Committee", false)];

      var hIndex := 0;
      while hIndex < HeadCount
        invariant 0 <= hIndex <= HeadCount
        invariant edges == EdgesUpTo(i * HeadCount + hIndex)
      {
        var headId := HeadId(hIndex);
        var committeeId := CommitteeId(i);
        EdgesUpToStep(i * HeadCount + hIndex);
        EdgeAtIsPair(i, hIndex);
        edges := edges + [Edge("edge-" + headId + "-" + committeeId, headId, committeeId)];
        hIndex := hIndex + 1;
      }
      i := i + 1;
    }
    forall c, h | 0 <= c < CommitteeCount && 0 <= h < HeadCount
      ensures edges[c * HeadCount + h] == EdgeOf(h, c)
    {
      EdgeAtIsPair(c, h);
    }
  }

  /** The push order of the edges lists every (head, committee) pair once. */
  lemma EdgeAtIsPair(c: nat, h: nat)
    requires c < CommitteeCount && h < HeadCount
    ensures c * HeadCount + h < HeadCount * CommitteeCount
    ensures EdgeAt(c * HeadCount + h) == EdgeOf(h, c)
  {
  }

  /** Heads stand in one row at y = 50 at x = -450, 0 and 450: evenly spaced
      and symmetric about x = 0. */
  lemma HeadLayout()
    ensures HeadNode(0).x == -450 && HeadNode(1).x == 0 && HeadNode(2).x == 450
    ensures forall i :: 0 <= i < HeadCount ==>
      HeadNode(i).y == 50 && HeadNode(i).x + HeadNode(HeadCount - 1 - i).x == 0
    ensures forall i :: 0 <= i < HeadCount - 1 ==> HeadNode(i + 1).x - HeadNode(i).x == HeadSpacing
  {
  }

  /** Committee members 0..8 stand in the row at y = 450 and 9..16 in the row
      at y = 750; each row is spaced by 280 and symmetric about x = 0. */
  lemma CommitteeLayout()
    ensures forall i :: 0 <= i < Row1Count ==>
      CommitteeNode(i).y == 450 && CommitteeNode(i).x + CommitteeNode(Row1Count - 1 - i).x == 0
    ensures forall i :: Row1Count <= i < CommitteeCount ==>
      CommitteeNode(i).y == 750 &&
      CommitteeNode(i).x + CommitteeNode(CommitteeCount - 1 - (i - Row1Count)).x == 0
    ensures forall i :: 0 <= i < CommitteeCount - 1 && i != Row1Count - 1 ==>
      CommitteeNode(i + 1).x - CommitteeNode(i).x == CommitteeSpacingX
  {
  }

  /** No two nodes share a position. */
  lemma DistinctPositions(k: nat, l: nat)
    requires k < NodeCount && l < NodeCount && k != l
    ensures NodeAt(k).x != NodeAt(l).x || NodeAt(k).y != NodeAt(l).y
  {
  }

  lemma HeadIdInjective(i: nat, j: nat)
    requires HeadId(i) == HeadId(j)
    ensures i == j
  {
    assert Decimal.FromNat(i) == HeadId(i)[5..];
    assert Decimal.FromNat(j) == HeadId(j)[5..];
    Decimal.FromNatInjective(i, j);
  }

  lemma CommitteeIdInjective(i: nat, j: nat)
    requires CommitteeId(i) == CommitteeId(j)
    ensures i == j
  {
    assert Decimal.FromNat(i) == CommitteeId(i)[10..];
    assert Decimal.FromNat(j) == CommitteeId(j)[10..];
    Decimal.FromNatInjective(i, j);
  }

  /** Node ids are unique. */
  lemma NodeIdsUnique(k: nat, l: nat)
    requires k < NodeCount && l < NodeCount && k != l
    ensures NodeAt(k).id != NodeAt(l).id
  {
    if k < HeadCount && l < HeadCount {
      if HeadId(k) == HeadId(l) { HeadIdInjective(k, l); }
    } else if k >= HeadCount && l >= HeadCount {
      if CommitteeId(k - HeadCount) == CommitteeId(l - HeadCount) {
        CommitteeIdInjective(k - HeadCount, l - HeadCount);
      }
    } else {
      assert NodeAt(k).id[0] != NodeAt(l).id[0];
    }
  }

  /** Every edge runs from an existing head node to an existing committee
      node, and different edges join different pairs, so the edges are
      exactly the 3 * 17 (head, committee) pairs. */
  lemma EdgesJoinHeadsToCommittees(k: nat)
    requires k < HeadCount * CommitteeCount
    ensures NodeAt(k % HeadCount).isHead && NodeAt(k % HeadCount).id == EdgeAt(k).source
    ensures !NodeAt(HeadCount + k / HeadCount).isHead
      && NodeAt(HeadCount + k / HeadCount).id == EdgeAt(k).target
  {
  }

  lemma EdgePairsUnique(k: nat, l: nat)
    requires k < HeadCount * CommitteeCount && l < HeadCount * CommitteeCount
    requires EdgeAt(k).source == EdgeAt(l).source && EdgeAt(k).target == EdgeAt(l).target
    ensures k == l
  {
    HeadIdInjective(k % HeadCount, l % HeadCount);
    CommitteeIdInjective(k / HeadCount, l / HeadCount);
  }
}
