/**
 * The last two stages of `calculateGenogramLayout`
 * (src/utils/genogramLayout.ts): placing every family unit top-down and
 * synthesising the marriage, child, twin and identical-twin edges, then the
 * whole pipeline from the people to the nodes and edges.
 *
 * Each placement method returns the nodes and edges it pushes, in push
 * order; the caller appends them to its own, which is how the source's
 * shared `nodes` and `edges` arrays grow. The marriage-node map is threaded
 * through the calls. A node's box is 80 x 80 for a person and 1 x 1 for a
 * marriage anchor.
 */
module LayoutPlace {
  import opened Types
  import opened Sequences
  import opened LayoutTree

  /** A node id: `String(key)` for a person, `marriage-node-k1-k2` for an anchor. */
  datatype NodeId = PersonNode(key: int) | MarriageNode(k1: int, k2: int)

  /** The node types 'male', 'female', 'unknown', 'pet', 'pregnancy' and 'marriageNode'. */
  datatype NodeKind = MaleShape | FemaleShape | UnknownShape | PetShape | PregnancyShape | MarriageShape

  datatype FlowNode = FlowNode(id: NodeId, kind: NodeKind, x: real, y: real)

  /** Edge ids: `marriage-k1-k2`, `child-source-key`, `twin-group-key`, `identical-link-a-b`. */
  datatype EdgeId =
    | MarriageEdgeId(k1: int, k2: int)
    | ChildEdgeId(source: NodeId, child: int)
    | TwinGroupId(first: int)
    | IdenticalLinkId(left: int, right: int)

  /** Edge types with the data the layout attaches to them. */
  datatype EdgeKind =
    | MarriageLine
    | DivorcedLine
    | ChildLine(isAdopted: bool, isFoster: bool)
    | TwinLine(twinIds: seq<int>, isIdentical: bool)
    | StraightLine

  datatype FlowEdge = FlowEdge(id: EdgeId, source: NodeId, target: NodeId, kind: EdgeKind)

  /** The key `"k1-k2"` of `marriageNodeMap`. */
  datatype Couple = Couple(first: int, second: int)

  type MarriageMap = map<Couple, NodeId>

  // ---------------------------------------------------------------- node and edge helpers

  /**
   * `getNodeType`: a pregnancy, miscarriage or abortion is drawn as a
   * pregnancy node whatever the gender; everyone else by gender. A person
   * is never drawn as a marriage anchor.
   */
  function NodeKindOf(p: Person): (r: NodeKind)
    ensures r == PregnancyShape <==> p.birthStatus.Some? && p.birthStatus.value != Normal
    ensures r != MarriageShape
    ensures r != PregnancyShape ==>
      (r == MaleShape <==> p.gender == Male) && (r == FemaleShape <==> p.gender == Female) &&
      (r == UnknownShape <==> p.gender == UnknownGender) && (r == PetShape <==> p.gender == Pet)
  {
    if p.birthStatus.Some? && p.birthStatus.value != Normal then PregnancyShape
    else match p.gender
      case Male => MaleShape
      case Female => FemaleShape
      case UnknownGender => UnknownShape
      case Pet => PetShape
  }

  /** The relation status of a couple: divorced when either partner says so. */
  function MarriageLineKind(p1: Person, p2: Person): (r: EdgeKind)
    ensures r == MarriageLine || r == DivorcedLine
    ensures r == DivorcedLine <==> p1.relationStatus == Some(Divorced) || p2.relationStatus == Some(Divorced)
  {
    if p1.relationStatus == Some(Divorced) || p2.relationStatus == Some(Divorced) then DivorcedLine else MarriageLine
  }

  /** The side of a node's square box. */
  function Extent(n: FlowNode): real {
    if n.id.PersonNode? then NodeWidth else 1.0
  }

  /** The keys of the person nodes, in order. */
  function PersonKeys(ns: seq<FlowNode>): seq<int> {
    if ns == [] then []
    else PersonKeys(ns[..|ns| - 1]) + (if ns[|ns| - 1].id.PersonNode? then [ns[|ns| - 1].id.key] else [])
  }

  lemma {:induction false} PersonKeysAppend(a: seq<FlowNode>, b: seq<FlowNode>)
    ensures PersonKeys(a + b) == PersonKeys(a) + PersonKeys(b)
    decreases |b|
  {
    if b == [] {
      assert a + b == a;
    } else {
      var n := |b| - 1;
      assert (a + b)[..|a + b| - 1] == a + b[..n];
      PersonKeysAppend(a, b[..n]);
    }
  }

  function Ids(ns: seq<FlowNode>): set<NodeId> {
    set i | 0 <= i < |ns| :: ns[i].id
  }

  lemma IdsAppend(a: seq<FlowNode>, b: seq<FlowNode>)
    ensures Ids(a + b) == Ids(a) + Ids(b)
  {
    forall id | id in Ids(a + b) ensures id in Ids(a) + Ids(b) {
      var i :| 0 <= i < |a + b| && (a + b)[i].id == id;
      if i >= |a| { assert b[i - |a|].id == id; }
    }
    forall id | id in Ids(a) + Ids(b) ensures id in Ids(a + b) {
      if id in Ids(a) {
        var i :| 0 <= i < |a| && a[i].id == id;
        assert (a + b)[i].id == id;
      } else {
        var i :| 0 <= i < |b| && b[i].id == id;
        assert (a + b)[|a| + i].id == id;
      }
    }
  }

  /** The unit's anchor for its children: the marriage node of a couple, else the person. */
  function UnitId(t: Tree): NodeId {
    if t.spouse.Some? then MarriageNode(t.person.key, t.spouse.value.key) else PersonNode(t.person.key)
  }

  /** The nodes the unit draws on its own row: the person, then the spouse and the anchor. */
  function RowCount(t: Tree): nat {
    if t.spouse.Some? then 3 else 1
  }

  /** The source of a child or twin edge: the couple's marriage node if the map has it, else the person. */
  function ParentSource(t: Tree, mmap: MarriageMap): NodeId {
    if t.spouse.Some? && Couple(t.person.key, t.spouse.value.key) in mmap then
      mmap[Couple(t.person.key, t.spouse.value.key)]
    else PersonNode(t.person.key)
  }

  /** The primary keys of a sequence of units (`twins.map(t => String(t.person.key))`). */
  function PrimaryKeys(ts: seq<Tree>): (r: seq<int>)
    ensures |r| == |ts| && forall i :: 0 <= i < |ts| ==> r[i] == ts[i].person.key
  {
    if ts == [] then [] else PrimaryKeys(ts[..|ts| - 1]) + [ts[|ts| - 1].person.key]
  }

  // ---------------------------------------------------------------- geometry predicates

  /** Every box lies between `left` and `right`. */
  ghost predicate Within(ns: seq<FlowNode>, left: real, right: real) {
    forall i :: 0 <= i < |ns| ==> left <= ns[i].x && ns[i].x + Extent(ns[i]) <= right
  }

  /** Every box starts at or below `top`. */
  ghost predicate Below(ns: seq<FlowNode>, top: real) {
    forall i :: 0 <= i < |ns| ==> top <= ns[i].y
  }

  /** Every box ends at or above `bottom`. */
  ghost predicate Above(ns: seq<FlowNode>, bottom: real) {
    forall i :: 0 <= i < |ns| ==> ns[i].y + Extent(ns[i]) <= bottom
  }

  /** The person box of a unit whose subtree is laid out from `x` on row `y` (`mainPersonX` in `layoutNode`). */
  function PersonBox(t: Tree, x: real, y: real): FlowNode {
    FlowNode(PersonNode(t.person.key), NodeKindOf(t.person), x + t.width / 2.0 - ParentsWidth(t) / 2.0, y)
  }

  /** Where the `j`-th of `units` starts when they are laid out left to right from `start`, `gap` apart. */
  function StartOf(units: seq<Tree>, j: int, start: real, gap: real): real
    requires 0 <= j <= |units|
  {
    start + SumWidths(units[..j]) + gap * j as real
  }

  /** Each of `units`, laid out left to right from `start` with `gap` between them, has its person box in `ns` on row `y`. */
  ghost predicate BoxesAt(units: seq<Tree>, start: real, gap: real, y: real, ns: seq<FlowNode>) {
    forall j {:trigger StartOf(units, j, start, gap)} :: 0 <= j < |units| ==> PersonBox(units[j], StartOf(units, j, start, gap), y) in ns
  }

  /** One more unit laid out at its start keeps the earlier boxes and adds its own. */
  lemma BoxesStep(units: seq<Tree>, i: int, start: real, gap: real, y: real, ns: seq<FlowNode>, ns': seq<FlowNode>)
    requires 0 <= i < |units| && BoxesAt(units[..i], start, gap, y, ns)
    requires PlacedNext(units[i], StartOf(units, i, start, gap), y, ns, ns')
    ensures BoxesAt(units[..i + 1], start, gap, y, ns')
  {
    var u := units[..i + 1];
    forall j | 0 <= j < |u| ensures PersonBox(u[j], StartOf(u, j, start, gap), y) in ns' {
      if j < i {
        StartOfPrefix(u, units[..i], j, start, gap);
        assert PersonBox(units[..i][j], StartOf(units[..i], j, start, gap), y) in ns;
        assert ns == ns'[..|ns|];
      } else {
        StartOfPrefix(u, units, j, start, gap);
      }
    }
  }

  /**
   * `ns'` is `ns` followed by the boxes of `unit` laid out from `at` on row `y`:
   * the unit's own person box first, and every box inside the unit's width.
   */
  ghost predicate PlacedNext(unit: Tree, at: real, y: real, ns: seq<FlowNode>, ns': seq<FlowNode>) {
    |ns'| > |ns| && ns'[..|ns|] == ns &&
    ns'[|ns|] == PersonBox(unit, at, y) && Within(ns'[|ns|..], at, at + unit.width)
  }

  lemma PlacedNextAppend(unit: Tree, at: real, y: real, ns: seq<FlowNode>, cns: seq<FlowNode>)
    requires cns != [] && cns[0] == PersonBox(unit, at, y) && Within(cns, at, at + unit.width)
    ensures PlacedNext(unit, at, y, ns, ns + cns)
  {
    assert (ns + cns)[|ns|..] == cns;
  }

  /** Units that agree before position `j` start the `j`-th at the same place. */
  lemma StartOfPrefix(a: seq<Tree>, b: seq<Tree>, j: int, start: real, gap: real)
    requires 0 <= j <= |a| && j <= |b| && a[..j] == b[..j]
    ensures StartOf(a, j, start, gap) == StartOf(b, j, start, gap)
  {
  }

  /** The next unit starts the current one's width and one gap further right. */
  lemma StartOfStep(units: seq<Tree>, i: int, start: real, gap: real)
    requires 0 <= i < |units|
    ensures StartOf(units, i + 1, start, gap) == StartOf(units, i, start, gap) + units[i].width + gap
  {
    SpanStep(units, i);
  }

  /** The `k`-th unit of a block laid out right after `placed` starts where the block's own row of starts says. */
  lemma StartOfConcat(placed: seq<Tree>, group: seq<Tree>, k: int, start: real, cursor: real, gap: real)
    requires 0 <= k <= |group|
    requires cursor == start + SumWidths(placed) + gap * |placed| as real
    ensures StartOf(placed + group, |placed| + k, start, gap) == StartOf(group, k, cursor, gap)
  {
    assert (placed + group)[..|placed| + k] == placed + group[..k];
    SumOfAppend(WidthOf, placed, group[..k]);
    assert gap * (|placed| + k) as real == gap * |placed| as real + gap * k as real;
  }

  /** A block laid out from the cursor right after `placed` continues their row of starts. */
  lemma BoxesConcat(placed: seq<Tree>, group: seq<Tree>, start: real, cursor: real, gap: real, y: real,
                    ns: seq<FlowNode>, gns: seq<FlowNode>)
    requires cursor == start + SumWidths(placed) + gap * |placed| as real
    requires BoxesAt(placed, start, gap, y, ns) && BoxesAt(group, cursor, gap, y, gns)
    ensures BoxesAt(placed + group, start, gap, y, ns + gns)
  {
    var u := placed + group;
    forall j | 0 <= j < |u| ensures PersonBox(u[j], StartOf(u, j, start, gap), y) in ns + gns {
      if j < |placed| {
        EarlierBox(placed, group, j, start, gap, y, ns, gns);
      } else {
        LaterBox(placed, group, j - |placed|, start, cursor, gap, y, ns, gns);
      }
    }
  }

  lemma EarlierBox(placed: seq<Tree>, group: seq<Tree>, j: int, start: real, gap: real, y: real,
                   ns: seq<FlowNode>, gns: seq<FlowNode>)
    requires 0 <= j < |placed| && BoxesAt(placed, start, gap, y, ns)
    ensures PersonBox((placed + group)[j], StartOf(placed + group, j, start, gap), y) in ns + gns
  {
    assert (placed + group)[..j] == placed[..j];
    StartOfPrefix(placed + group, placed, j, start, gap);
    assert PersonBox(placed[j], StartOf(placed, j, start, gap), y) in ns;
  }

  lemma LaterBox(placed: seq<Tree>, group: seq<Tree>, k: int, start: real, cursor: real, gap: real, y: real,
                 ns: seq<FlowNode>, gns: seq<FlowNode>)
    requires 0 <= k < |group| && BoxesAt(group, cursor, gap, y, gns)
    requires cursor == start + SumWidths(placed) + gap * |placed| as real
    ensures PersonBox((placed + group)[|placed| + k], StartOf(placed + group, |placed| + k, start, gap), y) in ns + gns
  {
    StartOfConcat(placed, group, k, start, cursor, gap);
    assert PersonBox(group[k], StartOf(group, k, cursor, gap), y) in gns;
  }

  /** Two boxes are separated horizontally or vertically (they may touch). */
  predicate Apart(a: FlowNode, b: FlowNode) {
    a.x + Extent(a) <= b.x || b.x + Extent(b) <= a.x || a.y + Extent(a) <= b.y || b.y + Extent(b) <= a.y
  }

  /** No two boxes overlap. */
  ghost predicate AllApart(ns: seq<FlowNode>) {
    forall i, j :: 0 <= i < j < |ns| ==> Apart(ns[i], ns[j])
  }

  /** Two groups of boxes side by side never overlap each other. */
  lemma SideBySide(a: seq<FlowNode>, b: seq<FlowNode>, la: real, ra: real, lb: real, rb: real)
    requires Within(a, la, ra) && Within(b, lb, rb) && ra <= lb
    requires AllApart(a) && AllApart(b)
    ensures AllApart(a + b)
  {
    var ab := a + b;
    forall i, j | 0 <= i < j < |ab| ensures Apart(ab[i], ab[j]) {
      if j < |a| {
        assert Apart(a[i], a[j]);
      } else if i >= |a| {
        assert Apart(b[i - |a|], b[j - |a|]);
      } else {
        assert ab[i] == a[i] && ab[j] == b[j - |a|];
      }
    }
  }

  /** A row of boxes above another never overlaps it. */
  lemma Stacked(a: seq<FlowNode>, b: seq<FlowNode>, bottom: real, top: real)
    requires Above(a, bottom) && Below(b, top) && bottom <= top
    requires AllApart(a) && AllApart(b)
    ensures AllApart(a + b)
  {
    var ab := a + b;
    forall i, j | 0 <= i < j < |ab| ensures Apart(ab[i], ab[j]) {
      if j < |a| {
        assert Apart(a[i], a[j]);
      } else if i >= |a| {
        assert Apart(b[i - |a|], b[j - |a|]);
      } else {
        assert ab[i] == a[i] && ab[j] == b[j - |a|];
      }
    }
  }

  lemma WithinAppend(a: seq<FlowNode>, b: seq<FlowNode>, left: real, right: real)
    requires Within(a, left, right) && Within(b, left, right)
    ensures Within(a + b, left, right)
  {
    assert forall i :: 0 <= i < |b| ==> (a + b)[|a| + i] == b[i];
  }

  lemma WithinWiden(a: seq<FlowNode>, left: real, right: real, left': real, right': real)
    requires Within(a, left, right) && left' <= left && right <= right'
    ensures Within(a, left', right')
  {
  }

  lemma BelowAppend(a: seq<FlowNode>, b: seq<FlowNode>, top: real)
    requires Below(a, top) && Below(b, top)
    ensures Below(a + b, top)
  {
    assert forall i :: 0 <= i < |b| ==> (a + b)[|a| + i] == b[i];
  }

  // ---------------------------------------------------------------- edge predicates

  /** Every edge starts and ends at one of `ids`. */
  ghost predicate EdgesClosed(es: seq<FlowEdge>, ids: set<NodeId>) {
    forall i :: 0 <= i < |es| ==> es[i].source in ids && es[i].target in ids
  }

  lemma EdgesClosedAppend(a: seq<FlowEdge>, b: seq<FlowEdge>, ids: set<NodeId>, ids': set<NodeId>)
    requires EdgesClosed(a, ids) && EdgesClosed(b, ids') && ids <= ids'
    ensures EdgesClosed(a + b, ids')
  {
    assert forall i :: 0 <= i < |b| ==> (a + b)[|a| + i] == b[i];
  }

  /** The persons an edge from `src` hangs below it: its target, and for a twin edge every twin. */
  function Hangs(e: FlowEdge, src: NodeId): set<int> {
    if e.source != src then {}
    else
      (if e.target.PersonNode? then {e.target.key} else {}) +
      (if e.kind.TwinLine? then set k | k in e.kind.twinIds else {})
  }

  /** The keys of everyone hung below `src` by the edges. */
  function HungFrom(es: seq<FlowEdge>, src: NodeId): set<int> {
    if es == [] then {} else HungFrom(es[..|es| - 1], src) + Hangs(es[|es| - 1], src)
  }

  lemma {:induction false} HungFromAppend(a: seq<FlowEdge>, b: seq<FlowEdge>, src: NodeId)
    ensures HungFrom(a + b, src) == HungFrom(a, src) + HungFrom(b, src)
    decreases |b|
  {
    if b == [] {
      assert a + b == a;
    } else {
      var n := |b| - 1;
      assert (a + b)[..|a + b| - 1] == a + b[..n];
      HungFromAppend(a, b[..n], src);
    }
  }

  /** Outside the unit's own keys, the marriage-node map keeps its entries. */
  ghost predicate MapFrame(m: MarriageMap, m': MarriageMap, ks: seq<int>) {
    forall cp :: cp in m && cp.first !in ks ==> cp in m' && m'[cp] == m[cp]
  }

  // ---------------------------------------------------------------- edges

  /**
   * `createMarriageCheck`: the marriage edge from the first partner to the
   * second, divorced when either partner is; the anchor node halfway
   * between the first partner's right handle (x1 + 60) and the second's left
   * handle (x2 + 20), 20 below the row; and the anchor recorded for the
   * couple in both orders.
   */
  method CreateMarriageCheck(p1: Person, p2: Person, x1: real, x2: real, y: real, mmap: MarriageMap)
    returns (anchor: FlowNode, edge: FlowEdge, mmap': MarriageMap)
    ensures edge == FlowEdge(MarriageEdgeId(p1.key, p2.key), PersonNode(p1.key), PersonNode(p2.key), MarriageLineKind(p1, p2))
    ensures anchor.id == MarriageNode(p1.key, p2.key) && anchor.kind == MarriageShape
    ensures anchor.x - (x1 + 60.0) == (x2 + 20.0) - anchor.x && anchor.y == y + 20.0
    ensures mmap' == mmap[Couple(p1.key, p2.key) := anchor.id][Couple(p2.key, p1.key) := anchor.id]
  {
    var kind := MarriageLineKind(p1, p2);
    edge := FlowEdge(MarriageEdgeId(p1.key, p2.key), PersonNode(p1.key), PersonNode(p2.key), kind);
    var midX := (x1 + 60.0 + x2 + 20.0) / 2.0;
    var midY := y + 20.0;
    var id := MarriageNode(p1.key, p2.key);
    mmap' := mmap[Couple(p1.key, p2.key) := id];
    mmap' := mmap'[Couple(p2.key, p1.key) := id];
    anchor := FlowNode(id, MarriageShape, midX, midY);
  }

  /**
   * `createChildEdge`: an edge from the unit's source to the child's node,
   * carrying the child's adoption and foster flags; it hangs the child below
   * that source.
   */
  function CreateChildEdge(t: Tree, child: Tree, mmap: MarriageMap): (e: FlowEdge)
    ensures e.source == ParentSource(t, mmap) && e.target == PersonNode(child.person.key)
    ensures e.kind == ChildLine(child.person.isAdopted, child.person.isFoster)
    ensures child.person.key in Hangs(e, ParentSource(t, mmap))
    ensures ParentSource(t, mmap) == UnitId(t) ==> e == ChildEdge(t, child)
  {
    var src := ParentSource(t, mmap);
    FlowEdge(ChildEdgeId(src, child.person.key), src, PersonNode(child.person.key),
             ChildLine(child.person.isAdopted, child.person.isFoster))
  }

  /**
   * `createTwinEdges`: nothing for no twins; otherwise one twin edge from the
   * unit's source to the first twin listing every twin, and for identical
   * twins a straight link between each pair of neighbours. Every twin hangs
   * below the source, and every edge joins the source and the twins.
   */
  method CreateTwinEdges(t: Tree, twins: seq<Tree>, mmap: MarriageMap) returns (es: seq<FlowEdge>)
    ensures twins == [] ==> es == []
    ensures twins != [] ==>
      |es| == (if twins[0].person.isIdenticalTwin && |twins| > 1 then |twins| else 1) &&
      es[0] == FlowEdge(TwinGroupId(twins[0].person.key), ParentSource(t, mmap), PersonNode(twins[0].person.key),
                        TwinLine(PrimaryKeys(twins), twins[0].person.isIdenticalTwin))
    ensures forall i :: 1 <= i < |es| ==>
      es[i] == FlowEdge(IdenticalLinkId(twins[i - 1].person.key, twins[i].person.key),
                        PersonNode(twins[i - 1].person.key), PersonNode(twins[i].person.key), StraightLine)
    ensures forall c :: c in twins ==> c.person.key in HungFrom(es, ParentSource(t, mmap))
    ensures forall i :: 0 <= i < |es| ==>
      es[i].source in {ParentSource(t, mmap)} + TwinNodes(twins) && es[i].target in TwinNodes(twins)
    ensures es == TwinEdges(ParentSource(t, mmap), twins)
  {
    if |twins| == 0 {
      return [];
    }
    var src := ParentSource(t, mmap);
    var twinIds := PrimaryKeys(twins);
    var isIdentical := twins[0].person.isIdenticalTwin;
    var groupEdge := FlowEdge(TwinGroupId(twins[0].person.key), src, PersonNode(twinIds[0]), TwinLine(twinIds, isIdentical));
    GroupEdgeHangsTwins(twins, src, groupEdge);
    if isIdentical && |twins| > 1 {
      var links := IdenticalLinks(twins);
      LinksAfterGroupEdge(twins, src, groupEdge, links);
      es := [groupEdge] + links;
    } else {
      es := [groupEdge];
    }
    TwinEdgesAre(src, twins, es);
  }

  /** Edges laid out as `createTwinEdges` pushes them are the group's twin edges. */
  lemma {:induction false} TwinEdgesAre(src: NodeId, twins: seq<Tree>, es: seq<FlowEdge>)
    requires twins != []
    requires |es| == (if twins[0].person.isIdenticalTwin && |twins| > 1 then |twins| else 1)
    requires es[0] == FlowEdge(TwinGroupId(twins[0].person.key), src, PersonNode(twins[0].person.key),
                               TwinLine(PrimaryKeys(twins), twins[0].person.isIdenticalTwin))
    requires forall i :: 1 <= i < |es| ==>
      es[i] == FlowEdge(IdenticalLinkId(twins[i - 1].person.key, twins[i].person.key),
                        PersonNode(twins[i - 1].person.key), PersonNode(twins[i].person.key), StraightLine)
    ensures es == TwinEdges(src, twins)
  {
    var r := TwinEdges(src, twins);
    assert |r| == |es|;
    forall i | 0 <= i < |es| ensures es[i] == r[i] {
      if i > 0 {
        assert r[i] == IdenticalLink(twins[i - 1], twins[i]);
      }
    }
  }

  /** The twin-group edge alone hangs every twin below the source and joins the source to the first twin. */
  lemma GroupEdgeHangsTwins(twins: seq<Tree>, src: NodeId, groupEdge: FlowEdge)
    requires twins != [] && groupEdge.source == src && groupEdge.target == PersonNode(twins[0].person.key)
    requires groupEdge.kind.TwinLine? && groupEdge.kind.twinIds == PrimaryKeys(twins)
    ensures forall c :: c in twins ==> c.person.key in HungFrom([groupEdge], src)
    ensures forall i :: 0 <= i < |[groupEdge]| ==>
      [groupEdge][i].source in {src} + TwinNodes(twins) && [groupEdge][i].target in TwinNodes(twins)
  {
    assert HungFrom([groupEdge], src) == Hangs(groupEdge, src) by { assert [groupEdge][..0] == []; }
    forall c | c in twins ensures c.person.key in Hangs(groupEdge, src) {
      var j :| 0 <= j < |twins| && twins[j] == c;
      assert PrimaryKeys(twins)[j] == c.person.key;
    }
    TwinNodeOf(twins, 0);
  }

  /**
   * The identical links after the twin-group edge: one edge per twin, the
   * links in order from the second edge on, every twin still hung and every
   * edge among the source and the twins.
   */
  lemma LinksAfterGroupEdge(twins: seq<Tree>, src: NodeId, groupEdge: FlowEdge, links: seq<FlowEdge>)
    requires |twins| > 1 && |links| == |twins| - 1
    requires forall c :: c in twins ==> c.person.key in HungFrom([groupEdge], src)
    requires forall i :: 0 <= i < |[groupEdge]| ==>
      [groupEdge][i].source in {src} + TwinNodes(twins) && [groupEdge][i].target in TwinNodes(twins)
    requires forall i :: 0 <= i < |links| ==>
      links[i] == FlowEdge(IdenticalLinkId(twins[i].person.key, twins[i + 1].person.key),
                           PersonNode(twins[i].person.key), PersonNode(twins[i + 1].person.key), StraightLine)
    requires forall i :: 0 <= i < |links| ==> links[i].source in TwinNodes(twins) && links[i].target in TwinNodes(twins)
    ensures |[groupEdge] + links| == |twins| && ([groupEdge] + links)[0] == groupEdge
    ensures forall i :: 1 <= i < |[groupEdge] + links| ==>
      ([groupEdge] + links)[i] == FlowEdge(IdenticalLinkId(twins[i - 1].person.key, twins[i].person.key),
                                           PersonNode(twins[i - 1].person.key), PersonNode(twins[i].person.key), StraightLine)
    ensures forall c :: c in twins ==> c.person.key in HungFrom([groupEdge] + links, src)
    ensures forall i :: 0 <= i < |[groupEdge] + links| ==>
      ([groupEdge] + links)[i].source in {src} + TwinNodes(twins) && ([groupEdge] + links)[i].target in TwinNodes(twins)
  {
    assert [groupEdge][0] == groupEdge;
    LinkedEdgesIndexed(twins, src, groupEdge, links);
    HungFromAppend([groupEdge], links, src);
  }

  /** After the group edge, the `i`-th edge links twin `i - 1` to twin `i`, and every edge stays within the group. */
  lemma LinkedEdgesIndexed(twins: seq<Tree>, src: NodeId, groupEdge: FlowEdge, links: seq<FlowEdge>)
    requires |twins| > 1 && |links| == |twins| - 1
    requires groupEdge.source in {src} + TwinNodes(twins) && groupEdge.target in TwinNodes(twins)
    requires forall i :: 0 <= i < |links| ==>
      links[i] == FlowEdge(IdenticalLinkId(twins[i].person.key, twins[i + 1].person.key),
                           PersonNode(twins[i].person.key), PersonNode(twins[i + 1].person.key), StraightLine)
    requires forall i :: 0 <= i < |links| ==> links[i].source in TwinNodes(twins) && links[i].target in TwinNodes(twins)
    ensures |[groupEdge] + links| == |twins| && ([groupEdge] + links)[0] == groupEdge
    ensures forall i :: 1 <= i < |[groupEdge] + links| ==>
      ([groupEdge] + links)[i] == FlowEdge(IdenticalLinkId(twins[i - 1].person.key, twins[i].person.key),
                                           PersonNode(twins[i - 1].person.key), PersonNode(twins[i].person.key), StraightLine)
    ensures forall i :: 0 <= i < |[groupEdge] + links| ==>
      ([groupEdge] + links)[i].source in {src} + TwinNodes(twins) && ([groupEdge] + links)[i].target in TwinNodes(twins)
  {
    var es := [groupEdge] + links;
    forall i | 1 <= i < |es| ensures es[i] == links[i - 1] {
    }
  }

  /** The identical-twin links: a straight edge from each twin's node to the next twin's. */
  method IdenticalLinks(twins: seq<Tree>) returns (links: seq<FlowEdge>)
    requires |twins| > 1
    ensures |links| == |twins| - 1
    ensures forall i :: 0 <= i < |links| ==>
      links[i] == FlowEdge(IdenticalLinkId(twins[i].person.key, twins[i + 1].person.key),
                           PersonNode(twins[i].person.key), PersonNode(twins[i + 1].person.key), StraightLine)
    ensures forall i :: 0 <= i < |links| ==> links[i].source in TwinNodes(twins) && links[i].target in TwinNodes(twins)
  {
    links := [];
    for i := 0 to |twins| - 1
      invariant |links| == i
      invariant forall j :: 0 <= j < i ==>
        links[j] == FlowEdge(IdenticalLinkId(twins[j].person.key, twins[j + 1].person.key),
                             PersonNode(twins[j].person.key), PersonNode(twins[j + 1].person.key), StraightLine)
      invariant forall j :: 0 <= j < i ==> links[j].source in TwinNodes(twins) && links[j].target in TwinNodes(twins)
    {
      var current := twins[i].person;
      var next := twins[i + 1].person;
      TwinNodeOf(twins, i);
      TwinNodeOf(twins, i + 1);
      links := links + [FlowEdge(IdenticalLinkId(current.key, next.key), PersonNode(current.key), PersonNode(next.key), StraightLine)];
    }
  }

  /** The person nodes of a sequence of units' primaries. */
  function TwinNodes(ts: seq<Tree>): set<NodeId> {
    set i | 0 <= i < |ts| :: PersonNode(ts[i].person.key)
  }

  lemma TwinNodeOf(ts: seq<Tree>, i: int)
    requires 0 <= i < |ts|
    ensures PersonNode(ts[i].person.key) in TwinNodes(ts)
  {
  }

  // ---------------------------------------------------------------- the edges of a unit

  /** The marriage edge `createMarriageCheck` draws between a couple. */
  function MarriageEdge(t: Tree): FlowEdge
    requires t.spouse.Some?
  {
    FlowEdge(MarriageEdgeId(t.person.key, t.spouse.value.key), PersonNode(t.person.key),
             PersonNode(t.spouse.value.key), MarriageLineKind(t.person, t.spouse.value))
  }

  /** The edges the unit draws on its own row: the couple's marriage edge, if paired. */
  function CoupleEdges(t: Tree): seq<FlowEdge> {
    if t.spouse.Some? then [MarriageEdge(t)] else []
  }

  /** The child edge from the unit's anchor (its person when unpaired) to the child. */
  function ChildEdge(t: Tree, c: Tree): FlowEdge {
    FlowEdge(ChildEdgeId(UnitId(t), c.person.key), UnitId(t), PersonNode(c.person.key),
             ChildLine(c.person.isAdopted, c.person.isFoster))
  }

  /** The straight link from one identical twin to the next. */
  function IdenticalLink(a: Tree, b: Tree): FlowEdge {
    FlowEdge(IdenticalLinkId(a.person.key, b.person.key), PersonNode(a.person.key), PersonNode(b.person.key), StraightLine)
  }

  /** A twin group's edges: the twin-group edge from `src` to the first twin, then the identical links. */
  function TwinEdges(src: NodeId, twins: seq<Tree>): seq<FlowEdge> {
    if twins == [] then []
    else
      [FlowEdge(TwinGroupId(twins[0].person.key), src, PersonNode(twins[0].person.key),
                TwinLine(PrimaryKeys(twins), twins[0].person.isIdenticalTwin))] +
      (if twins[0].person.isIdenticalTwin then IdenticalLinksOf(twins) else [])
  }

  /** The links between each pair of neighbouring twins, left to right. */
  function IdenticalLinksOf(twins: seq<Tree>): (r: seq<FlowEdge>)
    ensures |r| == if twins == [] then 0 else |twins| - 1
    ensures forall i :: 0 <= i < |r| ==> r[i] == IdenticalLink(twins[i], twins[i + 1])
  {
    if |twins| < 2 then []
    else IdenticalLinksOf(twins[..|twins| - 1]) + [IdenticalLink(twins[|twins| - 2], twins[|twins| - 1])]
  }

  /**
   * The edges that link child `c` below unit `t`, whatever group it lands
   * in: a child edge for an untwinned child or the only child of its twin
   * number; the whole group's twin edges for the first of two or more twins;
   * nothing for the other twins, whose edges the first one brings.
   */
  function ChildLinks(t: Tree, c: Tree): seq<FlowEdge> {
    if !Truthy(c.person.twinGroup) then [ChildEdge(t, c)]
    else
      var twins := TwinsOf(t.children, c.person.twinGroup.value);
      if |twins| <= 1 then [ChildEdge(t, c)]
      else if c.person.key == twins[0].person.key then TwinEdges(UnitId(t), twins)
      else []
  }

  /**
   * Every edge the layout of unit `t` draws, in one fixed order: the
   * couple's marriage edge, then, child by child in input order, the edges
   * of the child's own unit and the edges that link it below `t`.
   */
  function UnitEdges(t: Tree): seq<FlowEdge>
    decreases t
  {
    CoupleEdges(t) + ChildrenEdges(t, t.children)
  }

  /** The edges of the children `cs` of unit `t`: each child's unit's edges and its links. */
  function ChildrenEdges(t: Tree, cs: seq<Tree>): seq<FlowEdge>
    decreases cs
  {
    if cs == [] then [] else ChildrenEdges(t, cs[..|cs| - 1]) + (UnitEdges(cs[|cs| - 1]) + ChildLinks(t, cs[|cs| - 1]))
  }

  /** The edges of the forest's units, tree after tree. */
  function ForestEdges(ts: seq<Tree>): seq<FlowEdge> {
    ConcatMap(UnitEdges, ts)
  }

  /** The edges of the members `cs` of one group: each member's unit's edges, then its child edge when `linkEach`. */
  function MembersEdges(t: Tree, cs: seq<Tree>, linkEach: bool): seq<FlowEdge>
    decreases cs
  {
    if cs == [] then []
    else MembersEdges(t, cs[..|cs| - 1], linkEach) + (UnitEdges(cs[|cs| - 1]) + (if linkEach then [ChildEdge(t, cs[|cs| - 1])] else []))
  }

  /** `u` is `t` or a unit somewhere below it. */
  ghost predicate UnitOf(u: Tree, t: Tree)
    decreases t
  {
    u == t || exists c :: c in t.children && UnitOf(u, c)
  }

  /** No two units share a primary person's key. */
  ghost predicate PrimariesDistinct(cs: seq<Tree>) {
    forall i, j :: 0 <= i < j < |cs| ==> cs[i].person.key != cs[j].person.key
  }

  /** The edges of two runs of children one after the other. */
  lemma ChildrenEdgesAppend(t: Tree, a: seq<Tree>, b: seq<Tree>)
    ensures ChildrenEdges(t, a + b) == ChildrenEdges(t, a) + ChildrenEdges(t, b)
  {
    ChildrenEdgesIsConcatMap(t, a + b);
    ChildrenEdgesIsConcatMap(t, a);
    ChildrenEdgesIsConcatMap(t, b);
    ConcatMapAppend(c => UnitEdges(c) + ChildLinks(t, c), a, b);
  }

  /** The children's edges are the concatenated shares of the children. */
  lemma {:induction false} ChildrenEdgesIsConcatMap(t: Tree, cs: seq<Tree>)
    ensures ChildrenEdges(t, cs) == ConcatMap(c => UnitEdges(c) + ChildLinks(t, c), cs)
  {
    if cs != [] {
      ChildrenEdgesIsConcatMap(t, cs[..|cs| - 1]);
    }
  }

  /** Laying the children out in another order draws the same edges. */
  lemma ChildrenEdgesPermutation(t: Tree, a: seq<Tree>, b: seq<Tree>)
    requires multiset(a) == multiset(b)
    ensures multiset(ChildrenEdges(t, a)) == multiset(ChildrenEdges(t, b))
  {
    ChildrenEdgesIsConcatMap(t, a);
    ChildrenEdgesIsConcatMap(t, b);
    ConcatMapPermutation(c => UnitEdges(c) + ChildLinks(t, c), a, b);
  }

  /** Units whose keys are distinct have distinct primary keys. */
  lemma {:induction false} PrimariesOfDistinct(cs: seq<Tree>)
    requires DistinctKeys(ForestKeys(cs))
    ensures PrimariesDistinct(cs)
  {
    if cs != [] {
      var n := |cs| - 1;
      assert ForestKeys(cs) == ForestKeys(cs[..n]) + Keys(cs[n]);
      assert multiset(ForestKeys(cs)) == multiset(ForestKeys(cs[..n])) + multiset(Keys(cs[n]));
      DistinctSub(ForestKeys(cs[..n]), ForestKeys(cs));
      PrimariesOfDistinct(cs[..n]);
      forall i | 0 <= i < n ensures cs[i].person.key != cs[n].person.key {
        assert Keys(cs[n])[0] == cs[n].person.key;
        assert cs[..n][i] == cs[i];
        KeysOfMember(cs[..n], cs[i]);
        assert Keys(cs[i])[0] == cs[i].person.key;
        assert multiset(ForestKeys(cs[..n]))[cs[i].person.key] >= 1;
        assert multiset(Keys(cs[n]))[cs[n].person.key] >= 1;
      }
      forall i, j | 0 <= i < j < |cs| ensures cs[i].person.key != cs[j].person.key {
        if j < n {
          assert cs[..n][i] == cs[i] && cs[..n][j] == cs[j];
        }
      }
    }
  }

  /** A twin group of units with distinct primary keys has distinct primary keys. */
  lemma {:induction false} TwinsDistinct(cs: seq<Tree>, g: int)
    requires PrimariesDistinct(cs)
    ensures PrimariesDistinct(TwinsOf(cs, g))
  {
    if cs != [] {
      var n := |cs| - 1;
      assert PrimariesDistinct(cs[..n]);
      TwinsDistinct(cs[..n], g);
      var front := TwinsOf(cs[..n], g);
      TwinsOfMembers(cs[..n], g);
      forall i | 0 <= i < |front| ensures front[i].person.key != cs[n].person.key {
        assert front[i] in cs[..n];
      }
    }
  }

  /** A group that takes the single-child branch gets one child edge per member. */
  lemma SingleGroupEdges(t: Tree, group: seq<Tree>)
    requires WellGrouped(t.children, group)
    requires |group| == 1 || !Truthy(group[0].person.twinGroup)
    ensures MembersEdges(t, group, true) == ChildrenEdges(t, group)
  {
    assert |group| == 1;
    var c := group[0];
    assert group[..0] == [];
    if Truthy(c.person.twinGroup) {
      assert TwinsOf(t.children, c.person.twinGroup.value) == group;
    }
    assert ChildLinks(t, c) == [ChildEdge(t, c)];
  }

  /**
   * A group that takes the twin branch: the members' own edges and the
   * group's twin edges are the members' edges and links.
   */
  lemma TwinGroupEdges(t: Tree, group: seq<Tree>)
    requires DistinctKeys(Keys(t))
    requires WellGrouped(t.children, group)
    requires !(|group| == 1 || !Truthy(group[0].person.twinGroup))
    ensures multiset(MembersEdges(t, group, false) + TwinEdges(UnitId(t), group)) == multiset(ChildrenEdges(t, group))
  {
    assert multiset(ForestKeys(t.children)) <= multiset(Keys(t));
    DistinctSub(ForestKeys(t.children), Keys(t));
    PrimariesOfDistinct(t.children);
    TwinsDistinct(t.children, group[0].person.twinGroup.value);
    TwinPrefix(t, group, |group|);
    assert group[..|group|] == group;
  }

  lemma {:induction false} TwinPrefix(t: Tree, group: seq<Tree>, k: int)
    requires 1 <= k <= |group|
    requires Truthy(group[0].person.twinGroup) && group == TwinsOf(t.children, group[0].person.twinGroup.value) && |group| > 1
    requires PrimariesDistinct(group)
    ensures multiset(ChildrenEdges(t, group[..k])) ==
      multiset(MembersEdges(t, group[..k], false)) + multiset(TwinEdges(UnitId(t), group))
    decreases k
  {
    var c := group[k - 1];
    var before, members := ChildrenEdges(t, group[..k - 1]), MembersEdges(t, group[..k - 1], false);
    var own, twins := UnitEdges(c), TwinEdges(UnitId(t), group);
    var links := if k == 1 then twins else [];
    TwinLinks(t, group, k - 1);
    ChildrenEdgesStep(t, group, k - 1);
    MembersEdgesStep(t, group, k - 1, false);
    assert ChildrenEdges(t, group[..k]) == before + (own + links);
    assert MembersEdges(t, group[..k], false) == members + (own + []);
    if k == 1 {
      assert before == [] && members == [] by { assert group[..0] == []; }
    } else {
      TwinPrefix(t, group, k - 1);
    }
    BagStep(before, members, own, links, twins);
  }

  /** One more child's share of edges on both sides of an equation between bags. */
  lemma BagStep(before: seq<FlowEdge>, members: seq<FlowEdge>, own: seq<FlowEdge>, links: seq<FlowEdge>, twins: seq<FlowEdge>)
    requires multiset(before) + multiset(links) == multiset(members) + multiset(twins)
    ensures multiset(before + (own + links)) == multiset(members + (own + [])) + multiset(twins)
  {
    assert own + [] == own;
    calc {
      multiset(before + (own + links));
      multiset(before) + multiset(links) + multiset(own);
      multiset(members) + multiset(twins) + multiset(own);
      multiset(members + own) + multiset(twins);
    }
  }

  /** The first twin of a group brings the group's twin edges, the others nothing. */
  lemma TwinLinks(t: Tree, group: seq<Tree>, j: int)
    requires 0 <= j < |group|
    requires Truthy(group[0].person.twinGroup) && group == TwinsOf(t.children, group[0].person.twinGroup.value) && |group| > 1
    requires PrimariesDistinct(group)
    ensures ChildLinks(t, group[j]) == if j == 0 then TwinEdges(UnitId(t), group) else []
  {
    TwinsOfMembers(t.children, group[0].person.twinGroup.value);
    assert group[j] in group;
  }

  lemma ChildrenEdgesStep(t: Tree, cs: seq<Tree>, i: int)
    requires 0 <= i < |cs|
    ensures ChildrenEdges(t, cs[..i + 1]) == ChildrenEdges(t, cs[..i]) + (UnitEdges(cs[i]) + ChildLinks(t, cs[i]))
  {
    assert cs[..i + 1][..i] == cs[..i];
  }

  lemma MembersEdgesStep(t: Tree, group: seq<Tree>, i: int, linkEach: bool)
    requires 0 <= i < |group|
    ensures MembersEdges(t, group[..i + 1], linkEach) ==
      MembersEdges(t, group[..i], linkEach) + (UnitEdges(group[i]) + (if linkEach then [ChildEdge(t, group[i])] else []))
  {
    assert group[..i + 1][..i] == group[..i];
  }

  /** A child's unit's edges are among the edges of any children that hold it. */
  lemma {:induction false} ChildUnitEdges(t: Tree, cs: seq<Tree>, c: Tree, e: FlowEdge)
    requires c in cs && e in UnitEdges(c)
    ensures e in ChildrenEdges(t, cs)
  {
    var n := |cs| - 1;
    if cs[n] != c {
      assert c in cs[..n] by { var i :| 0 <= i < |cs| && cs[i] == c; assert cs[..n][i] == c; }
      ChildUnitEdges(t, cs[..n], c, e);
    }
  }

  /** Every couple anywhere in unit `t` has its marriage edge among the unit's edges. */
  lemma {:induction false} MarriageEdgeDrawn(u: Tree, t: Tree)
    requires UnitOf(u, t) && u.spouse.Some?
    ensures MarriageEdge(u) in UnitEdges(t)
    decreases t
  {
    if u != t {
      var c :| c in t.children && UnitOf(u, c);
      MarriageEdgeDrawn(u, c);
      ChildUnitEdges(t, t.children, c, MarriageEdge(u));
    }
  }

  /** `u` is a unit of one of the forest's trees. */
  ghost predicate InForest(u: Tree, ts: seq<Tree>) {
    exists t :: t in ts && UnitOf(u, t)
  }

  /** Every couple anywhere in the forest has its marriage edge among the forest's edges. */
  lemma {:induction false} ForestMarriageEdges(u: Tree, ts: seq<Tree>)
    requires InForest(u, ts) && u.spouse.Some?
    ensures MarriageEdge(u) in ForestEdges(ts)
  {
    var t :| t in ts && UnitOf(u, t);
    var k :| 0 <= k < |ts| && ts[k] == t;
    MarriageEdgeDrawn(u, t);
    var e := MarriageEdge(u);
    ConcatMapSplit(UnitEdges, ts, k);
    assert multiset(UnitEdges(ts[k]))[e] > 0;
    assert multiset(ForestEdges(ts))[e] > 0;
  }

  // ---------------------------------------------------------------- facts about units

  /** Fewer occurrences of distinct keys are still distinct. */
  lemma DistinctSub(a: seq<int>, b: seq<int>)
    requires multiset(a) <= multiset(b) && DistinctKeys(b)
    ensures DistinctKeys(a)
  {
    forall k ensures multiset(a)[k] <= 1 {
      assert multiset(a)[k] <= multiset(b)[k];
    }
  }

  /** A child unit of a sized unit with distinct keys is sized, has distinct keys, and its keys are the unit's. */
  lemma ChildFacts(t: Tree, c: Tree)
    requires Sized(t) && DistinctKeys(Keys(t)) && c in t.children
    ensures Sized(c) && DistinctKeys(Keys(c)) && c.width >= NodeWidth
    ensures forall k :: k in Keys(c) ==> k in ForestKeys(t.children)
  {
    KeysOfMember(t.children, c);
    assert multiset(ForestKeys(t.children)) <= multiset(Keys(t));
    DistinctSub(Keys(c), Keys(t));
    forall k | k in Keys(c) ensures k in ForestKeys(t.children) {
      assert k in multiset(Keys(c));
    }
  }

  /** The unit's own people are not among its descendants, and the spouse is not the person. */
  lemma ParentKeysFresh(t: Tree)
    requires DistinctKeys(Keys(t))
    ensures t.person.key !in ForestKeys(t.children)
    ensures t.spouse.Some? ==> t.spouse.value.key !in ForestKeys(t.children) && t.spouse.value.key != t.person.key
  {
    var row := [t.person.key] + (if t.spouse.Some? then [t.spouse.value.key] else []);
    assert Keys(t) == row + ForestKeys(t.children);
    assert multiset(Keys(t)) == multiset(row) + multiset(ForestKeys(t.children));
    assert multiset(Keys(t))[t.person.key] <= 1;
    if t.spouse.Some? {
      assert multiset(Keys(t))[t.spouse.value.key] <= 1;
    }
  }

  lemma MapFrameTrans(m0: MarriageMap, m1: MarriageMap, m2: MarriageMap, inner: seq<int>, ks: seq<int>)
    requires MapFrame(m0, m1, ks) && MapFrame(m1, m2, inner)
    requires forall k :: k in inner ==> k in ks
    ensures MapFrame(m0, m2, ks)
  {
  }

  /** The unit's edge source survives changes to the map outside its own keys. */
  lemma ParentSourceKept(t: Tree, m1: MarriageMap, m2: MarriageMap, ks: seq<int>)
    requires MapFrame(m1, m2, ks) && t.person.key !in ks
    requires ParentSource(t, m1) == UnitId(t)
    ensures ParentSource(t, m2) == UnitId(t)
  {
    if t.spouse.Some? {
      assert Couple(t.person.key, t.spouse.value.key) in m1;
    }
  }

  /** The children block of one more child. */
  lemma SpanStep(gs: seq<Tree>, i: int)
    requires 0 <= i < |gs|
    ensures SumWidths(gs[..i + 1]) == SumWidths(gs[..i]) + gs[i].width
    ensures ChildrenSpan(gs[..i + 1]) == SumWidths(gs[..i]) + HorizontalSpacing * i as real + gs[i].width
  {
    assert gs[..i + 1][..i] == gs[..i];
  }

  /** The children block of two blocks side by side. */
  lemma SpanConcat(a: seq<Tree>, b: seq<Tree>)
    requires b != []
    ensures SumWidths(a + b) == SumWidths(a) + SumWidths(b)
    ensures a != [] ==> ChildrenSpan(a + b) == ChildrenSpan(a) + HorizontalSpacing + ChildrenSpan(b)
    ensures a == [] ==> ChildrenSpan(a + b) == ChildrenSpan(b)
  {
    SumOfAppend(WidthOf, a, b);
    if a == [] { assert a + b == b; }
  }

  /** Units with nonnegative widths have a block no wider than its widths and gaps. */
  lemma SpanBound(a: seq<Tree>)
    ensures a == [] ==> ChildrenSpan(a) == 0.0 && SumWidths(a) == 0.0
    ensures a != [] ==> ChildrenSpan(a) + HorizontalSpacing == SumWidths(a) + HorizontalSpacing * |a| as real
  {
  }

  // ---------------------------------------------------------------- placement

  /**
   * `layoutNode`: the person at the left of the parent block, which is
   * centred on the unit's axis x + width/2; the spouse 130 to the right on
   * the same row with the marriage anchor at the axis; the children block
   * centred on the same axis one generation (150) lower. All boxes lie
   * within [x, x + width] at or below y, no two overlap, every person of the
   * unit is drawn exactly once, every edge joins two drawn nodes, every child
   * hangs below the unit, and the marriage-node map changes only for the
   * unit's own keys. A couple's marriage edge comes first, and the edges are,
   * up to order, the unit's `UnitEdges`.
   */
  method LayoutNode(t: Tree, x: real, y: real, mmap: MarriageMap)
    returns (ns: seq<FlowNode>, es: seq<FlowEdge>, mmap': MarriageMap)
    requires Sized(t) && DistinctKeys(Keys(t))
    ensures |ns| >= RowCount(t)
    ensures ns[0] == PersonBox(t, x, y)
    ensures t.spouse.Some? ==>
      ns[1] == FlowNode(PersonNode(t.spouse.value.key), NodeKindOf(t.spouse.value), ns[0].x + NodeWidth + SpouseSpacing, y) &&
      ns[2] == FlowNode(UnitId(t), MarriageShape, x + t.width / 2.0, y + 20.0)
    ensures Within(ns[RowCount(t)..], x + t.width / 2.0 - ChildrenSpan(t.children) / 2.0, x + t.width / 2.0 + ChildrenSpan(t.children) / 2.0)
    ensures Below(ns[RowCount(t)..], y + VerticalSpacing)
    ensures Within(ns, x, x + t.width) && Below(ns, y)
    ensures AllApart(ns)
    ensures multiset(PersonKeys(ns)) == multiset(Keys(t))
    ensures EdgesClosed(es, Ids(ns))
    ensures forall c :: c in t.children ==> c.person.key in HungFrom(es, UnitId(t))
    ensures t.spouse.Some? ==> |es| >= 1 && es[0] == MarriageEdge(t)
    ensures multiset(es) == multiset(UnitEdges(t))
    ensures MapFrame(mmap, mmap', Keys(t))
    decreases t, 5
  {
    var row, res, m1 := LayoutParents(t, x, y, mmap);
    ns, es, mmap' := row, res, m1;
    if |t.children| > 0 {
      ns, es, mmap' := JoinChildren(t, x, y, row, res, mmap, m1);
    } else {
      Childless(t, row);
    }
  }

  /** A unit without children is its parent row. */
  lemma Childless(t: Tree, row: seq<FlowNode>)
    requires t.children == [] && |row| == RowCount(t)
    requires PersonKeys(row) + ForestKeys(t.children) == Keys(t)
    ensures row[RowCount(t)..] == [] && ChildrenSpan(t.children) == 0.0
    ensures multiset(PersonKeys(row)) == multiset(Keys(t))
  {
    assert PersonKeys(row) + [] == PersonKeys(row);
  }

  /**
   * The parent row of `layoutNode`: the person at the left of the parent
   * block centred on the unit's axis, and for a couple the spouse 130 to the
   * right and the marriage anchor, with the couple's marriage edge.
   */
  method LayoutParents(t: Tree, x: real, y: real, mmap: MarriageMap)
    returns (row: seq<FlowNode>, es: seq<FlowEdge>, mmap': MarriageMap)
    requires Sized(t) && DistinctKeys(Keys(t))
    ensures |row| == RowCount(t) && row[0] == PersonBox(t, x, y)
    ensures t.spouse.Some? ==>
      row[1] == FlowNode(PersonNode(t.spouse.value.key), NodeKindOf(t.spouse.value), row[0].x + NodeWidth + SpouseSpacing, y) &&
      row[2] == FlowNode(UnitId(t), MarriageShape, x + t.width / 2.0, y + 20.0)
    ensures Within(row, x, x + t.width) && Below(row, y) && Above(row, y + NodeWidth) && AllApart(row)
    ensures PersonKeys(row) + ForestKeys(t.children) == Keys(t)
    ensures UnitId(t) in Ids(row) && EdgesClosed(es, Ids(row))
    ensures es == CoupleEdges(t) && (t.children == [] ==> es == UnitEdges(t))
    ensures ParentSource(t, mmap') == UnitId(t) && MapFrame(mmap, mmap', Keys(t))
  {
    var parentsWidth := if t.spouse.Some? then NodeWidth + SpouseSpacing + NodeWidth else NodeWidth;
    var parentsLeft := x + t.centerX - parentsWidth / 2.0;
    var mainPersonX := parentsLeft;
    row := [FlowNode(PersonNode(t.person.key), NodeKindOf(t.person), mainPersonX, y)];
    es := [];
    mmap' := mmap;
    if t.spouse.Some? {
      var spouse := t.spouse.value;
      var spouseX := mainPersonX + NodeWidth + SpouseSpacing;
      row := row + [FlowNode(PersonNode(spouse.key), NodeKindOf(spouse), spouseX, y)];
      var anchor, edge;
      anchor, edge, mmap' := CreateMarriageCheck(t.person, spouse, mainPersonX, spouseX, y, mmap');
      es := es + [edge];
      row := row + [anchor];
    }
    ParentRow(t, x, y, row, es, mmap, mmap');
  }

  /** The children branch of `layoutNode`: the children block laid out under the parent row and appended to it. */
  method JoinChildren(t: Tree, x: real, y: real, row: seq<FlowNode>, res: seq<FlowEdge>, m0: MarriageMap, m1: MarriageMap)
    returns (ns: seq<FlowNode>, es: seq<FlowEdge>, mmap': MarriageMap)
    requires Sized(t) && DistinctKeys(Keys(t)) && |row| == RowCount(t)
    requires Within(row, x, x + t.width) && Below(row, y) && Above(row, y + NodeWidth) && AllApart(row)
    requires PersonKeys(row) + ForestKeys(t.children) == Keys(t)
    requires UnitId(t) in Ids(row) && EdgesClosed(res, Ids(row))
    requires MapFrame(m0, m1, Keys(t)) && ParentSource(t, m1) == UnitId(t)
    ensures row <= ns && ns[0] == row[0]
    ensures t.spouse.Some? ==> ns[1] == row[1] && ns[2] == row[2]
    ensures Within(ns[RowCount(t)..], x + t.width / 2.0 - ChildrenSpan(t.children) / 2.0, x + t.width / 2.0 + ChildrenSpan(t.children) / 2.0)
    ensures Below(ns[RowCount(t)..], y + VerticalSpacing)
    ensures Within(ns, x, x + t.width) && Below(ns, y) && AllApart(ns)
    ensures multiset(PersonKeys(ns)) == multiset(Keys(t))
    ensures EdgesClosed(es, Ids(ns))
    ensures forall c :: c in t.children ==> c.person.key in HungFrom(es, UnitId(t))
    ensures res <= es
    ensures res == CoupleEdges(t) ==> multiset(es) == multiset(UnitEdges(t))
    ensures MapFrame(m0, mmap', Keys(t))
    decreases t, 4
  {
    var cns, ces, m2, groups := LayoutChildren(t, x, y, m1);
    JoinUnit(t, x, y, row, res, m0, m1, cns, ces, m2);
    ns, es, mmap' := row + cns, res + ces, m2;
    assert ns[..RowCount(t)] == row;
    assert es[..|res|] == res;
    assert multiset(es) == multiset(res) + multiset(ces);
  }

  /** The parent row: its boxes, keys, edges and the map entries it records. */
  lemma ParentRow(t: Tree, x: real, y: real, row: seq<FlowNode>, es: seq<FlowEdge>, m0: MarriageMap, m1: MarriageMap)
    requires Sized(t) && DistinctKeys(Keys(t))
    requires |row| == RowCount(t)
    requires row[0] == FlowNode(PersonNode(t.person.key), NodeKindOf(t.person), x + t.centerX - ParentsWidth(t) / 2.0, y)
    requires t.spouse.None? ==> es == [] && m1 == m0
    requires t.spouse.Some? ==>
      row[1] == FlowNode(PersonNode(t.spouse.value.key), NodeKindOf(t.spouse.value), row[0].x + NodeWidth + SpouseSpacing, y) &&
      row[2].id == UnitId(t) && row[2].kind == MarriageShape &&
      row[2].x - (row[0].x + 60.0) == (row[1].x + 20.0) - row[2].x && row[2].y == y + 20.0 &&
      es == [FlowEdge(MarriageEdgeId(t.person.key, t.spouse.value.key), PersonNode(t.person.key),
                      PersonNode(t.spouse.value.key), MarriageLineKind(t.person, t.spouse.value))] &&
      m1 == m0[Couple(t.person.key, t.spouse.value.key) := row[2].id][Couple(t.spouse.value.key, t.person.key) := row[2].id]
    ensures row[0].x == x + t.width / 2.0 - ParentsWidth(t) / 2.0
    ensures t.spouse.Some? ==> row[2].x == x + t.width / 2.0
    ensures Within(row, x, x + t.width) && Below(row, y) && Above(row, y + NodeWidth) && AllApart(row)
    ensures PersonKeys(row) + ForestKeys(t.children) == Keys(t)
    ensures UnitId(t) in Ids(row)
    ensures EdgesClosed(es, Ids(row))
    ensures es == CoupleEdges(t) && (t.children == [] ==> es == UnitEdges(t))
    ensures ParentSource(t, m1) == UnitId(t)
    ensures MapFrame(m0, m1, Keys(t))
  {
    assert ChildrenEdges(t, []) == [] && es + [] == es;
    RowGeometry(t, x, y, row);
    RowKeys(t, row);
    if t.spouse.Some? {
      RowMap(t, m0, m1);
    }
  }

  /** The parent row lies in the unit's box: centred on its axis, on its first row, without overlaps. */
  lemma RowGeometry(t: Tree, x: real, y: real, row: seq<FlowNode>)
    requires Sized(t) && |row| == RowCount(t)
    requires row[0].id.PersonNode? && row[0].x == x + t.centerX - ParentsWidth(t) / 2.0 && row[0].y == y
    requires t.spouse.Some? ==>
      row[1].id.PersonNode? && row[1].x == row[0].x + NodeWidth + SpouseSpacing && row[1].y == y &&
      row[2].id.MarriageNode? &&
      row[2].x - (row[0].x + 60.0) == (row[1].x + 20.0) - row[2].x && row[2].y == y + 20.0
    ensures row[0].x == x + t.width / 2.0 - ParentsWidth(t) / 2.0
    ensures t.spouse.Some? ==> row[2].x == x + t.width / 2.0
    ensures Within(row, x, x + t.width) && Below(row, y) && Above(row, y + NodeWidth) && AllApart(row)
  {
    assert t.width >= ParentsWidth(t);
    if t.spouse.Some? {
      assert Apart(row[0], row[1]) && Apart(row[0], row[2]) && Apart(row[1], row[2]);
    }
  }

  /** The parent row draws the unit's own people, and its anchor is the unit's edge source. */
  lemma RowKeys(t: Tree, row: seq<FlowNode>)
    requires |row| == RowCount(t) && row[0].id == PersonNode(t.person.key)
    requires t.spouse.Some? ==> row[1].id == PersonNode(t.spouse.value.key) && row[2].id == UnitId(t)
    ensures PersonKeys(row) + ForestKeys(t.children) == Keys(t)
    ensures UnitId(t) in Ids(row) && PersonNode(t.person.key) in Ids(row)
    ensures t.spouse.Some? ==> PersonNode(t.spouse.value.key) in Ids(row)
  {
    assert row[..1] == [row[0]];
    assert PersonKeys(row[..1]) == [t.person.key] by { assert row[..1][..0] == []; }
    assert row[0].id in Ids(row);
    if t.spouse.Some? {
      assert row[..2][..1] == row[..1];
      assert row[..3] == row;
      assert row[..3][..2] == row[..2];
      assert PersonKeys(row) == [t.person.key, t.spouse.value.key];
      assert row[1].id in Ids(row) && row[2].id in Ids(row);
    }
  }

  /** Recording the couple's anchor sets the unit's edge source and touches only the couple's entries. */
  lemma RowMap(t: Tree, m0: MarriageMap, m1: MarriageMap)
    requires t.spouse.Some?
    requires m1 == m0[Couple(t.person.key, t.spouse.value.key) := UnitId(t)][Couple(t.spouse.value.key, t.person.key) := UnitId(t)]
    ensures ParentSource(t, m1) == UnitId(t)
    ensures MapFrame(m0, m1, Keys(t))
  {
    assert t.person.key in Keys(t) && t.spouse.value.key in Keys(t);
  }

  /** Joining the parent row and the children block gives the unit's guarantees. */
  lemma JoinUnit(t: Tree, x: real, y: real, row: seq<FlowNode>, res: seq<FlowEdge>, m0: MarriageMap, m1: MarriageMap,
                 cns: seq<FlowNode>, ces: seq<FlowEdge>, m2: MarriageMap)
    requires Sized(t) && DistinctKeys(Keys(t)) && |row| == RowCount(t)
    requires Within(row, x, x + t.width) && Below(row, y) && Above(row, y + NodeWidth) && AllApart(row)
    requires PersonKeys(row) + ForestKeys(t.children) == Keys(t)
    requires UnitId(t) in Ids(row) && EdgesClosed(res, Ids(row))
    requires MapFrame(m0, m1, Keys(t))
    requires Within(cns, x + t.width / 2.0 - ChildrenSpan(t.children) / 2.0, x + t.width / 2.0 + ChildrenSpan(t.children) / 2.0)
    requires Below(cns, y + VerticalSpacing) && AllApart(cns)
    requires multiset(PersonKeys(cns)) == multiset(ForestKeys(t.children))
    requires EdgesClosed(ces, Ids(cns) + {UnitId(t)})
    requires MapFrame(m1, m2, ForestKeys(t.children))
    requires forall c :: c in t.children ==> c.person.key in HungFrom(ces, UnitId(t))
    ensures (row + cns)[RowCount(t)..] == cns
    ensures forall c :: c in t.children ==> c.person.key in HungFrom(res + ces, UnitId(t))
    ensures Within(row + cns, x, x + t.width) && Below(row + cns, y) && AllApart(row + cns)
    ensures multiset(PersonKeys(row + cns)) == multiset(Keys(t))
    ensures EdgesClosed(res + ces, Ids(row + cns))
    ensures MapFrame(m0, m2, Keys(t))
  {
    assert (row + cns)[RowCount(t)..] == cns;
    WithinWiden(cns, x + t.width / 2.0 - ChildrenSpan(t.children) / 2.0, x + t.width / 2.0 + ChildrenSpan(t.children) / 2.0, x, x + t.width);
    WithinAppend(row, cns, x, x + t.width);
    BelowAppend(row, cns, y);
    Stacked(row, cns, y + NodeWidth, y + VerticalSpacing);
    PersonKeysAppend(row, cns);
    assert multiset(PersonKeys(row + cns)) == multiset(PersonKeys(row)) + multiset(ForestKeys(t.children));
    IdsAppend(row, cns);
    EdgesClosedAppend(res, ces, Ids(row), Ids(row + cns));
    HungFromAppend(res, ces, UnitId(t));
    assert forall k :: k in ForestKeys(t.children) ==> k in Keys(t);
    MapFrameTrans(m0, m1, m2, ForestKeys(t.children), Keys(t));
  }

  /**
   * The children part of `layoutNode`: the children block starts half its
   * width left of the unit's axis, one generation down; the twin groups and
   * single children follow in `groupChildrenByTwin` order, each child's
   * subtree starting 30 right of the previous one's. Single children get a
   * child edge each, a twin group its twin edges.
   */
  method LayoutChildren(t: Tree, x: real, y: real, mmap: MarriageMap)
    returns (ns: seq<FlowNode>, es: seq<FlowEdge>, mmap': MarriageMap, groups: seq<seq<Tree>>)
    requires Sized(t) && DistinctKeys(Keys(t))
    requires ParentSource(t, mmap) == UnitId(t)
    ensures GroupedChildren(t.children, groups)
    ensures BoxesAt(Flatten(groups), x + t.width / 2.0 - ChildrenSpan(t.children) / 2.0, HorizontalSpacing, y + VerticalSpacing, ns)
    ensures Within(ns, x + t.width / 2.0 - ChildrenSpan(t.children) / 2.0, x + t.width / 2.0 + ChildrenSpan(t.children) / 2.0)
    ensures Below(ns, y + VerticalSpacing) && AllApart(ns)
    ensures multiset(PersonKeys(ns)) == multiset(ForestKeys(t.children))
    ensures EdgesClosed(es, Ids(ns) + {UnitId(t)})
    ensures forall c :: c in t.children ==> c.person.key in HungFrom(es, UnitId(t))
    ensures multiset(es) == multiset(ChildrenEdges(t, t.children))
    ensures MapFrame(mmap, mmap', ForestKeys(t.children))
    decreases t, 3
  {
    var total := ChildrenTotalWidth(t.children);
    var currentChildX := x + t.width / 2.0 - total / 2.0;
    ghost var start := currentChildX;
    var childY := y + VerticalSpacing;
    groups := GroupChildrenByTwin(t.children);
    ParentKeysFresh(t);
    ns, es, mmap' := [], [], mmap;
    ghost var placed: seq<Tree> := [];
    for g := 0 to |groups|
      invariant placed == Flatten(groups[..g])
      invariant RowPlaced(start, childY, placed, currentChildX, ns)
      invariant EdgesClosed(es, Ids(ns) + {UnitId(t)})
      invariant forall c :: c in placed ==> c.person.key in HungFrom(es, UnitId(t))
      invariant multiset(es) == multiset(ChildrenEdges(t, placed))
      invariant MapFrame(mmap, mmap', ForestKeys(t.children)) && ParentSource(t, mmap') == UnitId(t)
    {
      var group := groups[g];
      GroupOfChildren(t, groups, g);
      var gns, ges, m2, nextX := PlaceGroup(t, group, currentChildX, childY, mmap');
      RowStep(placed, group, start, currentChildX, childY, ns, gns);
      GroupEdges(t, placed, group, ns, es, gns, ges);
      FlattenStep(groups, g);
      MapFrameTrans(mmap, mmap', m2, ForestKeys(t.children), ForestKeys(t.children));
      ns, es, mmap', currentChildX := ns + gns, es + ges, m2, nextX;
      placed := placed + group;
    }
    RowBoxes(t, groups, placed, x, y, start, ns);
    ChildrenPlaced(t, groups, placed, start, ns, es);
  }

  /**
   * One group of the children loop: a single child, or twins whose twin
   * number is set, each member laid out from the cursor; a single child gets
   * its child edge, a twin group its twin edges after all its members.
   * Together these are the group's share of the unit's edges.
   */
  method PlaceGroup(t: Tree, group: seq<Tree>, cursor: real, childY: real, mmap: MarriageMap)
    returns (gns: seq<FlowNode>, ges: seq<FlowEdge>, mmap': MarriageMap, cursor': real)
    requires Sized(t) && DistinctKeys(Keys(t))
    requires WellGrouped(t.children, group) && forall c :: c in group ==> c in t.children
    requires ParentSource(t, mmap) == UnitId(t)
    ensures cursor' == cursor + SumWidths(group) + HorizontalSpacing * |group| as real
    ensures Within(gns, cursor, cursor + ChildrenSpan(group)) && Below(gns, childY) && AllApart(gns)
    ensures BoxesAt(group, cursor, HorizontalSpacing, childY, gns)
    ensures multiset(PersonKeys(gns)) == multiset(ForestKeys(group)) && SumWidths(group) >= 0.0
    ensures EdgesClosed(ges, Ids(gns) + {UnitId(t)})
    ensures forall c :: c in group ==> c.person.key in HungFrom(ges, UnitId(t))
    ensures multiset(ges) == multiset(ChildrenEdges(t, group))
    ensures MapFrame(mmap, mmap', ForestKeys(t.children)) && ParentSource(t, mmap') == UnitId(t)
    decreases t, 2
  {
    if |group| == 1 || !Truthy(group[0].person.twinGroup) {
      gns, ges, mmap', cursor' := PlaceMembers(t, group, cursor, childY, mmap, true);
      SingleGroupEdges(t, group);
    } else {
      var mes;
      gns, mes, mmap', cursor' := PlaceMembers(t, group, cursor, childY, mmap, false);
      var tes := CreateTwinEdges(t, group, mmap');
      TwinEdgesClosed(group, gns, mes, tes, UnitId(t));
      HungFromAppend(mes, tes, UnitId(t));
      TwinGroupEdges(t, group);
      ges := mes + tes;
    }
  }

  /** The finished row holds the person box of every child, group by group, from the centred start. */
  lemma RowBoxes(t: Tree, groups: seq<seq<Tree>>, placed: seq<Tree>, x: real, y: real, start: real, ns: seq<FlowNode>)
    requires placed == Flatten(groups[..|groups|])
    requires start == x + t.width / 2.0 - ChildrenSpan(t.children) / 2.0
    requires BoxesAt(placed, start, HorizontalSpacing, y + VerticalSpacing, ns)
    ensures BoxesAt(Flatten(groups), x + t.width / 2.0 - ChildrenSpan(t.children) / 2.0, HorizontalSpacing, y + VerticalSpacing, ns)
  {
    assert groups[..|groups|] == groups;
  }

  /**
   * The row of children laid out so far: the `placed` members side by side from `start`,
   * each person box at its member's offset, the cursor one gap past the last of them.
   */
  ghost predicate RowPlaced(start: real, childY: real, placed: seq<Tree>, cursor: real, ns: seq<FlowNode>) {
    RowSpan(start, childY, placed, cursor, ns) && BoxesAt(placed, start, HorizontalSpacing, childY, ns)
  }

  /** The row's boxes stay inside the members' span, apart, with the members' keys. */
  ghost predicate RowSpan(start: real, childY: real, placed: seq<Tree>, cursor: real, ns: seq<FlowNode>) {
    cursor == start + SumWidths(placed) + HorizontalSpacing * |placed| as real && SumWidths(placed) >= 0.0 &&
    Within(ns, start, start + ChildrenSpan(placed)) && Below(ns, childY) && AllApart(ns) &&
    multiset(PersonKeys(ns)) == multiset(ForestKeys(placed))
  }

  /** A twin group laid out at the cursor extends the row. */
  lemma RowStep(placed: seq<Tree>, group: seq<Tree>, start: real, cursor: real, childY: real,
                ns: seq<FlowNode>, gns: seq<FlowNode>)
    requires RowPlaced(start, childY, placed, cursor, ns)
    requires group != [] && SumWidths(group) >= 0.0
    requires Within(gns, cursor, cursor + ChildrenSpan(group)) && Below(gns, childY) && AllApart(gns)
    requires BoxesAt(group, cursor, HorizontalSpacing, childY, gns)
    requires multiset(PersonKeys(gns)) == multiset(ForestKeys(group))
    ensures RowPlaced(start, childY, placed + group, cursor + SumWidths(group) + HorizontalSpacing * |group| as real, ns + gns)
  {
    BoxesConcat(placed, group, start, cursor, HorizontalSpacing, childY, ns, gns);
    RowSpanStep(placed, group, start, cursor, childY, ns, gns);
  }

  lemma RowSpanStep(placed: seq<Tree>, group: seq<Tree>, start: real, cursor: real, childY: real,
                    ns: seq<FlowNode>, gns: seq<FlowNode>)
    requires RowSpan(start, childY, placed, cursor, ns)
    requires group != [] && SumWidths(group) >= 0.0
    requires Within(gns, cursor, cursor + ChildrenSpan(group)) && Below(gns, childY) && AllApart(gns)
    requires multiset(PersonKeys(gns)) == multiset(ForestKeys(group))
    ensures RowSpan(start, childY, placed + group, cursor + SumWidths(group) + HorizontalSpacing * |group| as real, ns + gns)
  {
    GroupGeometry(placed, group, start, cursor, childY, ns, gns);
    GroupKeys(placed, group, ns, gns);
  }

  /** Every member of a group is a child of the unit, and no group is empty. */
  lemma GroupOfChildren(t: Tree, groups: seq<seq<Tree>>, g: int)
    requires 0 <= g < |groups|
    requires multiset(Flatten(groups)) == multiset(t.children)
    requires forall grp :: grp in groups ==> WellGrouped(t.children, grp)
    ensures groups[g] != []
    ensures forall c :: c in groups[g] ==> c in t.children
    ensures WellGrouped(t.children, groups[g])
  {
    assert WellGrouped(t.children, groups[g]);
    forall c | c in groups[g] ensures c in t.children {
      assert groups == groups[..g] + [groups[g]] + groups[g + 1..];
      ConcatMapAppend(h => h, groups[..g] + [groups[g]], groups[g + 1..]);
      FlattenPush(groups[..g], groups[g]);
      assert c in Flatten(groups);
      assert c in multiset(t.children);
    }
  }

  /** The twin edges join the unit's source and the twins' nodes. */
  lemma TwinEdgesClosed(group: seq<Tree>, gns: seq<FlowNode>, ges: seq<FlowEdge>, tes: seq<FlowEdge>, src: NodeId)
    requires forall c :: c in group ==> PersonNode(c.person.key) in Ids(gns)
    requires EdgesClosed(ges, Ids(gns) + {src})
    requires forall i :: 0 <= i < |tes| ==> tes[i].source in {src} + TwinNodes(group) && tes[i].target in TwinNodes(group)
    ensures EdgesClosed(ges + tes, Ids(gns) + {src})
  {
    assert TwinNodes(group) <= Ids(gns) by {
      forall id | id in TwinNodes(group) ensures id in Ids(gns) {
        var i :| 0 <= i < |group| && id == PersonNode(group[i].person.key);
        assert group[i] in group;
      }
    }
    EdgesClosedAppend(ges, tes, Ids(gns) + {src}, Ids(gns) + {src});
  }

  lemma FlattenStep<T>(gs: seq<seq<T>>, g: int)
    requires 0 <= g < |gs|
    ensures Flatten(gs[..g + 1]) == Flatten(gs[..g]) + gs[g]
  {
    assert gs[..g + 1] == gs[..g] + [gs[g]];
    FlattenPush(gs[..g], gs[g]);
  }

  /** One more group placed keeps the keys of the children loop. */
  lemma GroupKeys(placed: seq<Tree>, group: seq<Tree>, ns: seq<FlowNode>, gns: seq<FlowNode>)
    requires multiset(PersonKeys(ns)) == multiset(ForestKeys(placed))
    requires multiset(PersonKeys(gns)) == multiset(ForestKeys(group))
    ensures multiset(PersonKeys(ns + gns)) == multiset(ForestKeys(placed + group))
  {
    PersonKeysAppend(ns, gns);
    ForestKeysAppend(placed, group);
  }

  /** One more group placed keeps the edges of the children loop closed and the children hung. */
  lemma GroupEdges(t: Tree, placed: seq<Tree>, group: seq<Tree>,
                   ns: seq<FlowNode>, es: seq<FlowEdge>, gns: seq<FlowNode>, ges: seq<FlowEdge>)
    requires EdgesClosed(es, Ids(ns) + {UnitId(t)})
    requires forall c :: c in placed ==> c.person.key in HungFrom(es, UnitId(t))
    requires EdgesClosed(ges, Ids(gns) + {UnitId(t)})
    requires forall c :: c in group ==> c.person.key in HungFrom(ges, UnitId(t))
    requires multiset(es) == multiset(ChildrenEdges(t, placed))
    requires multiset(ges) == multiset(ChildrenEdges(t, group))
    ensures EdgesClosed(es + ges, Ids(ns + gns) + {UnitId(t)})
    ensures forall c :: c in placed + group ==> c.person.key in HungFrom(es + ges, UnitId(t))
    ensures multiset(es + ges) == multiset(ChildrenEdges(t, placed + group))
  {
    ChildrenEdgesAppend(t, placed, group);
    IdsAppend(ns, gns);
    EdgesClosedAppend(es, ges, Ids(ns) + {UnitId(t)}, Ids(ns + gns) + {UnitId(t)});
    HungFromAppend(es, ges, UnitId(t));
  }


  /** One more group placed keeps the boxes of the children loop apart and inside the block. */
  lemma GroupGeometry(placed: seq<Tree>, group: seq<Tree>, start: real, cursor: real, childY: real,
                      ns: seq<FlowNode>, gns: seq<FlowNode>)
    requires group != [] && SumWidths(group) >= 0.0 && SumWidths(placed) >= 0.0
    requires cursor == start + SumWidths(placed) + HorizontalSpacing * |placed| as real
    requires Within(ns, start, start + ChildrenSpan(placed)) && Below(ns, childY) && AllApart(ns)
    requires Within(gns, cursor, cursor + ChildrenSpan(group)) && Below(gns, childY) && AllApart(gns)
    ensures cursor + SumWidths(group) + HorizontalSpacing * |group| as real ==
      start + SumWidths(placed + group) + HorizontalSpacing * |placed + group| as real
    ensures SumWidths(placed + group) >= 0.0
    ensures Within(ns + gns, start, start + ChildrenSpan(placed + group))
    ensures Below(ns + gns, childY) && AllApart(ns + gns)
  {
    SpanConcat(placed, group);
    SpanBound(placed);
    SpanBound(group);
    if placed == [] {
      assert cursor == start && placed + group == group;
    } else {
      assert cursor == start + ChildrenSpan(placed) + HorizontalSpacing;
    }
    SideBySide(ns, gns, start, start + ChildrenSpan(placed), cursor, cursor + ChildrenSpan(group));
    WithinWiden(ns, start, start + ChildrenSpan(placed), start, start + ChildrenSpan(placed + group));
    WithinWiden(gns, cursor, cursor + ChildrenSpan(group), start, start + ChildrenSpan(placed + group));
    WithinAppend(ns, gns, start, start + ChildrenSpan(placed + group));
    BelowAppend(ns, gns, childY);
  }

  /** The keys of two sequences of units one after the other. */
  lemma {:induction false} ForestKeysAppend(a: seq<Tree>, b: seq<Tree>)
    ensures ForestKeys(a + b) == ForestKeys(a) + ForestKeys(b)
    decreases |b|
  {
    if b == [] {
      assert a + b == a;
    } else {
      var n := |b| - 1;
      assert (a + b)[..|a + b| - 1] == a + b[..n];
      assert (a + b)[|a + b| - 1] == b[n];
      ForestKeysAppend(a, b[..n]);
      calc {
        ForestKeys(a + b);
        ForestKeys(a + b[..n]) + Keys(b[n]);
        ForestKeys(a) + (ForestKeys(b[..n]) + Keys(b[n]));
      }
    }
  }

  /** After the last group, the placed children are the unit's children, reordered. */
  lemma ChildrenPlaced(t: Tree, groups: seq<seq<Tree>>, placed: seq<Tree>, start: real, ns: seq<FlowNode>, es: seq<FlowEdge>)
    requires placed == Flatten(groups[..|groups|])
    requires multiset(Flatten(groups)) == multiset(t.children)
    requires Within(ns, start, start + ChildrenSpan(placed))
    requires multiset(PersonKeys(ns)) == multiset(ForestKeys(placed))
    requires forall c :: c in placed ==> c.person.key in HungFrom(es, UnitId(t))
    requires multiset(es) == multiset(ChildrenEdges(t, placed))
    ensures ChildrenSpan(placed) == ChildrenSpan(t.children)
    ensures Within(ns, start, start + ChildrenSpan(t.children))
    ensures multiset(PersonKeys(ns)) == multiset(ForestKeys(t.children))
    ensures forall c :: c in t.children ==> c.person.key in HungFrom(es, UnitId(t))
    ensures multiset(es) == multiset(ChildrenEdges(t, t.children))
  {
    assert groups[..|groups|] == groups;
    ChildrenEdgesPermutation(t, placed, t.children);
    SumOfPermutation(WidthOf, placed, t.children);
    assert |placed| == |multiset(placed)| == |multiset(t.children)| == |t.children|;
    ForestKeysPermutation(placed, t.children);
    forall c | c in t.children ensures c.person.key in HungFrom(es, UnitId(t)) {
      assert c in multiset(placed);
    }
  }

  /** The member loop's invariant after `i` members of `group`: the state `ns, es, m, at` they leave behind. */
  ghost predicate MembersPlaced(t: Tree, group: seq<Tree>, i: int, cursor: real, childY: real, mmap: MarriageMap,
                                linkEach: bool, ns: seq<FlowNode>, es: seq<FlowEdge>, m: MarriageMap, at: real)
  {
    0 <= i <= |group| &&
    at == cursor + SumWidths(group[..i]) + HorizontalSpacing * i as real &&
    Within(ns, cursor, cursor + ChildrenSpan(group[..i])) && Below(ns, childY) && AllApart(ns) &&
    multiset(PersonKeys(ns)) == multiset(ForestKeys(group[..i])) &&
    SumWidths(group[..i]) >= 0.0 &&
    (forall j :: 0 <= j < i ==> PersonNode(group[j].person.key) in Ids(ns)) &&
    EdgesClosed(es, Ids(ns) + {UnitId(t)}) &&
    (linkEach ==> forall j :: 0 <= j < i ==> group[j].person.key in HungFrom(es, UnitId(t))) &&
    multiset(es) == multiset(MembersEdges(t, group[..i], linkEach)) &&
    MapFrame(mmap, m, ForestKeys(t.children)) && ParentSource(t, m) == UnitId(t)
  }

  /**
   * One group's `forEach`: each member's subtree is laid out at the cursor,
   * which then moves right by the member's width and 30; with `linkEach`,
   * each member also gets a child edge right after its subtree.
   */
  method PlaceMembers(t: Tree, group: seq<Tree>, cursor: real, childY: real, mmap: MarriageMap, linkEach: bool)
    returns (ns: seq<FlowNode>, es: seq<FlowEdge>, mmap': MarriageMap, cursor': real)
    requires Sized(t) && DistinctKeys(Keys(t))
    requires forall c :: c in group ==> c in t.children
    requires ParentSource(t, mmap) == UnitId(t)
    ensures cursor' == cursor + SumWidths(group) + HorizontalSpacing * |group| as real
    ensures Within(ns, cursor, cursor + ChildrenSpan(group)) && Below(ns, childY) && AllApart(ns)
    ensures BoxesAt(group, cursor, HorizontalSpacing, childY, ns)
    ensures multiset(PersonKeys(ns)) == multiset(ForestKeys(group))
    ensures SumWidths(group) >= 0.0
    ensures forall c :: c in group ==> PersonNode(c.person.key) in Ids(ns)
    ensures EdgesClosed(es, Ids(ns) + {UnitId(t)})
    ensures linkEach ==> forall c :: c in group ==> c.person.key in HungFrom(es, UnitId(t))
    ensures multiset(es) == multiset(MembersEdges(t, group, linkEach))
    ensures MapFrame(mmap, mmap', ForestKeys(t.children)) && ParentSource(t, mmap') == UnitId(t)
    decreases t, 1
  {
    ns, es, mmap', cursor' := [], [], mmap, cursor;
    assert group[..0] == [];
    SpanBound(group[..0]);
    for i := 0 to |group|
      invariant MembersPlaced(t, group, i, cursor, childY, mmap, linkEach, ns, es, mmap', cursor')
      invariant BoxesAt(group[..i], cursor, HorizontalSpacing, childY, ns)
    {
      ghost var ns0 := ns;
      ns, es, mmap', cursor' := PlaceMember(t, group, i, cursor, childY, mmap, linkEach, ns, es, mmap', cursor');
      BoxesStep(group, i, cursor, HorizontalSpacing, childY, ns0, ns);
    }
    assert group[..|group|] == group;
    forall c | c in group ensures PersonNode(c.person.key) in Ids(ns) {
      var j :| 0 <= j < |group| && group[j] == c;
    }
  }

  /** One turn of the member loop: the `i`-th member laid out at the cursor, then its child edge when `linkEach`. */
  method PlaceMember(t: Tree, group: seq<Tree>, i: int, cursor: real, childY: real, mmap: MarriageMap, linkEach: bool,
                     ns: seq<FlowNode>, es: seq<FlowEdge>, m: MarriageMap, at: real)
    returns (ns': seq<FlowNode>, es': seq<FlowEdge>, m': MarriageMap, at': real)
    requires Sized(t) && DistinctKeys(Keys(t))
    requires forall c :: c in group ==> c in t.children
    requires i < |group| && MembersPlaced(t, group, i, cursor, childY, mmap, linkEach, ns, es, m, at)
    ensures MembersPlaced(t, group, i + 1, cursor, childY, mmap, linkEach, ns', es', m', at')
    ensures PlacedNext(group[i], at, childY, ns, ns')
    decreases t, 0
  {
    ParentKeysFresh(t);
    var child := group[i];
    ChildFacts(t, child);
    var cns, ces, m2 := LayoutNode(child, at, childY, m);
    MapFrameTrans(mmap, m, m2, Keys(child), ForestKeys(t.children));
    ParentSourceKept(t, m, m2, Keys(child));
    var edges := ces;
    if linkEach {
      var e := CreateChildEdge(t, child, m2);
      edges := ces + [e];
    }
    MemberLinks(t, child, cns, ces, m2, linkEach, edges);
    MemberStep(t, group, i, cursor, childY, mmap, linkEach, ns, es, m, at, cns, edges, m2);
    PlacedNextAppend(child, at, childY, ns, cns);
    ns', es', m', at' := ns + cns, es + edges, m2, at + child.width + HorizontalSpacing;
  }

  /** A member's own edges, followed by its child edge when `linkEach`, hang it below the unit. */
  lemma MemberLinks(t: Tree, child: Tree, cns: seq<FlowNode>, ces: seq<FlowEdge>, m: MarriageMap, linkEach: bool,
                    edges: seq<FlowEdge>)
    requires ParentSource(t, m) == UnitId(t)
    requires |cns| >= 1 && cns[0].id == PersonNode(child.person.key)
    requires EdgesClosed(ces, Ids(cns)) && multiset(ces) == multiset(UnitEdges(child))
    requires edges == ces + (if linkEach then [CreateChildEdge(t, child, m)] else [])
    ensures EdgesClosed(edges, Ids(cns) + {UnitId(t)})
    ensures linkEach ==> child.person.key in HungFrom(edges, UnitId(t))
    ensures multiset(edges) == multiset(UnitEdges(child)) + multiset(if linkEach then [ChildEdge(t, child)] else [])
  {
    var e := CreateChildEdge(t, child, m);
    assert cns[0].id in Ids(cns);
    EdgesClosedAppend(ces, if linkEach then [e] else [], Ids(cns), Ids(cns) + {UnitId(t)});
    if linkEach {
      HungFromAppend(ces, [e], UnitId(t));
      assert HungFrom([e], UnitId(t)) == Hangs(e, UnitId(t)) by { assert [e][..0] == []; }
    }
  }

  /** The `i`-th member's subtree and links, appended, give the member loop's state after `i + 1` members. */
  lemma MemberStep(t: Tree, group: seq<Tree>, i: int, cursor: real, childY: real, mmap: MarriageMap, linkEach: bool,
                   ns: seq<FlowNode>, es: seq<FlowEdge>, m: MarriageMap, at: real,
                   cns: seq<FlowNode>, ces: seq<FlowEdge>, m': MarriageMap)
    requires i < |group| && MembersPlaced(t, group, i, cursor, childY, mmap, linkEach, ns, es, m, at)
    requires group[i].width >= 0.0
    requires Within(cns, at, at + group[i].width) && Below(cns, childY) && AllApart(cns)
    requires |cns| >= 1 && cns[0].id == PersonNode(group[i].person.key)
    requires multiset(PersonKeys(cns)) == multiset(Keys(group[i]))
    requires EdgesClosed(ces, Ids(cns) + {UnitId(t)})
    requires linkEach ==> group[i].person.key in HungFrom(ces, UnitId(t))
    requires multiset(ces) == multiset(UnitEdges(group[i])) + multiset(if linkEach then [ChildEdge(t, group[i])] else [])
    requires MapFrame(mmap, m', ForestKeys(t.children)) && ParentSource(t, m') == UnitId(t)
    ensures MembersPlaced(t, group, i + 1, cursor, childY, mmap, linkEach, ns + cns, es + ces, m', at + group[i].width + HorizontalSpacing)
  {
    MemberGeometry(group, i, cursor, at, childY, ns, cns);
    MemberKeys(group, i, ns, cns);
    MemberEdges(t, group, i, ns, es, cns, ces, linkEach);
  }

  /** One more member placed keeps the boxes of the member loop apart and inside the block. */
  lemma MemberGeometry(group: seq<Tree>, i: int, cursor: real, at: real, childY: real, ns: seq<FlowNode>, cns: seq<FlowNode>)
    requires 0 <= i < |group| && group[i].width >= 0.0 && SumWidths(group[..i]) >= 0.0
    requires at == cursor + SumWidths(group[..i]) + HorizontalSpacing * i as real
    requires Within(ns, cursor, cursor + ChildrenSpan(group[..i])) && Below(ns, childY) && AllApart(ns)
    requires Within(cns, at, at + group[i].width) && Below(cns, childY) && AllApart(cns)
    ensures at + group[i].width + HorizontalSpacing == cursor + SumWidths(group[..i + 1]) + HorizontalSpacing * (i + 1) as real
    ensures SumWidths(group[..i + 1]) >= 0.0
    ensures Within(ns + cns, cursor, cursor + ChildrenSpan(group[..i + 1])) && Below(ns + cns, childY) && AllApart(ns + cns)
  {
    SpanStep(group, i);
    SpanBound(group[..i]);
    SideBySide(ns, cns, cursor, cursor + ChildrenSpan(group[..i]), at, at + group[i].width);
    WithinWiden(ns, cursor, cursor + ChildrenSpan(group[..i]), cursor, cursor + ChildrenSpan(group[..i + 1]));
    WithinWiden(cns, at, at + group[i].width, cursor, cursor + ChildrenSpan(group[..i + 1]));
    WithinAppend(ns, cns, cursor, cursor + ChildrenSpan(group[..i + 1]));
    BelowAppend(ns, cns, childY);
  }

  /** One more member placed keeps the keys and person nodes of the member loop. */
  lemma MemberKeys(group: seq<Tree>, i: int, ns: seq<FlowNode>, cns: seq<FlowNode>)
    requires 0 <= i < |group|
    requires multiset(PersonKeys(ns)) == multiset(ForestKeys(group[..i]))
    requires forall j :: 0 <= j < i ==> PersonNode(group[j].person.key) in Ids(ns)
    requires |cns| >= 1 && cns[0].id == PersonNode(group[i].person.key)
    requires multiset(PersonKeys(cns)) == multiset(Keys(group[i]))
    ensures multiset(PersonKeys(ns + cns)) == multiset(ForestKeys(group[..i + 1]))
    ensures forall j :: 0 <= j < i + 1 ==> PersonNode(group[j].person.key) in Ids(ns + cns)
  {
    PersonKeysAppend(ns, cns);
    ForestKeysStep(group, i);
    IdsAppend(ns, cns);
    assert cns[0].id in Ids(cns);
  }

  lemma ForestKeysStep(ts: seq<Tree>, i: int)
    requires 0 <= i < |ts|
    ensures ForestKeys(ts[..i + 1]) == ForestKeys(ts[..i]) + Keys(ts[i])
  {
    assert ts[..i + 1][..i] == ts[..i];
  }

  /** One more member placed keeps the edges of the member loop closed and the members hung. */
  lemma MemberEdges(t: Tree, group: seq<Tree>, i: int, ns: seq<FlowNode>, es: seq<FlowEdge>,
                    cns: seq<FlowNode>, ces: seq<FlowEdge>, linkEach: bool)
    requires 0 <= i < |group|
    requires EdgesClosed(es, Ids(ns) + {UnitId(t)})
    requires linkEach ==> forall j :: 0 <= j < i ==> group[j].person.key in HungFrom(es, UnitId(t))
    requires EdgesClosed(ces, Ids(cns) + {UnitId(t)})
    requires linkEach ==> group[i].person.key in HungFrom(ces, UnitId(t))
    requires multiset(es) == multiset(MembersEdges(t, group[..i], linkEach))
    requires multiset(ces) == multiset(UnitEdges(group[i])) + multiset(if linkEach then [ChildEdge(t, group[i])] else [])
    ensures EdgesClosed(es + ces, Ids(ns + cns) + {UnitId(t)})
    ensures linkEach ==> forall j :: 0 <= j < i + 1 ==> group[j].person.key in HungFrom(es + ces, UnitId(t))
    ensures multiset(es + ces) == multiset(MembersEdges(t, group[..i + 1], linkEach))
  {
    MembersEdgesStep(t, group, i, linkEach);
    IdsAppend(ns, cns);
    EdgesClosedAppend(es, ces, Ids(ns) + {UnitId(t)}, Ids(ns + cns) + {UnitId(t)});
    HungFromAppend(es, ces, UnitId(t));
  }


  // ---------------------------------------------------------------- the whole layout

  /**
   * `calculateGenogramLayout`: nothing for no people; otherwise the person
   * map, the roots, the forest, the sizes, and then each tree laid out from
   * the top row (y = 0), the trees left to right from x = 0 with a gap of 100
   * after each. Every distinct key is drawn as exactly one person node, all
   * boxes lie right of x = 0 and below y = 0, no two boxes overlap, and every
   * edge joins two drawn nodes. The laid-out trees are the sized forest built
   * from `familyData`, and the edges are, up to order, those of these trees,
   * so every couple the build pairs gets its marriage edge.
   */
  method CalculateGenogramLayout(familyData: seq<Person>)
    returns (nodes: seq<FlowNode>, edges: seq<FlowEdge>, ghost trees: seq<Tree>)
    ensures familyData == [] ==> nodes == [] && edges == []
    ensures multiset(PersonKeys(nodes)) == multiset(KeySet(familyData))
    ensures forall i :: 0 <= i < |nodes| ==> nodes[i].x >= 0.0 && nodes[i].y >= 0.0
    ensures AllApart(nodes)
    ensures EdgesClosed(edges, Ids(nodes))
    ensures |trees| == |GenogramForest(familyData)|
    ensures forall i :: 0 <= i < |trees| ==> Sized(trees[i]) && SameShape(trees[i], GenogramForest(familyData)[i])
    ensures multiset(ForestKeys(trees)) == multiset(KeySet(familyData))
    ensures BoxesAt(trees, 0.0, ForestGap, 0.0, nodes)
    ensures multiset(edges) == multiset(ForestEdges(trees))
    ensures forall u :: InForest(u, trees) && u.spouse.Some? ==> MarriageEdge(u) in edges
  {
    if |familyData| == 0 {
      assert KeySet(familyData) == {};
      return [], [], [];
    }
    var personMap := BuildPersonMap(familyData);
    PersonMapUnique(familyData, personMap);
    var roots, data := SelectRoots(familyData);
    PersonMapFromData(familyData, data, personMap);
    var forest := BuildForest(data, personMap, roots);
    assert forest == GenogramForest(familyData);
    SameKeySet(data, familyData);
    var sized := SizeForest(forest);
    SameShapeForestKeys(sized, forest);
    nodes, edges := LayoutForest(sized, KeySet(familyData));
    trees := sized;
    forall u | InForest(u, trees) && u.spouse.Some? ensures MarriageEdge(u) in edges {
      ForestMarriageEdges(u, trees);
      assert MarriageEdge(u) in multiset(edges);
    }
  }

  /** `forest.forEach(calculateSize)`: every tree sized, its people unchanged. */
  method SizeForest(forest: seq<Tree>) returns (sized: seq<Tree>)
    ensures |sized| == |forest|
    ensures forall j :: 0 <= j < |sized| ==> Sized(sized[j]) && SameShape(sized[j], forest[j])
  {
    sized := [];
    for i := 0 to |forest|
      invariant |sized| == i
      invariant forall j :: 0 <= j < i ==> Sized(sized[j]) && SameShape(sized[j], forest[j])
    {
      var s := CalculateSize(forest[i]);
      sized := sized + [s];
    }
  }

  /**
   * The forest loop: each tree laid out at the current x on the top row, the
   * current x then moving right by the tree's width and a gap of 100.
   */
  method LayoutForest(sized: seq<Tree>, keys: set<int>) returns (nodes: seq<FlowNode>, edges: seq<FlowEdge>)
    requires forall t :: t in sized ==> Sized(t)
    requires multiset(ForestKeys(sized)) == multiset(keys)
    ensures multiset(PersonKeys(nodes)) == multiset(keys)
    ensures forall i :: 0 <= i < |nodes| ==> nodes[i].x >= 0.0 && nodes[i].y >= 0.0
    ensures AllApart(nodes)
    ensures BoxesAt(sized, 0.0, ForestGap, 0.0, nodes)
    ensures EdgesClosed(edges, Ids(nodes))
    ensures multiset(edges) == multiset(ForestEdges(sized))
  {
    nodes, edges := [], [];
    var marriageNodeMap: MarriageMap := map[];
    var currentX := 0.0;
    for i := 0 to |sized|
      invariant ForestPlaced(sized, i, currentX, nodes, edges)
      invariant ForestBoxes(sized, i, currentX, nodes)
    {
      nodes, edges, marriageNodeMap, currentX := PlaceTree(sized, keys, i, currentX, nodes, edges, marriageNodeMap);
    }
    assert sized[..|sized|] == sized;
  }

  /** The forest after `i` trees: laid out side by side left of `currentX`, each person once, edges closed. */
  ghost predicate ForestPlaced(sized: seq<Tree>, i: int, currentX: real, nodes: seq<FlowNode>, edges: seq<FlowEdge>) {
    0 <= i <= |sized| &&
    currentX >= 0.0 &&
    Within(nodes, 0.0, currentX) && Below(nodes, 0.0) && AllApart(nodes) &&
    multiset(PersonKeys(nodes)) == multiset(ForestKeys(sized[..i])) &&
    EdgesClosed(edges, Ids(nodes)) &&
    multiset(edges) == multiset(ForestEdges(sized[..i]))
  }

  /**
   * The trees before `i` have their root boxes on the top row, the `j`-th starting at the sum of
   * the widths before it plus 100 for each gap, and `currentX` is where tree `i` starts.
   */
  ghost predicate ForestBoxes(sized: seq<Tree>, i: int, currentX: real, nodes: seq<FlowNode>) {
    0 <= i <= |sized| &&
    currentX == StartOf(sized, i, 0.0, ForestGap) && BoxesAt(sized[..i], 0.0, ForestGap, 0.0, nodes)
  }

  /** A tree laid out at `currentX` with its root box first extends the forest's row of root boxes. */
  lemma TreeBoxes(sized: seq<Tree>, i: int, currentX: real, nodes: seq<FlowNode>, tns: seq<FlowNode>)
    requires i < |sized| && ForestBoxes(sized, i, currentX, nodes)
    requires tns != [] && tns[0] == PersonBox(sized[i], currentX, 0.0) && Within(tns, currentX, currentX + sized[i].width)
    ensures PlacedNext(sized[i], currentX, 0.0, nodes, nodes + tns)
    ensures ForestBoxes(sized, i + 1, currentX + sized[i].width + ForestGap, nodes + tns)
  {
    PlacedNextAppend(sized[i], currentX, 0.0, nodes, tns);
    StartOfStep(sized, i, 0.0, ForestGap);
    BoxesStep(sized, i, 0.0, ForestGap, 0.0, nodes, nodes + tns);
  }

  /** One tree of the forest: laid out at `currentX`, which then moves past it and the gap. */
  method PlaceTree(sized: seq<Tree>, keys: set<int>, i: int, currentX: real, nodes: seq<FlowNode>, edges: seq<FlowEdge>,
                   mmap: MarriageMap)
    returns (nodes': seq<FlowNode>, edges': seq<FlowEdge>, mmap': MarriageMap, x': real)
    requires forall t :: t in sized ==> Sized(t)
    requires multiset(ForestKeys(sized)) == multiset(keys)
    requires i < |sized| && ForestPlaced(sized, i, currentX, nodes, edges)
    requires ForestBoxes(sized, i, currentX, nodes)
    ensures x' == currentX + sized[i].width + ForestGap
    ensures ForestPlaced(sized, i + 1, x', nodes', edges')
    ensures ForestBoxes(sized, i + 1, x', nodes')
    ensures PlacedNext(sized[i], currentX, 0.0, nodes, nodes')
  {
    var tree := sized[i];
    TreeOfForest(sized, i, keys);
    var tns, tes, m2 := LayoutNode(tree, currentX, 0.0, mmap);
    TreeBoxes(sized, i, currentX, nodes, tns);
    ForestGeometry(nodes, tns, currentX, tree.width);
    ForestRecords(sized, i, nodes, edges, tns, tes);
    nodes', edges', mmap' := nodes + tns, edges + tes, m2;
    x' := currentX + tree.width + ForestGap;
  }

  /** Reordering people keeps their set of keys. */
  lemma SameKeySet(a: seq<Person>, b: seq<Person>)
    requires multiset(a) == multiset(b)
    ensures KeySet(a) == KeySet(b)
  {
    forall k | k in KeySet(a) ensures k in KeySet(b) {
      var i :| 0 <= i < |a| && a[i].key == k;
      assert a[i] in multiset(b);
      var j :| 0 <= j < |b| && b[j] == a[i];
    }
    forall k | k in KeySet(b) ensures k in KeySet(a) {
      var i :| 0 <= i < |b| && b[i].key == k;
      assert b[i] in multiset(a);
      var j :| 0 <= j < |a| && a[j] == b[i];
    }
  }

  /** A tree of a forest whose keys are a set has distinct keys and is sized when the forest is. */
  lemma TreeOfForest(ts: seq<Tree>, i: int, keys: set<int>)
    requires 0 <= i < |ts| && multiset(ForestKeys(ts)) == multiset(keys)
    requires forall t :: t in ts ==> Sized(t)
    ensures DistinctKeys(Keys(ts[i])) && Sized(ts[i]) && ts[i].width >= 0.0
  {
    assert ts[i] in ts;
    DistinctFromSet(ForestKeys(ts), keys);
    KeysOfMember(ts, ts[i]);
    DistinctSub(Keys(ts[i]), ForestKeys(ts));
  }

  /** A tree laid out right of the previous ones keeps all boxes apart. */
  lemma ForestGeometry(nodes: seq<FlowNode>, tns: seq<FlowNode>, x: real, w: real)
    requires x >= 0.0 && Within(nodes, 0.0, x) && Below(nodes, 0.0) && AllApart(nodes)
    requires Within(tns, x, x + w) && Below(tns, 0.0) && AllApart(tns) && w >= 0.0
    ensures x + w + ForestGap >= 0.0
    ensures Within(nodes + tns, 0.0, x + w + ForestGap) && Below(nodes + tns, 0.0) && AllApart(nodes + tns)
  {
    SideBySide(nodes, tns, 0.0, x, x, x + w);
    WithinWiden(nodes, 0.0, x, 0.0, x + w + ForestGap);
    WithinWiden(tns, x, x + w, 0.0, x + w + ForestGap);
    WithinAppend(nodes, tns, 0.0, x + w + ForestGap);
    BelowAppend(nodes, tns, 0.0);
  }

  /** One more tree laid out keeps the keys and the closed edges. */
  lemma ForestRecords(ts: seq<Tree>, i: int, nodes: seq<FlowNode>, edges: seq<FlowEdge>, tns: seq<FlowNode>, tes: seq<FlowEdge>)
    requires 0 <= i < |ts|
    requires multiset(PersonKeys(nodes)) == multiset(ForestKeys(ts[..i])) && EdgesClosed(edges, Ids(nodes))
    requires multiset(PersonKeys(tns)) == multiset(Keys(ts[i])) && EdgesClosed(tes, Ids(tns))
    requires multiset(edges) == multiset(ForestEdges(ts[..i])) && multiset(tes) == multiset(UnitEdges(ts[i]))
    ensures multiset(PersonKeys(nodes + tns)) == multiset(ForestKeys(ts[..i + 1]))
    ensures EdgesClosed(edges + tes, Ids(nodes + tns))
    ensures multiset(edges + tes) == multiset(ForestEdges(ts[..i + 1]))
  {
    ConcatMapPrefix(UnitEdges, ts, i);
    PersonKeysAppend(nodes, tns);
    ForestKeysStep(ts, i);
    IdsAppend(nodes, tns);
    EdgesClosedAppend(edges, tes, Ids(nodes), Ids(nodes + tns));
    assert forall j :: 0 <= j < |tes| ==> tes[j].source in Ids(nodes + tns) && tes[j].target in Ids(nodes + tns);
  }
}
