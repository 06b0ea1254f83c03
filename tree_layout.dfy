/** The education tree of three.js: the page's nested data, the count and
    height the d3 hierarchy derives from it, the drawing's dimensions and
    the side each label is drawn on. The tree layout's node coordinates are
    not modelled; only the quantities the dimension formulas use are. */
module TreeLayout {

  import opened WordWrap

  /** A node of the data: its name and its children. d3.hierarchy makes a
      node with no children key and a node whose children array is empty
      alike into a leaf, so both are the empty sequence here. */
  datatype Node = Node(name: string, children: seq<Node>)

  /** The SVG margins. */
  datatype Margin = Margin(top: int, right: int, bottom: int, left: int)

  const TreeMargin: Margin := Margin(600, 300, 40, 80)

  /** `d3.tree().nodeSize([50, 250])`: 50px between siblings, 250px between
      depths. */
  const SiblingSpacing: int := 50
  const DepthSpacing: int := 250

  /** The cap on the drawing's height, and the share of the viewport its
      width may take. */
  const HeightCap: int := 1200
  const ViewportShare: real := 0.9

  /** Whether d3 gives the node a `children` array: it does only for a
      non-empty one. */
  predicate HasChildren(n: Node) {
    n.children != []
  }

  // ---------------------------------------------------------------------
  // root.descendants().length and root.height

  /** The number of nodes of the tree rooted at n, n included. */
  function Size(n: Node): (k: nat)
    ensures k >= 1 + |n.children|
    decreases n, 1
  {
    1 + SizeAll(n.children)
  }

  /** The number of nodes of the trees rooted at cs. */
  function SizeAll(cs: seq<Node>): (k: nat)
    ensures k >= |cs|
    decreases cs, 0
  {
    if cs == [] then 0 else Size(cs[0]) + SizeAll(cs[1..])
  }

  /** The number of edges on the longest downward path from n to a leaf. */
  function Height(n: Node): nat
    decreases n, 1
  {
    if n.children == [] then 0 else 1 + MaxHeight(n.children)
  }

  /** The greatest height among the trees rooted at cs (0 when there are
      none). */
  function MaxHeight(cs: seq<Node>): (h: nat)
    ensures forall i :: 0 <= i < |cs| ==> Height(cs[i]) <= h
    ensures cs != [] ==> exists i :: 0 <= i < |cs| && Height(cs[i]) == h
    decreases cs, 0
  {
    if cs == [] then 0
    else
      var rest := MaxHeight(cs[1..]);
      var h0 := Height(cs[0]);
      assert forall i :: 1 <= i < |cs| ==> cs[i] == cs[1..][i - 1];
      if h0 >= rest then h0 else rest
  }

  /** A tree is higher than it has edges only along one path: its height
      is always below its node count. */
  lemma {:induction false} HeightBelowSize(n: Node)
    ensures Height(n) < Size(n)
    decreases n, 1
  {
    if n.children != [] {
      MaxHeightBelowSizeAll(n.children);
    }
  }

  lemma {:induction false} MaxHeightBelowSizeAll(cs: seq<Node>)
    requires cs != []
    ensures MaxHeight(cs) < SizeAll(cs)
    decreases cs, 0
  {
    HeightBelowSize(cs[0]);
    if |cs| > 1 {
      MaxHeightBelowSizeAll(cs[1..]);
    }
  }

  /** A child's subtree is smaller and lower than its parent's. */
  lemma ChildSmaller(n: Node, i: int)
    requires 0 <= i < |n.children|
    ensures Size(n.children[i]) < Size(n)
    ensures Height(n.children[i]) < Height(n)
  {
    SizeAllAtLeast(n.children, i);
  }

  lemma {:induction false} SizeAllAtLeast(cs: seq<Node>, i: int)
    requires 0 <= i < |cs|
    ensures Size(cs[i]) <= SizeAll(cs)
  {
    if i > 0 {
      SizeAllAtLeast(cs[1..], i - 1);
    }
  }

  // ---------------------------------------------------------------------
  // Dimensions (three.js:72, 78-85, 90-91)

  /** `totalNodes * 250 + margin.left + margin.right`. */
  function MinWidth(root: Node): (w: int)
    ensures w >= DepthSpacing + TreeMargin.left + TreeMargin.right
  {
    Size(root) * DepthSpacing + TreeMargin.left + TreeMargin.right
  }

  /** `(maxDepth + 1) * 50 + margin.top + margin.bottom`. */
  function MinHeight(root: Node): (h: int)
    ensures h >= SiblingSpacing + TreeMargin.top + TreeMargin.bottom
  {
    (Height(root) + 1) * SiblingSpacing + TreeMargin.top + TreeMargin.bottom
  }

  /** Both minima grow with the tree: a node more adds 250px of width, a
      level more adds 50px of height, over the room the margins take. */
  lemma MinimaFormulas(root: Node)
    ensures MinWidth(root) == Size(root) * 250 + 380
    ensures MinHeight(root) == Height(root) * 50 + 690
  {
  }

  /** `Math.min(minWidth, window.innerWidth * 0.9)`: the content width,
      for a viewport `innerWidth` pixels wide. */
  function ChartWidth(root: Node, innerWidth: real): (w: real)
    ensures w <= MinWidth(root) as real && w <= innerWidth * ViewportShare
    ensures w == MinWidth(root) as real || w == innerWidth * ViewportShare
  {
    var m := MinWidth(root) as real;
    var v := innerWidth * ViewportShare;
    if m <= v then m else v
  }

  /** `Math.min(minHeight, 1200)`: the content height. */
  function ChartHeight(root: Node): (h: int)
    ensures h <= HeightCap && h <= MinHeight(root)
    ensures h == HeightCap || h == MinHeight(root)
  {
    if MinHeight(root) <= HeightCap then MinHeight(root) else HeightCap
  }

  /** The cap bites exactly for trees of height 11 or more; lower trees get
      their full height. */
  lemma HeightCapped(root: Node)
    ensures ChartHeight(root) == MinHeight(root) <==> Height(root) <= 10
    ensures ChartHeight(root) == HeightCap <==> Height(root) >= 11
  {
  }

  /** The width never exceeds 90% of the viewport, and a viewport wide
      enough for the tree leaves it its full width. */
  lemma WidthForViewport(root: Node, innerWidth: real)
    ensures innerWidth * ViewportShare >= MinWidth(root) as real ==>
              ChartWidth(root, innerWidth) == MinWidth(root) as real
    ensures innerWidth * ViewportShare < MinWidth(root) as real ==>
              ChartWidth(root, innerWidth) == innerWidth * ViewportShare
  {
  }

  /** The SVG element's size: the content size plus the margins on both
      sides. */
  function SvgWidth(root: Node, innerWidth: real): (w: real)
    ensures w <= innerWidth * ViewportShare + 380.0
  {
    ChartWidth(root, innerWidth) + (TreeMargin.left + TreeMargin.right) as real
  }

  function SvgHeight(root: Node): (h: int)
    ensures 690 + 640 <= h <= HeightCap + 640
  {
    ChartHeight(root) + TreeMargin.top + TreeMargin.bottom
  }

  // ---------------------------------------------------------------------
  // Labels (three.js:125-132)

  /** Where a node's label goes: its x offset and its text-anchor. */
  datatype LabelSide = LabelSide(x: int, anchor: string)

  /** Inner nodes label to their left, ending at -15px; leaves label to
      their right, starting at 15px. */
  function LabelFor(n: Node): (s: LabelSide)
    ensures HasChildren(n) <==> s.x < 0
    ensures s.x == -15 || s.x == 15
    ensures s.anchor == (if s.x < 0 then "end" else "start")
  {
    if HasChildren(n) then LabelSide(-15, "end") else LabelSide(15, "start")
  }

  /** A label's text sits 15px from its dot, on the side away from the
      node's children. */
  lemma LabelAwayFromChildren(n: Node)
    ensures LabelFor(n).x == -15 <==> HasChildren(n)
    ensures LabelFor(n).x == 15 <==> n.children == []
  {
  }

  /** The wrap width of the labels, and the `dy` their text starts at. */
  const LabelWidth: real := 300.0
  const LabelDy: real := 0.35

  /** A node's label: drawn on its side, its name wrapped to 300px starting
      at 0.35em, each further line 1.2em lower. */
  method DrawLabel(n: Node, measure: string -> real)
    returns (side: LabelSide, lines: seq<seq<string>>, tspans: seq<Tspan>)
    ensures side == LabelFor(n)
    ensures lines == Layout(Words(n.name), LabelWidth, measure)
    ensures |tspans| == |lines| && tspans[0].dy == LabelDy
    ensures forall i :: 0 <= i < |tspans| ==> tspans[i] == TspanAt(lines[i], i, LabelDy)
  {
    side := LabelFor(n);
    var lineNumber;
    lines, tspans, lineNumber := Wrap(n.name, LabelWidth, LabelDy, measure);
  }

  // ---------------------------------------------------------------------
  // The page's data (three.js:2-69)

  function Leaf(name: string): Node {
    Node(name, [])
  }

  function ProjectsNode(): Node {
    Node("Projects", [Leaf("Portrait Illustrations"), Leaf("Concept Art for Games"),
                      Leaf("Personal Sketchbook Collections")])
  }

  /** The education data: the root, its seven groups and their entries.
      The last "Nodes" group has an empty children array. */
  function EducationData(): Node {
    Node("Drawing", [
      Node("inteerests", [
        Leaf("2018-2020: Local Art School - Beginner Drawing Classes"),
        Leaf("2021: Summer Workshop - Digital Illustration Techniques"),
        Leaf("2022-Present: Mentorship with Local Artist")]),
      ProjectsNode(),
      ProjectsNode(),
      Node("Nodes", [Leaf("Daily Practice (1-2 hours")]),
      Node("Favorites", [Leaf("Anime Style"), Leaf("Realism")]),
      Node("Achievements", [Leaf("Art Competition Entries")]),
      Node("Nodes", [])])
  }

  /** A node whose children are all leaves counts itself and them, and
      has height 1 (0 when it has no children). */
  lemma {:induction false} LeafGroup(n: Node)
    requires forall i :: 0 <= i < |n.children| ==> n.children[i].children == []
    ensures Size(n) == 1 + |n.children|
    ensures Height(n) == if n.children == [] then 0 else 1
  {
    LeavesOnly(n.children);
  }

  lemma {:induction false} LeavesOnly(cs: seq<Node>)
    requires forall i :: 0 <= i < |cs| ==> cs[i].children == []
    ensures SizeAll(cs) == |cs| && MaxHeight(cs) == 0
  {
    if cs != [] {
      LeavesOnly(cs[1..]);
    }
  }

  function Sum(xs: seq<nat>): nat {
    if xs == [] then 0 else xs[0] + Sum(xs[1..])
  }

  /** The tree has three levels at most: the root, groups of counts[i]
      entries each, and the entries, which are leaves. */
  predicate TwoLevels(root: Node, counts: seq<nat>) {
    |root.children| == |counts| &&
    (forall i :: 0 <= i < |counts| ==> |root.children[i].children| == counts[i]) &&
    (forall i, j :: 0 <= i < |counts| && 0 <= j < |root.children[i].children| ==>
       root.children[i].children[j].children == [])
  }

  lemma {:induction false} GroupsSize(cs: seq<Node>, counts: seq<nat>)
    requires TwoLevels(Node("", cs), counts)
    ensures SizeAll(cs) == |cs| + Sum(counts)
    ensures MaxHeight(cs) == if Sum(counts) == 0 then 0 else 1
  {
    if cs != [] {
      LeafGroup(cs[0]);
      assert TwoLevels(Node("", cs[1..]), counts[1..]) by {
        assert forall i :: 0 <= i < |cs| - 1 ==> cs[1..][i] == cs[i + 1];
      }
      GroupsSize(cs[1..], counts[1..]);
    }
  }

  /** Such a tree has one node per group and per entry besides the root,
      and its height is the number of levels below the root. */
  lemma TwoLevelsFacts(root: Node, counts: seq<nat>)
    requires TwoLevels(root, counts)
    ensures Size(root) == 1 + |counts| + Sum(counts)
    ensures Height(root) == if counts == [] then 0 else if Sum(counts) == 0 then 1 else 2
  {
    GroupsSize(root.children, counts);
  }

  /** The page's tree: seven groups holding 3, 3, 3, 1, 2, 1 and 0
      entries. The empty "Nodes" group is a leaf and labels to its right,
      while the other groups label to their left. */
  lemma SampleShape(root: Node)
    requires root == EducationData()
    ensures TwoLevels(root, [3, 3, 3, 1, 2, 1, 0])
    ensures |root.children| == 7
    ensures LabelFor(root.children[6]) == LabelSide(15, "start")
    ensures forall i :: 0 <= i < 6 ==> LabelFor(root.children[i]) == LabelSide(-15, "end")
  {
  }

  /** A tree of that shape has 21 nodes and height 2: it asks for 5630px
      of width and gets its full 790px of height. */
  lemma SampleDimensions(root: Node)
    requires TwoLevels(root, [3, 3, 3, 1, 2, 1, 0])
    ensures Size(root) == 21 && Height(root) == 2
    ensures MinWidth(root) == 5630 && ChartHeight(root) == 790 && SvgHeight(root) == 1430
  {
    TwoLevelsFacts(root, [3, 3, 3, 1, 2, 1, 0]);
  }
}
