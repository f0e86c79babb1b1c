// The red-black tree of address ranges, with parent links and in-place rotation.
//
// Each step is a small method that states, node by node, which links and colours it changes.  Two-state lemmas
// then derive the invariants after the step from the invariants before it.
module RedBlackTree {
  import opened MemoryRanges
  import opened Powers

  function Max(a: int, b: int): int {
    if a < b then b else a
  }

  lemma SquareMonotone(a: nat, b: nat)
    requires a <= b
    ensures a * a <= b * b
  {}

  // An entry of the tree.  Its range never changes; links and colour do.  The ghost fields place the node in
  // the in-order sequence: its own position, the interval lo..hi its subtree spans, and its black height.
  class Node {
    const param: MemRange
    const base: nat := param.base
    const end: int := param.base + param.size - 1
    var left: Node?
    var right: Node?
    var parent: Node?
    var red: bool
    ghost var lo: int
    ghost var pos: int
    ghost var hi: int
    ghost var bh: int
    constructor (m: MemRange)
      ensures param == m
    {
      param := m;
    }

    // Copies the links and the colour of another node.
    method CopyEntry(z: Node)
      modifies this
      ensures left == old(z.left) && right == old(z.right) && parent == old(z.parent) && red == old(z.red)
      ensures lo == old(z.lo) && pos == old(z.pos) && hi == old(z.hi) && bh == old(z.bh)
    {
      left, right, parent, red := z.left, z.right, z.parent, z.red;
      lo, pos, hi, bh := z.lo, z.pos, z.hi, z.bh;
    }
  }

  // A red-black tree.  'order' lists the nodes from left to right.  During removal one subtree may be a black
  // node short: the child of 'gapAt' on the side given by 'gapLeft'.
  class Tree {
    var root: Node?
    ghost var nodes: set<Node>
    ghost var order: seq<Node>
    ghost var gapAt: Node?
    ghost var gapLeft: bool

    constructor ()
      ensures Valid() && nodes == {} && order == []
    {
      root := null;
      nodes, order := {}, [];
      gapAt, gapLeft := null, false;
    }

    // ---------- invariants ----------

    // Every node knows its place in the order.
    ghost predicate Indexed() reads this, nodes {
      && (forall n {:trigger n.pos} {:trigger n.lo} {:trigger n.hi} :: n in nodes ==>
           0 <= n.lo <= n.pos < n.hi <= |order| && order[n.pos] == n)
      && (forall i :: 0 <= i < |order| ==> order[i] in nodes && order[i].pos == i)
    }

    // A node's subtrees span the order to its left and to its right, up to the ends of its own span.
    ghost predicate Spans() reads this, nodes {
      && (forall n {:trigger n.left} :: n in nodes ==>
           if n.left == null || n.left !in nodes then n.lo == n.pos else n.left.lo == n.lo && n.left.hi == n.pos)
      && (forall n {:trigger n.right} :: n in nodes ==>
           if n.right == null || n.right !in nodes then n.hi == n.pos + 1
           else n.right.lo == n.pos + 1 && n.right.hi == n.hi)
      && (if root == null || root !in nodes then order == [] else root.lo == 0 && root.hi == |order|)
    }

    // Child and parent links mirror each other, and only the root has no parent.
    ghost predicate Joined() reads this, nodes {
      && (forall n {:trigger n.left} :: n in nodes && n.left != null ==>
           n.left in nodes && n.left.parent == n && n.left != n.right)
      && (forall n {:trigger n.right} :: n in nodes && n.right != null ==>
           n.right in nodes && n.right.parent == n && n.left != n.right)
      && (forall n {:trigger n.parent} :: n in nodes ==>
           if n.parent == null then n == root
           else n.parent in nodes && (n.parent.left == n || n.parent.right == n))
      && (root != null ==> root in nodes && root.parent == null)
    }

    ghost predicate Linked() reads this, nodes { Indexed() && Spans() && Joined() }

    // Black heights agree on both sides of every node, the gap apart.
    ghost predicate Balanced() reads this, nodes {
      && (forall n {:trigger n.bh} :: n in nodes ==> 0 <= n.bh)
      && (forall n {:trigger n.left} {:trigger n.right} :: n in nodes ==>
        && n.bh == (if n.left == null || n.left !in nodes then 0 else n.left.bh)
                   + (if n.red then 0 else 1) + (if n == gapAt && gapLeft then 1 else 0)
        && n.bh == (if n.right == null || n.right !in nodes then 0 else n.right.bh)
                   + (if n.red then 0 else 1) + (if n == gapAt && !gapLeft then 1 else 0))
    }

    // No red node has a red child, except below 'up' and above 'down'.
    ghost predicate NoRedPair(up: Node?, down: Node?) reads this, nodes {
      forall n {:trigger n.left} {:trigger n.right} :: n in nodes && n.red && n != up ==>
        && (n.left == null || n.left == down || n.left !in nodes || !n.left.red)
        && (n.right == null || n.right == down || n.right !in nodes || !n.right.red)
    }

    twostate predicate SameNodes() reads this
    {
      nodes == old(nodes) && order == old(order) && gapAt == old(gapAt) && gapLeft == old(gapLeft)
    }

    twostate predicate SameIndex() requires nodes <= old(nodes) reads this, nodes {
      forall n {:trigger n.pos} {:trigger n.lo} {:trigger n.hi} :: n in nodes ==>
        n.lo == old(n.lo) && n.pos == old(n.pos) && n.hi == old(n.hi)
    }

    twostate predicate SameShape() requires nodes <= old(nodes) reads this, nodes {
      forall n {:trigger n.left} {:trigger n.right} {:trigger n.parent} :: n in nodes ==>
        n.left == old(n.left) && n.right == old(n.right) && n.parent == old(n.parent)
    }

    // Only colours and black heights changed.
    twostate lemma SameLinks()
      requires old(Linked()) && nodes == old(nodes) && order == old(order) && root == old(root)
      requires SameShape() && SameIndex()
      ensures Linked()
    {}

    // x and y traded colour and black height.
    twostate predicate Exchanged(x: Node, y: Node)
      requires nodes <= old(nodes) && x in nodes && y in nodes
      reads this, nodes
    {
      && (forall n {:trigger n.red} :: n in nodes ==>
           n.red == if n == x then old(y.red) else if n == y then old(x.red) else old(n.red))
      && (forall n {:trigger n.bh} :: n in nodes ==>
           n.bh == if n == x then old(y.bh) else if n == y then old(x.bh) else old(n.bh))
    }

    // RB_SET_BLACKRED.
    method SetBlackRed(black: Node, red: Node)
      requires Linked()
      requires black in nodes && red in nodes && black.red && !red.red
      modifies nodes`red, nodes`bh
      ensures Linked()
      ensures Exchanged(red, black)
    {
      black.red := false;
      red.red := true;
      black.bh, red.bh := red.bh, black.bh;
      SameLinks();
    }

    // The parent of x points at y instead.
    method Reparent(x: Node, y: Node?)
      requires x in nodes && (x.parent == null || x.parent in nodes)
      modifies this`root, nodes`left, nodes`right
      ensures root == if x.parent == null then y else old(root)
      ensures forall n {:trigger n.left} :: n in nodes ==>
        n.left == if n == x.parent && old(n.left) == x then y else old(n.left)
      ensures forall n {:trigger n.right} :: n in nodes ==>
        n.right == if n == x.parent && old(n.left) != x then y else old(n.right)
    {
      if x.parent != null {
        if x.parent.left == x {
          x.parent.left := y;
        } else {
          x.parent.right := y;
        }
      } else {
        root := y;
      }
    }

    // The links after a left rotation at x with right child y.
    twostate predicate LeftTurn(x: Node, y: Node)
      requires nodes <= old(nodes) && x in nodes && y in nodes
      reads this, nodes
    {
      && (forall n {:trigger n.left} :: n in nodes ==>
           n.left == if n == y then x else if old(n.left) == x then y else old(n.left))
      && (forall n {:trigger n.right} :: n in nodes ==>
           n.right == if n == x then old(y.left) else if old(n.right) == x then y else old(n.right))
      && (forall n {:trigger n.parent} :: n in nodes ==>
           n.parent == if n == x then y else if n == y then old(x.parent)
                       else if n == old(y.left) then x else old(n.parent))
      && (root == if old(root) == x then y else old(root))
    }

    // The spans after it.
    twostate predicate LeftShift(x: Node, y: Node)
      requires nodes <= old(nodes) && x in nodes && y in nodes
      reads this, nodes
    {
      && (forall n {:trigger n.lo} :: n in nodes ==> n.lo == if n == y then old(x.lo) else old(n.lo))
      && (forall n {:trigger n.hi} :: n in nodes ==>
           n.hi == if n == y then old(x.hi) else if n == x then old(y.pos) else old(n.hi))
      && (forall n {:trigger n.pos} :: n in nodes ==> n.pos == old(n.pos))
    }

    twostate lemma LeftTurnSpans(x: Node)
      requires old(Linked()) && SameNodes()
      requires x in nodes && old(x.right) != null && old(x.right) in nodes
      requires LeftTurn(x, old(x.right)) && LeftShift(x, old(x.right))
      ensures Indexed() && Spans()
    {}

    twostate lemma LeftTurnJoined(x: Node)
      requires old(Linked()) && nodes == old(nodes)
      requires x in nodes && old(x.right) != null && old(x.right) in nodes
      requires LeftTurn(x, old(x.right))
      ensures Joined()
    {}

    twostate lemma LeftTurnBalanced(x: Node)
      requires old(Joined() && Balanced()) && SameNodes()
      requires x in nodes && old(x.right) != null && x != old(x.right) && old(x.right) in nodes && old(x.right.red)
      requires gapAt != old(x.right) && (gapAt == x ==> gapLeft)
      requires LeftTurn(x, old(x.right)) && Exchanged(x, old(x.right))
      ensures Balanced()
    {}

    twostate lemma LeftTurnNoRedPair(x: Node)
      requires old(Linked()) && nodes == old(nodes)
      requires x in nodes && old(x.right) != null && old(x.right) in nodes && old(x.right.red) && !old(x.red)
      requires old(x.left == null || !x.left.red)
      requires old(x.right.left == null || !x.right.left.red)
      requires old(NoRedPair(null, x.right.right))
      requires LeftTurn(x, old(x.right)) && Exchanged(x, old(x.right))
      ensures NoRedPair(null, null)
    {}

    // RB_ROTATE_LEFT.
    method LeftRelink(x: Node) returns (y: Node)
      requires Linked()
      requires x in nodes && x.right != null
      modifies this`root, nodes`left, nodes`right, nodes`parent
      ensures y == old(x.right)
      ensures LeftTurn(x, y)
    {
      y := x.right;
      x.right := y.left;
      if x.right != null {
        y.left.parent := x;
      }
      y.parent := x.parent;
      Reparent(x, y);
      y.left := x;
      x.parent := y;
    }

    // The rotation, with the spans it implies.
    method RotateLeft(x: Node) returns (y: Node)
      requires Linked()
      requires x in nodes && x.right != null
      modifies this`root, nodes`left, nodes`right, nodes`parent, nodes`lo, nodes`hi
      ensures y == old(x.right) && y in nodes
      ensures Linked()
      ensures LeftTurn(x, y) && LeftShift(x, y)
    {
      y := LeftRelink(x);
      y.lo, y.hi, x.hi := x.lo, x.hi, y.pos;
      LeftTurnSpans(x);
      LeftTurnJoined(x);
    }

    method RecolorRotateLeft(x: Node) returns (y: Node)
      requires Linked()
      requires x in nodes && x.right != null && x.right.red && !x.red
      modifies this`root, nodes`left, nodes`right, nodes`parent, nodes`red, nodes`lo, nodes`hi, nodes`bh
      ensures y == old(x.right) && y in nodes
      ensures Linked()
      ensures LeftTurn(x, y) && LeftShift(x, y) && Exchanged(x, y)
    {
      SetBlackRed(x.right, x);
      y := RotateLeft(x);
    }

    // Recolour and rotate: balance is kept and a red pair on the far side disappears.
    method ExchangeLeft(x: Node) returns (y: Node)
      requires Linked() && Balanced()
      requires x in nodes && x.right != null && x.right.red && !x.red
      requires gapAt != x.right && (gapAt == x ==> gapLeft)
      requires x.left == null || !x.left.red
      requires x.right.left == null || !x.right.left.red
      requires NoRedPair(null, x.right.right)
      modifies this`root, nodes`left, nodes`right, nodes`parent, nodes`red, nodes`lo, nodes`hi, nodes`bh
      ensures y == old(x.right) && y in nodes
      ensures Linked() && Balanced()
      ensures LeftTurn(x, y) && LeftShift(x, y) && Exchanged(x, y)
      ensures NoRedPair(null, null)
    {
      y := RecolorRotateLeft(x);
      LeftTurnBalanced(x);
      LeftTurnNoRedPair(x);
    }

    // The links after a right rotation at x with left child y.
    twostate predicate RightTurn(x: Node, y: Node)
      requires nodes <= old(nodes) && x in nodes && y in nodes
      reads this, nodes
    {
      && (forall n {:trigger n.right} :: n in nodes ==>
           n.right == if n == y then x else if old(n.right) == x then y else old(n.right))
      && (forall n {:trigger n.left} :: n in nodes ==>
           n.left == if n == x then old(y.right) else if old(n.left) == x then y else old(n.left))
      && (forall n {:trigger n.parent} :: n in nodes ==>
           n.parent == if n == x then y else if n == y then old(x.parent)
                       else if n == old(y.right) then x else old(n.parent))
      && (root == if old(root) == x then y else old(root))
    }

    // The spans after it.
    twostate predicate RightShift(x: Node, y: Node)
      requires nodes <= old(nodes) && x in nodes && y in nodes
      reads this, nodes
    {
      && (forall n {:trigger n.lo} :: n in nodes ==>
           n.lo == if n == y then old(x.lo) else if n == x then old(y.pos) + 1 else old(n.lo))
      && (forall n {:trigger n.hi} :: n in nodes ==> n.hi == if n == y then old(x.hi) else old(n.hi))
      && (forall n {:trigger n.pos} :: n in nodes ==> n.pos == old(n.pos))
    }

    twostate lemma RightTurnSpans(x: Node)
      requires old(Linked()) && SameNodes()
      requires x in nodes && old(x.left) != null && old(x.left) in nodes
      requires RightTurn(x, old(x.left)) && RightShift(x, old(x.left))
      ensures Indexed() && Spans()
    {}

    twostate lemma RightTurnJoined(x: Node)
      requires old(Linked()) && nodes == old(nodes)
      requires x in nodes && old(x.left) != null && old(x.left) in nodes
      requires RightTurn(x, old(x.left))
      ensures Joined()
    {}

    twostate lemma RightTurnBalanced(x: Node)
      requires old(Joined() && Balanced()) && SameNodes()
      requires x in nodes && old(x.left) != null && x != old(x.left) && old(x.left) in nodes && old(x.left.red)
      requires gapAt != old(x.left) && (gapAt == x ==> !gapLeft)
      requires RightTurn(x, old(x.left)) && Exchanged(x, old(x.left))
      ensures Balanced()
    {}

    twostate lemma RightTurnNoRedPair(x: Node)
      requires old(Linked()) && nodes == old(nodes)
      requires x in nodes && old(x.left) != null && old(x.left) in nodes && old(x.left.red) && !old(x.red)
      requires old(x.right == null || !x.right.red)
      requires old(x.left.right == null || !x.left.right.red)
      requires old(NoRedPair(null, x.left.left))
      requires RightTurn(x, old(x.left)) && Exchanged(x, old(x.left))
      ensures NoRedPair(null, null)
    {}

    // RB_ROTATE_RIGHT.
    method RightRelink(x: Node) returns (y: Node)
      requires Linked()
      requires x in nodes && x.left != null
      modifies this`root, nodes`right, nodes`left, nodes`parent
      ensures y == old(x.left)
      ensures RightTurn(x, y)
    {
      y := x.left;
      x.left := y.right;
      if x.left != null {
        y.right.parent := x;
      }
      y.parent := x.parent;
      Reparent(x, y);
      y.right := x;
      x.parent := y;
    }

    // The rotation, with the spans it implies.
    method RotateRight(x: Node) returns (y: Node)
      requires Linked()
      requires x in nodes && x.left != null
      modifies this`root, nodes`right, nodes`left, nodes`parent, nodes`lo, nodes`hi
      ensures y == old(x.left) && y in nodes
      ensures Linked()
      ensures RightTurn(x, y) && RightShift(x, y)
    {
      y := RightRelink(x);
      y.lo, y.hi, x.lo := x.lo, x.hi, y.pos + 1;
      RightTurnSpans(x);
      RightTurnJoined(x);
    }

    method RecolorRotateRight(x: Node) returns (y: Node)
      requires Linked()
      requires x in nodes && x.left != null && x.left.red && !x.red
      modifies this`root, nodes`right, nodes`left, nodes`parent, nodes`red, nodes`lo, nodes`hi, nodes`bh
      ensures y == old(x.left) && y in nodes
      ensures Linked()
      ensures RightTurn(x, y) && RightShift(x, y) && Exchanged(x, y)
    {
      SetBlackRed(x.left, x);
      y := RotateRight(x);
    }

    // Recolour and rotate: balance is kept and a red pair on the far side disappears.
    method ExchangeRight(x: Node) returns (y: Node)
      requires Linked() && Balanced()
      requires x in nodes && x.left != null && x.left.red && !x.red
      requires gapAt != x.left && (gapAt == x ==> !gapLeft)
      requires x.right == null || !x.right.red
      requires x.left.right == null || !x.left.right.red
      requires NoRedPair(null, x.left.left)
      modifies this`root, nodes`right, nodes`left, nodes`parent, nodes`red, nodes`lo, nodes`hi, nodes`bh
      ensures y == old(x.left) && y in nodes
      ensures Linked() && Balanced()
      ensures RightTurn(x, y) && RightShift(x, y) && Exchanged(x, y)
      ensures NoRedPair(null, null)
    {
      y := RecolorRotateRight(x);
      RightTurnBalanced(x);
      RightTurnNoRedPair(x);
    }

    // ---------- insertion fixup, parent on the left ----------

    twostate lemma LeftTurnMovesRedPair(x: Node)
      requires old(Linked()) && SameNodes()
      requires x in nodes && old(x.right) != null && old(x.right) in nodes && old(x.right.red) && old(x.red)
      requires old(x.parent != null && x.parent in nodes && !x.parent.red)
      requires old(NoRedPair(null, x.right))
      requires LeftTurn(x, old(x.right)) && forall n {:trigger n.red} :: n in nodes ==> n.red == old(n.red)
      ensures NoRedPair(null, x)
    {}

    // inner child becomes outer child
    method StraightenLeft(x: Node) returns (y: Node)
      requires Linked() && Balanced() && gapAt == null
      requires x in nodes && x.red && x.right != null && x.right.red
      requires x.parent != null && !x.parent.red
      requires NoRedPair(null, x.right)
      modifies this`root, nodes`left, nodes`right, nodes`parent, nodes`lo, nodes`hi
      ensures y == old(x.right) && y in nodes
      ensures Linked() && Balanced()
      ensures LeftTurn(x, y) && LeftShift(x, y)
      ensures NoRedPair(null, x)
    {
      y := RotateLeft(x);
      LeftTurnBalanced(x);
      LeftTurnMovesRedPair(x);
    }

    // The last steps of an insertion whose red parent is a left child with a black uncle.
    method LiftLeft(elm: Node) returns (top: Node)
      requires Settling(elm)
      requires elm.parent != null && elm.parent.red && elm.parent.parent != null && elm.parent == elm.parent.parent.left
      requires elm.parent.parent.right == null || !elm.parent.parent.right.red
      modifies this`root, nodes`left, nodes`right, nodes`parent, nodes`red, nodes`lo, nodes`hi, nodes`bh
      ensures top in nodes && top.red && top.parent != null && !top.parent.red
      ensures Settling(top)
      ensures NoRedPair(null, null)
    {
      var parent, gparent := elm.parent, elm.parent.parent;
      top := elm;
      if parent.right == elm {
        var tmp := StraightenLeft(parent);
        top, parent := parent, tmp;
      }
      var y := ExchangeRight(gparent);
    }

    // ---------- removal fixup, gap on the left ----------

    // A gap on the left of x whose sibling's far child is red.
    ghost predicate FarRedLeft(x: Node) reads this, nodes
    {
      && Balanced() && gapAt == x && gapLeft && NoRedPair(null, null)
      && x in nodes && x.right != null && x.right in nodes && x.right.right in nodes && x != x.right
      && x != x.right.right && x.right != x.right.right && (x.left == null || x.left in nodes) && !x.right.red
      && x.right.right != null && x.right.right.red
      && (x.left == null || !x.left.red)
    }

    twostate predicate ClosedLeft(x: Node)
      requires nodes <= old(nodes) && x in nodes && old(x.right) != null && old(x.right) in nodes
      requires old(x.right.right) != null && old(x.right.right) in nodes
      reads this, nodes
    {
      LeftTurn(x, old(x.right)) && PaintedFar(x, old(x.right), old(x.right.right))
    }

    twostate lemma ClosedLeftBalance(x: Node)
      requires old(Joined()) && old(FarRedLeft(x))
      requires nodes == old(nodes) && gapAt == null
      requires x in nodes && old(x.right) in nodes && old(x.right.right) in nodes
      requires ClosedLeft(x)
      ensures Balanced()
    {}

    twostate lemma ClosedLeftRed(x: Node)
      requires old(Joined()) && old(FarRedLeft(x))
      requires nodes == old(nodes)
      requires x in nodes && old(x.right) in nodes && old(x.right.right) in nodes
      requires ClosedLeft(x)
      ensures NoRedPair(null, null)
    {}

    method FarRotateLeft(x: Node) returns (y: Node)
      requires Linked() && FarRedLeft(x)
      modifies this`root, this`gapAt, nodes`left, nodes`right, nodes`parent, nodes`red, nodes`lo, nodes`hi, nodes`bh
      ensures y == old(x.right) && y in nodes && old(x.right.right) in nodes
      ensures Linked() && ClosedLeft(x) && gapAt == null
    {
      PaintFar(x, x.right, x.right.right);
      y := RotateLeft(x);
    }

    // Closes the gap by recolouring and rotating.
    method FinishLeft(x: Node) returns (y: Node)
      requires Linked() && FarRedLeft(x)
      modifies this`root, this`gapAt, nodes`left, nodes`right, nodes`parent, nodes`red, nodes`lo, nodes`hi, nodes`bh
      ensures y == old(x.right) && y in nodes
      ensures root == (if old(root) == x then y else old(root)) && y.red == old(x.red)
      ensures forall n {:trigger n.red} :: n in nodes && n.red && n != y ==> old(n.red)
      ensures Linked() && Balanced() && gapAt == null && NoRedPair(null, null)
    {
      y := FarRotateLeft(x);
      ClosedLeftBalance(x);
      ClosedLeftRed(x);
    }

    // A red sibling is rotated away.
    method BlackSiblingLeft(elm: Node?, parent: Node)
      requires Fading(elm, parent) && gapLeft && (elm == null || !elm.red)
      modifies this`root, nodes`left, nodes`right, nodes`parent, nodes`red, nodes`lo, nodes`hi, nodes`bh
      ensures Fading(elm, parent) && NoRedPair(null, null) && root in nodes && !root.red
      ensures parent.right != null && !parent.right.red && (elm == null || !elm.red)
      ensures parent.red || parent.hi - parent.lo == old(parent.hi - parent.lo)
    {
      if parent.right.red {
        var tmp := ExchangeLeft(parent);
      }
    }

    // The sibling has a red child: the gap is closed for good.
    method CloseGapLeft(parent: Node, tmp: Node)
      requires Linked() && Balanced() && gapAt == parent && gapLeft && NoRedPair(null, null) && root in nodes
      requires !root.red
      requires parent in nodes && parent.right == tmp && !tmp.red && (parent.left == null || !parent.left.red)
      requires !NephewsBlack(tmp)
      modifies this`root, this`gapAt, nodes`left, nodes`right, nodes`parent, nodes`red, nodes`lo, nodes`hi, nodes`bh
      ensures Fading(root, null)
    {
      if tmp.right == null || !tmp.right.red {
        var oleft := ExchangeRight(tmp);
      }
      var top := FinishLeft(parent);
    }

    // One turn of the removal fixup with the gap on the left.
    method FixLeft(elm: Node?, parent: Node) returns (elm': Node?, parent': Node?)
      requires Fading(elm, parent) && gapLeft && (elm == null || !elm.red)
      modifies this`root, this`gapAt, this`gapLeft, nodes`left, nodes`right, nodes`parent, nodes`red, nodes`lo
      modifies nodes`hi, nodes`bh
      ensures Fading(elm', parent')
      ensures (elm' != null && elm'.red) || elm' == root || old(parent.hi - parent.lo) < parent'.hi - parent'.lo
    {
      BlackSiblingLeft(elm, parent);
      var tmp := parent.right;
      if (tmp.left == null || !tmp.left.red) && (tmp.right == null || !tmp.right.red) {
        PushGap(parent, tmp);
        elm', parent' := parent, parent.parent;
      } else {
        CloseGapLeft(parent, tmp);
        elm', parent' := root, null;
      }
    }

    // ---------- insertion fixup, parent on the right ----------

    twostate lemma RightTurnMovesRedPair(x: Node)
      requires old(Linked()) && SameNodes()
      requires x in nodes && old(x.left) != null && old(x.left) in nodes && old(x.left.red) && old(x.red)
      requires old(x.parent != null && x.parent in nodes && !x.parent.red)
      requires old(NoRedPair(null, x.left))
      requires RightTurn(x, old(x.left)) && forall n {:trigger n.red} :: n in nodes ==> n.red == old(n.red)
      ensures NoRedPair(null, x)
    {}

    // inner child becomes outer child
    method StraightenRight(x: Node) returns (y: Node)
      requires Linked() && Balanced() && gapAt == null
      requires x in nodes && x.red && x.left != null && x.left.red
      requires x.parent != null && !x.parent.red
      requires NoRedPair(null, x.left)
      modifies this`root, nodes`right, nodes`left, nodes`parent, nodes`lo, nodes`hi
      ensures y == old(x.left) && y in nodes
      ensures Linked() && Balanced()
      ensures RightTurn(x, y) && RightShift(x, y)
      ensures NoRedPair(null, x)
    {
      y := RotateRight(x);
      RightTurnBalanced(x);
      RightTurnMovesRedPair(x);
    }

    // The last steps of an insertion whose red parent is a right child with a black uncle.
    method LiftRight(elm: Node) returns (top: Node)
      requires Settling(elm)
      requires elm.parent != null && elm.parent.red && elm.parent.parent != null
      requires elm.parent == elm.parent.parent.right
      requires elm.parent.parent.left == null || !elm.parent.parent.left.red
      modifies this`root, nodes`right, nodes`left, nodes`parent, nodes`red, nodes`lo, nodes`hi, nodes`bh
      ensures top in nodes && top.red && top.parent != null && !top.parent.red
      ensures Settling(top)
      ensures NoRedPair(null, null)
    {
      var parent, gparent := elm.parent, elm.parent.parent;
      top := elm;
      if parent.left == elm {
        var tmp := StraightenRight(parent);
        top, parent := parent, tmp;
      }
      var y := ExchangeLeft(gparent);
    }

    // ---------- removal fixup, gap on the right ----------

    // A gap on the right of x whose sibling's far child is red.
    ghost predicate FarRedRight(x: Node) reads this, nodes
    {
      && Balanced() && gapAt == x && !gapLeft && NoRedPair(null, null)
      && x in nodes && x.left != null && x.left in nodes && x.left.left in nodes && x != x.left
      && x != x.left.left && x.left != x.left.left && (x.right == null || x.right in nodes) && !x.left.red
      && x.left.left != null && x.left.left.red
      && (x.right == null || !x.right.red)
    }

    twostate predicate ClosedRight(x: Node)
      requires nodes <= old(nodes) && x in nodes && old(x.left) != null && old(x.left) in nodes
      requires old(x.left.left) != null && old(x.left.left) in nodes
      reads this, nodes
    {
      RightTurn(x, old(x.left)) && PaintedFar(x, old(x.left), old(x.left.left))
    }

    twostate lemma ClosedRightBalance(x: Node)
      requires old(Joined()) && old(FarRedRight(x))
      requires nodes == old(nodes) && gapAt == null
      requires x in nodes && old(x.left) in nodes && old(x.left.left) in nodes
      requires ClosedRight(x)
      ensures Balanced()
    {}

    twostate lemma ClosedRightRed(x: Node)
      requires old(Joined()) && old(FarRedRight(x))
      requires nodes == old(nodes)
      requires x in nodes && old(x.left) in nodes && old(x.left.left) in nodes
      requires ClosedRight(x)
      ensures NoRedPair(null, null)
    {}

    method FarRotateRight(x: Node) returns (y: Node)
      requires Linked() && FarRedRight(x)
      modifies this`root, this`gapAt, nodes`right, nodes`left, nodes`parent, nodes`red, nodes`lo, nodes`hi, nodes`bh
      ensures y == old(x.left) && y in nodes && old(x.left.left) in nodes
      ensures Linked() && ClosedRight(x) && gapAt == null
    {
      PaintFar(x, x.left, x.left.left);
      y := RotateRight(x);
    }

    // Closes the gap by recolouring and rotating.
    method FinishRight(x: Node) returns (y: Node)
      requires Linked() && FarRedRight(x)
      modifies this`root, this`gapAt, nodes`right, nodes`left, nodes`parent, nodes`red, nodes`lo, nodes`hi, nodes`bh
      ensures y == old(x.left) && y in nodes
      ensures root == (if old(root) == x then y else old(root)) && y.red == old(x.red)
      ensures forall n {:trigger n.red} :: n in nodes && n.red && n != y ==> old(n.red)
      ensures Linked() && Balanced() && gapAt == null && NoRedPair(null, null)
    {
      y := FarRotateRight(x);
      ClosedRightBalance(x);
      ClosedRightRed(x);
    }

    // A red sibling is rotated away.
    method BlackSiblingRight(elm: Node?, parent: Node)
      requires Fading(elm, parent) && !gapLeft && (elm == null || !elm.red)
      modifies this`root, nodes`right, nodes`left, nodes`parent, nodes`red, nodes`lo, nodes`hi, nodes`bh
      ensures Fading(elm, parent) && NoRedPair(null, null) && root in nodes && !root.red
      ensures parent.left != null && !parent.left.red && (elm == null || !elm.red)
      ensures parent.red || parent.hi - parent.lo == old(parent.hi - parent.lo)
    {
      if parent.left.red {
        var tmp := ExchangeRight(parent);
      }
    }

    // The sibling has a red child: the gap is closed for good.
    method CloseGapRight(parent: Node, tmp: Node)
      requires Linked() && Balanced() && gapAt == parent && !gapLeft && NoRedPair(null, null) && root in nodes
      requires !root.red
      requires parent in nodes && parent.left == tmp && !tmp.red && (parent.right == null || !parent.right.red)
      requires !NephewsBlack(tmp)
      modifies this`root, this`gapAt, nodes`right, nodes`left, nodes`parent, nodes`red, nodes`lo, nodes`hi, nodes`bh
      ensures Fading(root, null)
    {
      if tmp.left == null || !tmp.left.red {
        var oright := ExchangeLeft(tmp);
      }
      var top := FinishRight(parent);
    }

    // One turn of the removal fixup with the gap on the right.
    method FixRight(elm: Node?, parent: Node) returns (elm': Node?, parent': Node?)
      requires Fading(elm, parent) && !gapLeft && (elm == null || !elm.red)
      modifies this`root, this`gapAt, this`gapLeft, nodes`right, nodes`left, nodes`parent, nodes`red, nodes`lo
      modifies nodes`hi, nodes`bh
      ensures Fading(elm', parent')
      ensures (elm' != null && elm'.red) || elm' == root || old(parent.hi - parent.lo) < parent'.hi - parent'.lo
    {
      BlackSiblingRight(elm, parent);
      var tmp := parent.left;
      if (tmp.right == null || !tmp.right.red) && (tmp.left == null || !tmp.left.red) {
        PushGap(parent, tmp);
        elm', parent' := parent, parent.parent;
      } else {
        CloseGapRight(parent, tmp);
        elm', parent' := root, null;
      }
    }

    twostate predicate PaintedFar(x: Node, y: Node, r: Node)
      requires nodes <= old(nodes) && x in nodes && y in nodes && r in nodes
      reads this, nodes
    {
      && (forall n {:trigger n.red} :: n in nodes ==>
           n.red == if n == y then old(x.red) else n != x && n != r && old(n.red))
      && (forall n {:trigger n.bh} :: n in nodes ==>
           n.bh == if n == y then old(x.bh) else if n == x then old(y.bh) else old(n.bh) + if n == r then 1 else 0)
    }

    method RecolorFar(x: Node, y: Node, r: Node)
      requires x in nodes && y in nodes && r in nodes && x != y && y != r && x != r
      modifies this`gapAt, nodes`red, nodes`bh
      ensures PaintedFar(x, y, r) && gapAt == null
    {
      gapAt := null;
      y.red := x.red;
      x.red := false;
      r.red := false;
      y.bh, x.bh, r.bh := x.bh, y.bh, r.bh + 1;
    }

    method PaintFar(x: Node, y: Node, r: Node)
      requires Linked() && x in nodes && y in nodes && r in nodes && x != y && y != r && x != r
      modifies this`gapAt, nodes`red, nodes`bh
      ensures Linked()
      ensures PaintedFar(x, y, r) && gapAt == null
    {
      RecolorFar(x, y, r);
      SameLinks();
    }

    // A tree whose only fault may be that elm and its parent, or elm as root, are red.
    ghost predicate Settling(elm: Node) reads this, nodes {
      && Linked() && Balanced() && gapAt == null && elm in nodes && elm.red && NoRedPair(null, elm)
      && (root != null ==> root in nodes && (root.red ==> root == elm))
    }

    ghost function Uncle(elm: Node): Node?
      requires elm in nodes && elm.parent != null && elm.parent in nodes && elm.parent.parent != null
      requires elm.parent.parent in nodes
      reads this, nodes
    {
      if elm.parent == elm.parent.parent.left then elm.parent.parent.right else elm.parent.parent.left
    }

    twostate predicate Recolored(uncle: Node, parent: Node, gparent: Node)
      requires nodes <= old(nodes) && uncle in nodes && parent in nodes && gparent in nodes
      reads this, nodes
    {
      && (forall n {:trigger n.red} :: n in nodes ==>
           n.red == (n == gparent || (n != uncle && n != parent && old(n.red))))
      && (forall n {:trigger n.bh} :: n in nodes ==> n.bh == old(n.bh) + if n == uncle || n == parent then 1 else 0)
    }

    twostate lemma RecolorKeepsBalance(elm: Node)
      requires old(Settling(elm)) && SameNodes() && root == old(root) && SameShape()
      requires elm in nodes && old(elm.parent) != null && old(elm.parent.red) && old(elm.parent.parent) != null
      requires old(Uncle(elm)) != null && old(Uncle(elm).red)
      requires Recolored(old(Uncle(elm)), old(elm.parent), old(elm.parent.parent))
      ensures Balanced()
    {}

    twostate lemma RecolorKeepsRed(elm: Node)
      requires old(Settling(elm)) && SameNodes() && root == old(root) && SameShape()
      requires elm in nodes && old(elm.parent) != null && old(elm.parent.red) && old(elm.parent.parent) != null
      requires old(Uncle(elm)) != null && old(Uncle(elm).red)
      requires Recolored(old(Uncle(elm)), old(elm.parent), old(elm.parent.parent))
      ensures NoRedPair(null, old(elm.parent.parent)) && root != null && (root.red ==> root == old(elm.parent.parent))
    {}

    method Paint(uncle: Node, parent: Node, gparent: Node)
      requires uncle in nodes && parent in nodes && gparent in nodes
      requires uncle != parent && uncle != gparent && parent != gparent
      modifies nodes`red, nodes`bh
      ensures Recolored(uncle, parent, gparent)
    {
      uncle.red := false;
      parent.red := false;
      gparent.red := true;
      uncle.bh, parent.bh := uncle.bh + 1, parent.bh + 1;
    }

    // A red uncle: the fault moves up to the grandparent.
    method RecolorUncle(elm: Node, uncle: Node, parent: Node, gparent: Node)
      requires Settling(elm) && elm.parent == parent && parent.red && parent.parent == gparent
      requires Uncle(elm) == uncle && uncle.red
      modifies nodes`red, nodes`bh
      ensures Settling(gparent)
    {
      Paint(uncle, parent, gparent);
      SameLinks();
      RecolorKeepsBalance(elm);
      RecolorKeepsRed(elm);
    }

    // One turn of the insertion fixup.
    method InsertStep(elm: Node) returns (next: Node)
      requires Settling(elm) && elm.parent != null && elm.parent.red
      modifies this`root, nodes`left, nodes`right, nodes`parent, nodes`red, nodes`lo, nodes`hi, nodes`bh
      ensures Settling(next)
      ensures next.parent == null || !next.parent.red || old(elm.hi - elm.lo) < next.hi - next.lo
    {
      var parent := elm.parent;
      var gparent := parent.parent;
      if parent == gparent.left {
        var tmp := gparent.right;
        if tmp != null && tmp.red {
          RecolorUncle(elm, tmp, parent, gparent);
          next := gparent;
        } else {
          next := LiftLeft(elm);
        }
      } else {
        var tmp := gparent.left;
        if tmp != null && tmp.red {
          RecolorUncle(elm, tmp, parent, gparent);
          next := gparent;
        } else {
          next := LiftRight(elm);
        }
      }
    }

    // RB_INSERT_COLOR.
    method InsertColor(e: Node)
      requires Settling(e)
      modifies this`root, nodes`left, nodes`right, nodes`parent, nodes`red, nodes`lo, nodes`hi, nodes`bh
      ensures Linked() && Balanced() && NoRedPair(null, null)
      ensures root in nodes && !root.red
    {
      var elm: Node := e;
      while elm.parent != null && elm.parent.red
        invariant Settling(elm)
        decreases if elm.parent != null && elm.parent.red then |order| + 1 - (elm.hi - elm.lo) else 0
      {
        elm := InsertStep(elm);
      }
      BlackenRoot(elm);
    }

    twostate lemma BlackRoot()
      requires old(root) != null && root == old(root) && SameNodes()
      requires old(Linked() && Balanced() && gapAt == null && root in nodes)
      requires old(NoRedPair(null, root))
      requires SameShape() && SameIndex()
      requires forall n {:trigger n.red} :: n in nodes ==> n.red == (n != root && old(n.red))
      requires forall n {:trigger n.bh} :: n in nodes ==> n.bh == old(n.bh) + if n == root && old(n.red) then 1 else 0
      ensures Linked() && Balanced() && NoRedPair(null, null)
    {
      SameLinks();
    }

    // The root ends up black.
    method BlackenRoot(ghost elm: Node)
      requires Settling(elm) && (elm.parent == null || !elm.parent.red)
      modifies nodes`red, nodes`bh
      ensures Linked() && Balanced() && NoRedPair(null, null)
      ensures root in nodes && !root.red
    {
      if root.red { root.bh := root.bh + 1; }
      root.red := false;
      BlackRoot();
    }

    // elm, the child of parent, roots a subtree one black node short
    ghost predicate Fading(elm: Node?, parent: Node?) reads this, nodes {
      && Linked() && Balanced() && gapAt == parent && NoRedPair(elm, elm)
      && (elm != null ==> elm in nodes && elm.parent == parent)
      && (if parent == null then elm == root
          else parent in nodes && elm == (if gapLeft then parent.left else parent.right))
      && (root != null ==> root in nodes && (root.red ==> root == elm))
    }

    ghost function Sibling(): Node?
      requires gapAt != null && gapAt in nodes
      reads this, nodes
    {
      if gapLeft then gapAt.right else gapAt.left
    }

    twostate predicate PaintedSibling(parent: Node, sib: Node)
      requires nodes <= old(nodes) && parent in nodes && sib in nodes
      reads this, nodes
    {
      && (forall n {:trigger n.red} :: n in nodes ==> n.red == (n == sib || old(n.red)))
      && (forall n {:trigger n.bh} :: n in nodes ==> n.bh == old(n.bh) - if n == sib || n == parent then 1 else 0)
      && gapAt == old(parent.parent) && (gapAt != null ==> gapAt in nodes && gapLeft == (gapAt.left == parent))
    }

    method PaintSibling(parent: Node, sib: Node)
      requires parent in nodes && sib in nodes && parent != sib && (parent.parent == null || parent.parent in nodes)
      modifies this`gapAt, this`gapLeft, nodes`red, nodes`bh
      ensures PaintedSibling(parent, sib)
    {
      sib.red := true;
      sib.bh, parent.bh := sib.bh - 1, parent.bh - 1;
      gapAt, gapLeft := parent.parent, parent.parent != null && parent.parent.left == parent;
    }

    ghost predicate NephewsBlack(sib: Node) reads this, nodes, sib {
      && !sib.red && (sib.left == null || sib.left !in nodes || !sib.left.red)
      && (sib.right == null || sib.right !in nodes || !sib.right.red)
    }

    twostate lemma PaintSiblingBalanced(sib: Node)
      requires old(Joined() && Balanced() && gapAt != null && gapAt in nodes && Sibling() == sib && !sib.red)
      requires old(gapAt != null && gapAt != sib && gapAt.parent != sib)
      requires nodes == old(nodes) && sib in nodes && SameShape() && PaintedSibling(old(gapAt), sib)
      ensures Balanced()
    {}

    twostate lemma PaintSiblingRed(sib: Node)
      requires old(Linked() && gapAt != null && gapAt in nodes && Sibling() == sib && NephewsBlack(sib))
      requires old(NoRedPair(null, null))
      requires nodes == old(nodes) && sib in nodes && SameShape() && PaintedSibling(old(gapAt), sib)
      ensures NoRedPair(old(gapAt), null)
    {}

    // The sibling turns red and the gap moves up.
    method PushGap(parent: Node, sib: Node)
      requires Linked() && Balanced() && gapAt == parent && parent in nodes && Sibling() == sib && sib in nodes
      requires NephewsBlack(sib)
      requires NoRedPair(null, null)
      requires root in nodes && !root.red
      modifies this`gapAt, this`gapLeft, nodes`red, nodes`bh
      ensures Fading(parent, parent.parent) && parent.red == old(parent.red)
    {
      PaintSibling(parent, sib);
      SameLinks();
      PaintSiblingBalanced(sib);
      PaintSiblingRed(sib);
    }

    // RB_REMOVE_COLOR.
    method RemoveColor(p: Node?, e: Node?)
      requires Fading(e, p)
      modifies this`root, this`gapAt, this`gapLeft, nodes`left, nodes`right, nodes`parent, nodes`red, nodes`lo
      modifies nodes`hi, nodes`bh
      ensures Linked() && Balanced() && gapAt == null && NoRedPair(null, null)
      ensures root != null ==> root in nodes && !root.red
    {
      var elm, parent := e, p;
      while (elm == null || !elm.red) && elm != root
        invariant Fading(elm, parent)
        decreases if (elm == null || !elm.red) && elm != root then |order| + 1 - (parent.hi - parent.lo) else 0
      {
        if parent.left == elm {
          elm, parent := FixLeft(elm, parent);
        } else {
          elm, parent := FixRight(elm, parent);
        }
      }
      if elm != null {
        BlackenTop(elm, parent);
      }
    }

    // elm turned black and took up the gap.
    twostate predicate Blackened(elm: Node)
      requires nodes <= old(nodes)
      reads this, nodes
    {
      && gapAt == null
      && (forall n {:trigger n.red} :: n in nodes ==> n.red == (n != elm && old(n.red)))
      && (forall n {:trigger n.bh} :: n in nodes ==> n.bh == old(n.bh) + if n == elm && old(n.red) then 1 else 0)
    }

    twostate lemma BlackTopBalanced(elm: Node)
      requires old(Linked() && Balanced() && elm in nodes)
      requires nodes == old(nodes) && SameShape() && Blackened(elm)
      requires old(gapAt == elm.parent && (gapAt != null ==> gapAt in nodes && elm.red))
      requires old(gapAt != null ==> elm == if gapLeft then gapAt.left else gapAt.right)
      ensures Balanced()
    {}

    twostate lemma BlackTopRed(elm: Node)
      requires old(elm in nodes && NoRedPair(elm, elm)) && nodes == old(nodes) && SameShape() && Blackened(elm)
      ensures NoRedPair(null, null)
    {}

    method PaintTop(elm: Node)
      requires elm in nodes
      modifies this`gapAt, nodes`red, nodes`bh
      ensures Blackened(elm)
    {
      gapAt := null;
      if elm.red { elm.bh := elm.bh + 1; }
      elm.red := false;
    }

    // The node above the gap turns black and takes it up.
    method BlackenTop(elm: Node, ghost parent: Node?)
      requires Fading(elm, parent) && (elm.red || elm == root)
      modifies this`gapAt, nodes`red, nodes`bh
      ensures Linked() && Balanced() && gapAt == null && NoRedPair(null, null)
      ensures root in nodes && !root.red
    {
      PaintTop(elm);
      SameLinks();
      BlackTopBalanced(elm);
      BlackTopRed(elm);
    }

    // ---------- unlinking a node with at most one child ----------

    ghost function Only(x: Node): Node? reads x { if x.left == null then x.right else x.left }

    // The links after x, with at most one child, was taken out.
    twostate predicate Spliced(x: Node)
      requires nodes <= old(nodes) && x in old(nodes)
      reads this, nodes
    {
      && (forall n {:trigger n.left} :: n in nodes ==> n.left == if old(n.left) == x then old(Only(x)) else old(n.left))
      && (forall n {:trigger n.right} :: n in nodes ==>
           n.right == if old(n.right) == x then old(Only(x)) else old(n.right))
      && (forall n {:trigger n.parent} :: n in nodes ==>
           n.parent == if n == old(Only(x)) then old(x.parent) else old(n.parent))
      && (root == if old(root) == x then old(Only(x)) else old(root))
    }

    // The places after it.
    twostate predicate Renumbered(x: Node)
      requires nodes <= old(nodes) && x in old(nodes)
      reads this, nodes
    {
      && (forall n {:trigger n.lo} :: n in nodes ==> n.lo == old(n.lo) - if old(n.lo) > old(x.pos) then 1 else 0)
      && (forall n {:trigger n.hi} :: n in nodes ==> n.hi == old(n.hi) - if old(n.hi) > old(x.pos) then 1 else 0)
      && (forall n {:trigger n.pos} :: n in nodes ==> n.pos == old(n.pos) - if old(n.pos) > old(x.pos) then 1 else 0)
      && 0 <= old(x.pos) < |old(order)|
      && order == old(order)[..old(x.pos)] + old(order)[old(x.pos) + 1..]
    }

    twostate lemma SpliceJoined(x: Node)
      requires old(Linked() && x in nodes && (x.left == null || x.right == null)) && nodes == old(nodes) - {x}
      requires Spliced(x)
      ensures Joined()
    {}

    twostate lemma SpliceIndexed(x: Node)
      requires old(Indexed() && x in nodes) && nodes == old(nodes) - {x}
      requires Renumbered(x)
      ensures Indexed()
    {}

    twostate lemma SpliceSpans(x: Node)
      requires old(Linked() && x in nodes && (x.left == null || x.right == null)) && nodes == old(nodes) - {x}
      requires Spliced(x) && Renumbered(x)
      ensures Spans()
    {}

    method Splice(x: Node) returns (child: Node?, parent: Node?)
      requires Linked() && x in nodes && (x.left == null || x.right == null)
      modifies this`root, nodes`left, nodes`right, nodes`parent
      ensures child == old(Only(x)) && parent == old(x.parent)
      ensures x.left == old(x.left) && x.right == old(x.right) && x.parent == old(x.parent)
      ensures forall n {:trigger n.left} :: n in nodes && n != x ==>
        n.left == if old(n.left) == x then child else old(n.left)
      ensures forall n {:trigger n.right} :: n in nodes && n != x ==>
        n.right == if old(n.right) == x then child else old(n.right)
      ensures forall n {:trigger n.parent} :: n in nodes && n != x ==>
        n.parent == if n == child then parent else old(n.parent)
      ensures root == if old(root) == x then child else old(root)
    {
      child := if x.left == null then x.right else x.left;
      parent := x.parent;
      if child != null {
        child.parent := parent;
      }
      Reparent(x, child);
    }

    ghost method Renumber(x: Node, onLeft: bool)
      requires x in nodes && 0 <= x.pos < |order|
      modifies this`nodes, this`order, this`gapAt, this`gapLeft, nodes`lo, nodes`hi, nodes`pos
      ensures gapAt == (if x.red then null else x.parent) && gapLeft == onLeft
      ensures nodes == old(nodes) - {x}
      ensures Renumbered(x)
    {
      var a := x.pos;
      gapAt, gapLeft := if x.red then null else x.parent, onLeft;
      order := order[..a] + order[a + 1..];
      nodes := nodes - {x};
      forall n | n in nodes { n.lo := n.lo - if n.lo > a then 1 else 0; }
      forall n | n in nodes { n.hi := n.hi - if n.hi > a then 1 else 0; }
      forall n | n in nodes { n.pos := n.pos - if n.pos > a then 1 else 0; }
    }

    twostate predicate CutOut(x: Node)
      reads this, nodes
    {
      x in old(nodes) && nodes == old(nodes) - {x} && Spliced(x) && Renumbered(x)
    }

    method Cut(x: Node) returns (child: Node?, parent: Node?)
      requires Linked() && x in nodes && (x.left == null || x.right == null)
      modifies this, nodes`left, nodes`right, nodes`parent, nodes`lo, nodes`hi, nodes`pos
      ensures child == old(Only(x)) && parent == old(x.parent) && CutOut(x)
      ensures gapAt == (if x.red then null else parent) && gapLeft == old(x.parent != null && x.parent.left == x)
      ensures x.left == old(x.left) && x.right == old(x.right) && x.parent == old(x.parent)
    {
      ghost var onLeft := x.parent != null && x.parent.left == x;
      child, parent := Splice(x);
      Renumber(x, onLeft);
    }

    twostate lemma CutLinked(x: Node)
      requires old(Linked() && x in nodes && (x.left == null || x.right == null)) && CutOut(x)
      ensures Linked()
    {
      SpliceJoined(x);
      SpliceIndexed(x);
      SpliceSpans(x);
    }

    method Unlink(x: Node) returns (child: Node?, parent: Node?)
      requires Linked() && x in nodes && (x.left == null || x.right == null)
      modifies this, nodes`left, nodes`right, nodes`parent, nodes`lo, nodes`hi, nodes`pos
      ensures child == old(Only(x)) && parent == old(x.parent)
      ensures gapAt == (if x.red then null else parent) && gapLeft == old(x.parent != null && x.parent.left == x)
      ensures x.left == old(x.left) && x.right == old(x.right) && x.parent == old(x.parent)
      ensures Linked() && CutOut(x)
    {
      child, parent := Cut(x);
      CutLinked(x);
    }

    // the colour side of unlinking: a black node leaves a gap behind
    twostate predicate SameColors() requires nodes <= old(nodes) reads this, nodes {
      && (forall n {:trigger n.red} :: n in nodes ==> n.red == old(n.red))
      && (forall n {:trigger n.bh} :: n in nodes ==> n.bh == old(n.bh))
    }

    twostate lemma SpliceBalanced(x: Node)
      requires old(Linked() && Balanced() && gapAt == null && x in nodes && (x.left == null || x.right == null))
      requires nodes == old(nodes) - {x}
      requires Spliced(x) && SameColors()
      requires gapAt == if old(x.red) then null else old(x.parent)
      requires !old(x.red) && old(x.parent) != null ==> gapLeft == old(x.parent.left == x)
      ensures Balanced()
    {}

    twostate lemma SpliceRed(x: Node)
      requires old(Linked() && NoRedPair(null, null) && x in nodes && (x.left == null || x.right == null))
      requires nodes == old(nodes) - {x}
      requires Spliced(x) && SameColors()
      ensures NoRedPair(null, old(Only(x)))
      ensures old(x.red) ==> NoRedPair(null, null)
    {}

    // The colour rules of a tree at rest.
    ghost predicate Colored() reads this, nodes {
      && Balanced() && gapAt == null && NoRedPair(null, null) && (root != null ==> root in nodes && !root.red)
    }

    // Takes out a node with at most one child.
    method Detach(x: Node) returns (child: Node?, parent: Node?)
      requires Linked() && Colored() && x in nodes && (x.left == null || x.right == null)
      modifies this, nodes`left, nodes`right, nodes`parent, nodes`lo, nodes`hi, nodes`pos
      ensures child == old(Only(x)) && parent == old(x.parent)
      ensures nodes == old(nodes) - {x}
      ensures x.left == old(x.left) && x.right == old(x.right) && x.parent == old(x.parent)
      ensures Linked() && CutOut(x)
      ensures if x.red then Colored() else Fading(child, parent)
    {
      child, parent := Unlink(x);
      SpliceBalanced(x);
      SpliceRed(x);
    }

    // ---------- the successor takes over the removed node's place ----------

    // The links after s took the place of z.
    twostate predicate Swapped(z: Node, s: Node)
      requires z in old(nodes) && nodes == old(nodes) - {z} + {s} && s !in old(nodes)
      reads this, nodes
    {
      && (forall n {:trigger n.left} :: n in nodes && n != s ==> n.left == if old(n.left) == z then s else old(n.left))
      && (forall n {:trigger n.right} :: n in nodes && n != s ==>
           n.right == if old(n.right) == z then s else old(n.right))
      && (forall n {:trigger n.parent} :: n in nodes && n != s ==>
           n.parent == if old(n.parent) == z then s else old(n.parent))
      && s.left == old(z.left) && s.right == old(z.right) && s.parent == old(z.parent)
      && (root == if old(root) == z then s else old(root))
    }

    // Everything else after it.
    twostate predicate SwappedRest(z: Node, s: Node)
      requires z in old(nodes) && nodes == old(nodes) - {z} + {s} && s !in old(nodes)
      reads this, nodes
    {
      && (forall n {:trigger n.lo} :: n in nodes && n != s ==> n.lo == old(n.lo))
      && (forall n {:trigger n.pos} :: n in nodes && n != s ==> n.pos == old(n.pos))
      && (forall n {:trigger n.hi} :: n in nodes && n != s ==> n.hi == old(n.hi))
      && (forall n {:trigger n.red} :: n in nodes && n != s ==> n.red == old(n.red))
      && (forall n {:trigger n.bh} :: n in nodes && n != s ==> n.bh == old(n.bh))
      && s.lo == old(z.lo) && s.pos == old(z.pos) && s.hi == old(z.hi) && s.red == old(z.red) && s.bh == old(z.bh)
      && 0 <= old(z.pos) < |old(order)|
      && order == old(order)[old(z.pos) := s]
      && gapAt == (if old(gapAt) == z then s else old(gapAt)) && gapLeft == old(gapLeft)
    }

    twostate lemma SwapJoined(zs: (Node, Node))
      requires old(zs.0 in nodes && zs.1 !in nodes && Linked()) && nodes == old(nodes) - {zs.0} + {zs.1}
      requires Swapped(zs.0, zs.1)
      ensures Joined()
    {}

    twostate lemma SwapSpans(zs: (Node, Node))
      requires old(zs.0 in nodes && zs.1 !in nodes && Linked()) && nodes == old(nodes) - {zs.0} + {zs.1}
      requires Swapped(zs.0, zs.1) && SwappedRest(zs.0, zs.1)
      ensures Indexed() && Spans()
    {}

    twostate lemma SwapBalanced(zs: (Node, Node))
      requires old(zs.0 in nodes && zs.1 !in nodes && Linked() && Balanced() && gapAt != zs.1)
      requires nodes == old(nodes) - {zs.0} + {zs.1}
      requires Swapped(zs.0, zs.1) && SwappedRest(zs.0, zs.1)
      ensures Balanced()
    {}

    twostate lemma SwapRed(zse: (Node, Node, Node?))
      requires old(zse.0 in nodes && zse.1 !in nodes && Linked()) && nodes == old(nodes) - {zse.0} + {zse.1}
      requires zse.2 != zse.0 && zse.2 != zse.1
      requires Swapped(zse.0, zse.1) && SwappedRest(zse.0, zse.1)
      requires old(NoRedPair(zse.2, zse.2))
      ensures NoRedPair(zse.2, zse.2)
    {}

    // The children of z get s as their parent.
    method Adopt(z: Node, s: Node)
      requires Linked() && z in nodes && s !in nodes && z.left != null
      modifies nodes`parent
      ensures forall n {:trigger n.parent} :: n in nodes ==> n.parent == if old(n.parent) == z then s else old(n.parent)
      ensures z.parent == old(z.parent)
    {
      z.left.parent := s;
      if z.right != null {
        z.right.parent := s;
      }
    }

    method SwapLinks(z: Node, s: Node)
      requires Linked() && z in nodes && s !in nodes && z.left != null
      modifies this`root, nodes`left, nodes`right, nodes`parent, s
      ensures forall n {:trigger n.left} :: n in nodes && n != z ==>
        n.left == if old(n.left) == z then s else old(n.left)
      ensures forall n {:trigger n.right} :: n in nodes && n != z ==>
        n.right == if old(n.right) == z then s else old(n.right)
      ensures forall n {:trigger n.parent} :: n in nodes && n != z ==>
        n.parent == if old(n.parent) == z then s else old(n.parent)
      ensures s.left == old(z.left) && s.right == old(z.right) && s.parent == old(z.parent)
      ensures s.lo == z.lo && s.pos == z.pos && s.hi == z.hi && s.red == z.red && s.bh == z.bh
      ensures root == if old(root) == z then s else old(root)
    {
      s.CopyEntry(z);
      Adopt(z, s);
      Reparent(z, s);
    }

    method Substitute(z: Node, s: Node)
      requires Linked() && z in nodes && s !in nodes && z.left != null
      modifies this, nodes`left, nodes`right, nodes`parent, s
      ensures nodes == old(nodes) - {z} + {s}
      ensures Linked() && Swapped(z, s) && SwappedRest(z, s)
    {
      SwapLinks(z, s);
      nodes := nodes - {z} + {s};
      order := order[z.pos := s];
      if gapAt == z { gapAt := s; }
      SwapJoined((z, s));
      SwapSpans((z, s));
    }

    twostate lemma SwapFading(zse: (Node, Node, Node?))
      requires old(zse.0 in nodes && zse.1 !in nodes && Fading(zse.2, gapAt)) && nodes == old(nodes) - {zse.0} + {zse.1}
      requires zse.2 != zse.0
      requires Linked() && Swapped(zse.0, zse.1) && SwappedRest(zse.0, zse.1)
      ensures Fading(zse.2, gapAt)
    {
      SwapBalanced((zse.0, zse.1));
      SwapRed(zse);
    }

    twostate lemma SwapColored(zs: (Node, Node))
      requires old(zs.0 in nodes && zs.1 !in nodes && Linked() && Colored()) && nodes == old(nodes) - {zs.0} + {zs.1}
      requires Linked() && Swapped(zs.0, zs.1) && SwappedRest(zs.0, zs.1)
      ensures Colored()
    {
      SwapBalanced(zs);
      SwapRed((zs.0, zs.1, null));
    }

    // The next node in order.
    method Successor(z: Node) returns (s: Node)
      requires Linked() && z in nodes && z.right != null
      ensures s in nodes && s.left == null && s.pos == z.pos + 1
    {
      s := z.right;
      var left := s.left;
      while left != null
        invariant s in nodes && s.lo == z.pos + 1 && left == s.left
        decreases s.hi
      {
        s := left;
        left := s.left;
      }
    }

    // The node taken out stands in for z.
    method Replace(z: Node, s: Node, child: Node?, p: Node?, black: bool) returns (parent: Node?)
      requires Linked() && z in nodes && s !in nodes && z.left != null && child != z && p == s.parent
      requires if black then Fading(child, p) else Colored()
      modifies this, nodes`left, nodes`right, nodes`parent, s
      ensures nodes == old(nodes) - {z} + {s}
      ensures Linked() && order == old(order)[z.pos := s]
      ensures if black then Fading(child, parent) else Colored()
    {
      parent := if s.parent == z then s else p;
      Substitute(z, s);
      if black {
        SwapFading((z, s, child));
      } else {
        SwapColored((z, s));
      }
    }

    static lemma DropThenSet(before: seq<Node>, after: seq<Node>, a: nat, s: Node)
      requires a + 1 < |before| && s == before[a + 1] && after == before[..a + 1] + before[a + 2..]
      ensures after[a := s] == before[..a] + before[a + 1..]
    {}

    // Takes the successor of z out of the tree, so that it can stand in for z.
    method DetachSuccessor(z: Node) returns (s: Node, child: Node?, parent: Node?)
      requires Linked() && Colored() && z in nodes && z.left != null && z.right != null
      modifies this, nodes`left, nodes`right, nodes`parent, nodes`lo, nodes`hi, nodes`pos
      ensures s in old(nodes) && s != z && nodes == old(nodes) - {s} && parent == s.parent && child != z
      ensures z.left != null && z.pos == old(z.pos) && 0 <= z.pos && z.pos + 1 < |old(order)|
      ensures s == old(order)[z.pos + 1]
      ensures order == old(order)[..z.pos + 1] + old(order)[z.pos + 2..]
      ensures Linked() && if s.red then Colored() else Fading(child, parent)
    {
      s := Successor(z);
      child, parent := Detach(s);
    }

    // The same, with the order that follows once s stands in for z.
    method ChooseSuccessor(z: Node) returns (s: Node, child: Node?, parent: Node?)
      requires Linked() && Colored() && z in nodes && z.left != null && z.right != null
      modifies this, nodes`left, nodes`right, nodes`parent, nodes`lo, nodes`hi, nodes`pos
      ensures s in old(nodes) && s != z && nodes == old(nodes) - {s} && parent == s.parent && child != z
      ensures z.left != null && z.pos == old(z.pos) && 0 <= z.pos < |order| < |old(order)|
      ensures order[z.pos := s] == old(order)[..z.pos] + old(order)[z.pos + 1..]
      ensures Linked() && if s.red then Colored() else Fading(child, parent)
    {
      ghost var before := order;
      s, child, parent := DetachSuccessor(z);
      DropThenSet(before, order, z.pos, s);
    }

    // Removal of a node with two children.
    method RemoveInner(z: Node) returns (child: Node?, parent: Node?, black: bool)
      requires Linked() && Colored() && z in nodes && z.left != null && z.right != null
      modifies this, nodes
      ensures nodes == old(nodes) - {z}
      ensures 0 <= old(z.pos) < |old(order)|
      ensures order == old(order)[..old(z.pos)] + old(order)[old(z.pos) + 1..]
      ensures Linked()
      ensures if black then Fading(child, parent) else Colored()
    {
      var s;
      s, child, parent := ChooseSuccessor(z);
      black := !s.red;
      parent := Replace(z, s, child, parent, black);
    }

    // Removal before any rebalancing.
    method Extract(elm: Node) returns (child: Node?, parent: Node?, black: bool)
      requires Linked() && Colored() && elm in nodes
      modifies this, nodes
      ensures nodes == old(nodes) - {elm}
      ensures 0 <= old(elm.pos) < |old(order)| && old(order)[old(elm.pos)] == elm
      ensures order == old(order)[..old(elm.pos)] + old(order)[old(elm.pos) + 1..]
      ensures Linked()
      ensures if black then Fading(child, parent) else Colored()
    {
      if elm.left == null || elm.right == null {
        black := !elm.red;
        child, parent := Detach(elm);
      } else {
        child, parent, black := RemoveInner(elm);
      }
    }

    // RB_REMOVE: exactly elm leaves, and every invariant is restored.
    method Remove(elm: Node)
      requires Valid() && elm in nodes
      modifies this, nodes
      ensures Valid()
      ensures nodes == old(nodes) - {elm}
      ensures 0 <= old(elm.pos) < |old(order)| && old(order)[old(elm.pos)] == elm
      ensures order == old(order)[..old(elm.pos)] + old(order)[old(elm.pos) + 1..]
    {
      var child, parent, black := Extract(elm);
      if black {
        RemoveColor(parent, child);
      }
    }

    // A proper red-black tree over disjoint ranges in address order.
    ghost predicate Valid() reads this, nodes {
      Linked() && Colored() && Sorted(order)
    }

    ghost predicate Sorted(order: seq<Node>) {
      && (forall i :: 0 <= i < |order| ==> order[i].base <= order[i].end)
      && (forall i, j :: 0 <= i < j < |order| ==> order[i].end < order[j].base)
    }

    // ---------- search ----------

    // The comparator: ranges that overlap compare equal.
    function Compare(base: nat, end: nat, n: Node): int {
      if end < n.base then -1 else if base > n.end then 1 else 0
    }

    // RB_FIND.
    method Find(base: nat, end: nat) returns (r: Node?)
      requires Valid() && base <= end
      ensures r != null ==> r in nodes && Compare(base, end, r) == 0
      ensures r == null ==> forall n :: n in nodes ==> Compare(base, end, n) != 0
    {
      var tmp := root;
      ghost var l, h := 0, |order|;
      while tmp != null
        invariant tmp != null ==> tmp in nodes && tmp.lo == l && tmp.hi == h
        invariant 0 <= l <= h <= |order| && (tmp == null ==> l == h)
        invariant forall i :: 0 <= i < l ==> order[i].end < base
        invariant forall i :: h <= i < |order| ==> end < order[i].base
        decreases h - l
      {
        var comp := Compare(base, end, tmp);
        if comp < 0 {
          h := tmp.pos;
          tmp := tmp.left;
        } else if comp > 0 {
          l := tmp.pos + 1;
          tmp := tmp.right;
        } else {
          return tmp;
        }
      }
      forall n | n in nodes ensures Compare(base, end, n) != 0 {
        assert order[n.pos] == n;
      }
      return null;
    }

    // ---------- insertion ----------

    // The links after elm became a leaf below parent.
    twostate predicate Hung(elm: Node, parent: Node?, onLeft: bool)
      requires elm !in old(nodes) && nodes == old(nodes) + {elm}
      reads this, nodes
    {
      && (forall n {:trigger n.left} :: n in nodes && n != elm ==>
           n.left == if n == parent && onLeft then elm else old(n.left))
      && (forall n {:trigger n.right} :: n in nodes && n != elm ==>
           n.right == if n == parent && !onLeft then elm else old(n.right))
      && (forall n {:trigger n.parent} :: n in nodes && n != elm ==> n.parent == old(n.parent))
      && elm.left == null && elm.right == null && elm.parent == parent
      && (root == if parent == null then elm else old(root))
    }

    // The places after elm entered at k.
    twostate predicate Widened(elm: Node, a: int, k: int)
      requires elm !in old(nodes) && nodes == old(nodes) + {elm}
      reads this, nodes
    {
      && (forall n {:trigger n.lo} :: n in nodes && n != elm ==> n.lo == old(n.lo) + if old(n.lo) > a then 1 else 0)
      && (forall n {:trigger n.hi} :: n in nodes && n != elm ==> n.hi == old(n.hi) + if old(n.hi) > a then 1 else 0)
      && (forall n {:trigger n.pos} :: n in nodes && n != elm ==>
           n.pos == old(n.pos) + if old(n.pos) >= k then 1 else 0)
      && elm.lo == elm.pos == k && elm.hi == k + 1
      && 0 <= k <= |old(order)|
      && order == old(order)[..k] + [elm] + old(order)[k..]
    }

    // An empty child position, and its place in the order.
    ghost predicate Slot(parent: Node?, onLeft: bool, k: int) reads this, nodes {
      if parent == null then root == null && k == 0
      else
        && parent in nodes
        && if onLeft then parent.left == null && k == parent.pos else parent.right == null && k == parent.pos + 1
    }

    ghost function Anchor(parent: Node?): int reads parent { if parent == null then 0 else parent.pos }

    twostate lemma HangJoined(at: (Node, Node?, bool, int))
      requires old(Linked() && at.0 !in nodes && Slot(at.1, at.2, at.3)) && nodes == old(nodes) + {at.0}
      requires Hung(at.0, at.1, at.2)
      ensures Joined()
    {}

    twostate lemma HangIndexed(at: (Node, Node?, bool, int))
      requires old(Linked() && at.0 !in nodes && Slot(at.1, at.2, at.3)) && nodes == old(nodes) + {at.0}
      requires Widened(at.0, old(Anchor(at.1)), at.3)
      ensures Indexed()
    {}

    twostate lemma HangSpans(at: (Node, Node?, bool, int))
      requires old(Linked() && at.0 !in nodes && Slot(at.1, at.2, at.3)) && nodes == old(nodes) + {at.0}
      requires Hung(at.0, at.1, at.2) && Widened(at.0, old(Anchor(at.1)), at.3)
      ensures Spans()
    {}

    twostate lemma HangSettles(at: (Node, Node?, bool, int))
      requires old(Linked() && Colored() && at.0 !in nodes && Slot(at.1, at.2, at.3)) && nodes == old(nodes) + {at.0}
      requires Hung(at.0, at.1, at.2) && gapAt == null
      requires forall n {:trigger n.red} :: n in nodes && n != at.0 ==> n.red == old(n.red)
      requires forall n {:trigger n.bh} :: n in nodes && n != at.0 ==> n.bh == old(n.bh)
      requires at.0.red && at.0.bh == 0
      ensures Balanced() && NoRedPair(null, at.0) && root != null && root in nodes && (root.red ==> root == at.0)
    {}

    ghost method Widen(elm: Node, a: int, k: int)
      requires elm !in nodes && 0 <= k <= |order|
      modifies this`nodes, this`order, nodes`lo, nodes`hi, nodes`pos, elm`lo, elm`hi, elm`pos, elm`bh
      ensures nodes == old(nodes) + {elm} && elm.bh == 0
      ensures Widened(elm, a, k)
    {
      order := order[..k] + [elm] + order[k..];
      forall n | n in nodes { n.lo := n.lo + if n.lo > a then 1 else 0; }
      forall n | n in nodes { n.hi := n.hi + if n.hi > a then 1 else 0; }
      forall n | n in nodes { n.pos := n.pos + if n.pos >= k then 1 else 0; }
      elm.lo, elm.pos, elm.hi, elm.bh := k, k, k + 1, 0;
      nodes := nodes + {elm};
    }

    method Hang(elm: Node, parent: Node?, onLeft: bool)
      requires elm !in nodes && (parent == null || parent in nodes)
      modifies this`root, nodes`left, nodes`right, elm
      ensures forall n {:trigger n.left} :: n in nodes ==> n.left == if n == parent && onLeft then elm else old(n.left)
      ensures forall n {:trigger n.right} :: n in nodes ==>
        n.right == if n == parent && !onLeft then elm else old(n.right)
      ensures elm.left == null && elm.right == null && elm.parent == parent && elm.red
      ensures root == if parent == null then elm else old(root)
    {
      elm.parent := parent;
      elm.left, elm.right := null, null;
      elm.red := true;
      if parent != null {
        if onLeft {
          parent.left := elm;
        } else {
          parent.right := elm;
        }
      } else {
        root := elm;
      }
    }

    twostate predicate Grown(elm: Node, parent: Node?, onLeft: bool, k: int)
      reads this, nodes
    {
      && elm !in old(nodes) && nodes == old(nodes) + {elm} && gapAt == old(gapAt)
      && Hung(elm, parent, onLeft) && Widened(elm, old(Anchor(parent)), k)
      && (forall n {:trigger n.red} :: n in nodes && n != elm ==> n.red == old(n.red))
      && (forall n {:trigger n.bh} :: n in nodes && n != elm ==> n.bh == old(n.bh))
      && elm.red && elm.bh == 0
    }

    method Grow(elm: Node, parent: Node?, onLeft: bool, ghost k: int)
      requires elm !in nodes && (parent == null || parent in nodes) && 0 <= k <= |order|
      modifies this, nodes`left, nodes`right, nodes`lo, nodes`hi, nodes`pos, elm
      ensures Grown(elm, parent, onLeft, k)
    {
      Hang(elm, parent, onLeft);
      Widen(elm, old(Anchor(parent)), k);
    }

    twostate lemma GrownSettles(at: (Node, Node?, bool, int))
      requires old(Linked() && Colored() && Slot(at.1, at.2, at.3))
      requires Grown(at.0, at.1, at.2, at.3)
      ensures Settling(at.0)
    {
      HangJoined(at);
      HangIndexed(at);
      HangSpans(at);
      HangSettles(at);
    }

    // The new node hangs in its slot, red.
    method Attach(elm: Node, parent: Node?, onLeft: bool, ghost k: int)
      requires Linked() && Colored() && elm !in nodes && Slot(parent, onLeft, k)
      modifies this, nodes`left, nodes`right, nodes`lo, nodes`hi, nodes`pos, elm
      ensures nodes == old(nodes) + {elm} && 0 <= k <= |old(order)|
      ensures order == old(order)[..k] + [elm] + old(order)[k..]
      ensures Settling(elm)
    {
      Grow(elm, parent, onLeft, k);
      GrownSettles((elm, parent, onLeft, k));
    }

    lemma InsertSorted(order: seq<Node>, elm: Node, k: nat)
      requires Sorted(order) && k <= |order| && elm.base <= elm.end
      requires forall i :: 0 <= i < k ==> order[i].end < elm.base
      requires forall i :: k <= i < |order| ==> elm.end < order[i].base
      ensures Sorted(order[..k] + [elm] + order[k..])
    {}

    // The descent of an insertion: to a node that overlaps, or to the slot where the new node belongs.
    method Descend(elm: Node) returns (r: Node?, parent: Node?, comp: int, ghost k: int)
      requires Valid() && elm.base <= elm.end
      ensures r != null ==> r in nodes && Compare(elm.base, elm.end, r) == 0
      ensures r == null ==> Slot(parent, comp < 0, k) && 0 <= k <= |order|
      ensures r == null ==> forall i :: 0 <= i < k ==> order[i].end < elm.base
      ensures r == null ==> forall i :: k <= i < |order| ==> elm.end < order[i].base
      ensures r == null ==> forall n :: n in nodes ==> Compare(elm.base, elm.end, n) != 0
    {
      var tmp := root;
      parent := null;
      comp := 0;
      k := 0;
      ghost var h := |order|;
      while tmp != null
        invariant tmp != null ==> tmp in nodes && tmp.lo == k && tmp.hi == h
        invariant 0 <= k <= h <= |order|
        invariant tmp == null ==> k == h && Slot(parent, comp < 0, k)
        invariant forall i :: 0 <= i < k ==> order[i].end < elm.base
        invariant forall i :: h <= i < |order| ==> elm.end < order[i].base
        decreases h - k
      {
        parent := tmp;
        comp := Compare(elm.base, elm.end, tmp);
        if comp < 0 {
          h := tmp.pos;
          tmp := tmp.left;
        } else if comp > 0 {
          k := tmp.pos + 1;
          tmp := tmp.right;
        } else {
          r := tmp;
          return;
        }
      }
      r := null;
      forall n | n in nodes ensures Compare(elm.base, elm.end, n) != 0 {
        assert order[n.pos] == n;
      }
    }

    // The new node is attached and the tree rebalanced.
    method Settle(elm: Node, parent: Node?, onLeft: bool, ghost k: int)
      requires Valid() && elm !in nodes && elm.base <= elm.end && Slot(parent, onLeft, k) && 0 <= k <= |order|
      requires forall i :: 0 <= i < k ==> order[i].end < elm.base
      requires forall i :: k <= i < |order| ==> elm.end < order[i].base
      modifies this, nodes, elm
      ensures Valid() && nodes == old(nodes) + {elm}
    {
      InsertSorted(order, elm, k);
      Attach(elm, parent, onLeft, k);
      InsertColor(elm);
    }

    // RB_INSERT: elm joins, unless it overlaps, and then nothing changes.
    method Insert(elm: Node) returns (r: Node?)
      requires Valid() && elm !in nodes && elm.base <= elm.end
      modifies this, nodes, elm
      ensures Valid()
      ensures r != null ==> r in nodes && Compare(elm.base, elm.end, r) == 0
      ensures r != null ==> unchanged(this) && unchanged(nodes) && unchanged(elm)
      ensures r == null ==> (forall n :: n in old(nodes) ==>
        Compare(elm.base, elm.end, n) != 0) && nodes == old(nodes) + {elm}
    {
      var parent, comp;
      ghost var k;
      r, parent, comp, k := Descend(elm);
      if r == null {
        Settle(elm, parent, comp < 0, k);
      }
    }

    // ---------- height ----------

    // Nodes on the longest path down.
    ghost function Height(n: Node?): nat
      requires Linked() && (n == null || n in nodes)
      reads this, nodes
      decreases if n == null then 0 else n.hi - n.lo
    {
      if n == null then 0
      else 1 + Max(Height(n.left), Height(n.right))
    }

    // Red nodes at most double a path.
    lemma {:induction false} HeightBelow(n: Node)
      requires Linked() && Colored() && n in nodes
      ensures Height(n) <= 2 * n.bh + if n.red then 1 else 0
      decreases n.hi - n.lo
    {
      if n.left != null {
        HeightBelow(n.left);
      }
      if n.right != null {
        HeightBelow(n.right);
      }
    }

    // A subtree of black height b holds at least 2^b - 1 nodes.
    lemma {:induction false} SizeAbove(n: Node)
      requires Linked() && Colored() && n in nodes
      ensures 0 <= n.bh && Pow2(n.bh) <= n.hi - n.lo + 1
      decreases n.hi - n.lo
    {
      if n.left != null {
        SizeAbove(n.left);
      }
      if n.right != null {
        SizeAbove(n.right);
      }
    }

    // 'order' lists the nodes without repetition.
    lemma {:induction false} OrderCounts(s: seq<Node>, t: set<Node>)
      requires forall i :: 0 <= i < |s| ==> s[i] in t
      requires forall n :: n in t ==> n in s
      requires forall i, j :: 0 <= i < j < |s| ==> s[i] != s[j]
      ensures |s| == |t|
    {
      if s != [] {
        var last := s[|s| - 1];
        OrderCounts(s[..|s| - 1], t - {last});
      } else {
        assert t == {};
      }
    }

    static lemma SquareBound(height: nat, black: nat, n: nat)
      requires height <= 2 * black && Pow2(black) <= n + 1
      ensures Pow2(height) <= (n + 1) * (n + 1)
    {
      Pow2Monotone(height, 2 * black);
      Pow2Add(black, black);
      SquareMonotone(Pow2(black), n + 1);
    }

    /** A tree of n nodes is at most 2 lg(n + 1) high. */
    lemma HeightIsLogarithmic()
      requires Valid()
      ensures Pow2(Height(root)) <= (|nodes| + 1) * (|nodes| + 1)
    {
      forall n | n in nodes ensures n in order {
        assert order[n.pos] == n;
      }
      OrderCounts(order, nodes);
      if root != null {
        HeightBelow(root);
        SizeAbove(root);
        SquareBound(Height(root), root.bh, |nodes|);
      }
    }
  }
}
