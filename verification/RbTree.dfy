/** The red-black tree of the kernel: nodes with parent links, one shared and
    mutable sentinel, rotations, insertion, deletion and the iterators. */
module RbTree {
  import opened RbShape
  import opened Seqs
  import Bits

  /** rb_node, with the colour and the parent unpacked from one word. */
  class RbNode {
    var parent: RbNode?
    var red: bool
    var left: RbNode?
    var right: RbNode?

    /** __rb_null before any deletion. */
    constructor Sentinel()
      ensures parent == null && left == null && right == null && !red
    {
      parent, left, right, red := null, null, null, false;
    }
  }

  ghost function Nodes(t: Tree<RbNode>): set<RbNode> {
    match t
    case Leaf => {}
    case Node(l, x, _, r) => Nodes(l) + {x} + Nodes(r)
  }

  ghost function CNodes(c: Ctx<RbNode>): set<RbNode> {
    match c
    case Top => {}
    case InLeft(up, x, _, r) => CNodes(up) + {x} + Nodes(r)
    case InRight(l, x, _, up) => CNodes(up) + {x} + Nodes(l)
  }

  ghost predicate Distinct(t: Tree<RbNode>) {
    match t
    case Leaf => true
    case Node(l, x, _, r) =>
      Distinct(l) && Distinct(r) && x !in Nodes(l) && x !in Nodes(r) && Nodes(l) !! Nodes(r)
  }

  ghost predicate DistinctCtx(c: Ctx<RbNode>) {
    match c
    case Top => true
    case InLeft(up, x, _, t) =>
      DistinctCtx(up) && Distinct(t) && x !in CNodes(up) && x !in Nodes(t) && Nodes(t) !! CNodes(up)
    case InRight(t, x, _, up) =>
      DistinctCtx(up) && Distinct(t) && x !in CNodes(up) && x !in Nodes(t) && Nodes(t) !! CNodes(up)
  }

  /** The subtree t and its surroundings share no node, and no node is nil. */
  ghost predicate Sep(nil: RbNode, c: Ctx<RbNode>, t: Tree<RbNode>) {
    && Distinct(t) && DistinctCtx(c) && Nodes(t) !! CNodes(c)
    && nil !in Nodes(t) && nil !in CNodes(c)
  }

  /** The links below n, whose parent is p, are those of the tree t.  Nothing
      is said of the sentinel's own fields. */
  ghost predicate Held(nil: RbNode, t: Tree<RbNode>, n: RbNode?, p: RbNode?)
    reads Nodes(t)
  {
    match t
    case Leaf => n == nil
    case Node(l, x, red, r) =>
      n == x && x.parent == p && x.red == red && Held(nil, l, x.left, x) && Held(nil, r, x.right, x)
  }

  class RbTree {
    var root: RbNode
    const nil: RbNode
    const compare: (RbNode, RbNode) -> int
    ghost var tree: Tree<RbNode>
    ghost var repr: set<RbNode>

    constructor (nil: RbNode, compare: (RbNode, RbNode) -> int)
      requires !nil.red
      ensures Valid() && tree == Leaf && this.nil == nil && this.compare == compare
    {
      root, tree, repr := nil, Leaf, {};
      this.nil, this.compare := nil, compare;
    }

    /** The links around a subtree whose root is n and hangs below p are those
        of the context c. */
    ghost predicate HeldCtx(c: Ctx<RbNode>, n: RbNode?, p: RbNode?)
      reads this`root, CNodes(c)
    {
      match c
      case Top => n == root && p == nil
      case InLeft(up, x, red, r) =>
        p == x && x.left == n && x.red == red && Held(nil, r, x.right, x) && HeldCtx(up, x, x.parent)
      case InRight(l, x, red, up) =>
        p == x && x.right == n && x.red == red && Held(nil, l, x.left, x) && HeldCtx(up, x, x.parent)
    }

    /** The whole tree is t in the context c, t being rooted at n below p. */
    ghost predicate At(c: Ctx<RbNode>, t: Tree<RbNode>, n: RbNode?, p: RbNode?)
      reads this, CNodes(c), Nodes(t)
    {
      HeldCtx(c, n, p) && Held(nil, t, n, p) && Sep(nil, c, t) && CNodes(c) + Nodes(t) == repr
    }

    ghost predicate Valid()
      reads this, nil, Nodes(tree)
    {
      !nil.red && At(Top, tree, root, nil) && RedBlack(tree)
    }

    /** The nodes of the tree from the first to the last. */
    ghost function Contents(): seq<RbNode>
      reads this
    {
      InOrder(tree)
    }

    lemma ContentsAre()
      requires Valid()
      ensures nil !in repr && repr == Nodes(tree) && Within(InOrder(tree), repr) && Lists(InOrder(tree), repr)
    {
      assert At(Top, tree, root, nil);
      assert CNodes(Top) == {};
      assert repr == Nodes(tree);
      InOrderNodes(tree);
    }

    // ---- rotations -----------------------------------------------------------------

    /** The three-way branch shared by the rotations and rb_transplant: y takes
        the place of x below the parent of x. */
    method ReplaceChild(x: RbNode, y: RbNode, ghost c: Ctx<RbNode>)
      requires HeldCtx(c, x, x.parent) && DistinctCtx(c) && x !in CNodes(c) && x != nil && nil !in CNodes(c)
      modifies this`root, CNodes(c)
      ensures HeldCtx(c, y, x.parent)
    {
      if x.parent == nil {
        root := y;
      } else if x == x.parent.left {
        x.parent.left := y;
      } else {
        x.parent.right := y;
      }
    }

    /** rb_left_rotate. */
    method RotateLeft(x: RbNode, ghost c: Ctx<RbNode>, ghost t: Tree<RbNode>)
      requires t.Node? && t.right.Node? && At(c, t, x, x.parent)
      modifies this`root, repr
      ensures var y := t.right.key; At(c, RotL(t), y, y.parent)
    {
      hide Nodes, CNodes, Held, HeldCtx, Distinct, DistinctCtx, Apart, HalfRotL;
      UnfoldRight(nil, c, t, x);
      SepRotL(nil, c, t);
      assert allocated(CNodes(c));
      var y := x.right;
      LinkLeft(x, c, t.red, t.right.red, t.left, t.right.left, t.right.right);
      AttachLeft(nil, x, y, t.red, t.right.red, t.left, t.right.left, t.right.right);
    }

    method LinkLeft(x: RbNode, ghost c: Ctx<RbNode>, ghost xr: bool, ghost yr: bool,
                    ghost a: Tree<RbNode>, ghost b: Tree<RbNode>, ghost d: Tree<RbNode>)
      requires x.right != null && Around(c, x, x.right, xr, yr, a, b, d)
      requires Held(nil, a, x.left, x) && Held(nil, b, x.right.left, x.right) && Held(nil, d, x.right.right, x.right)
      modifies this`root, CNodes(c), x, x.right, Nodes(b)
      ensures var y := old(x.right); HeldCtx(c, y, y.parent) && HalfRotL(nil, x, y, xr, yr, a, b, d)
    {
      hide Nodes, CNodes, Held, HeldCtx, Distinct, DistinctCtx, Apart;
      assert allocated(CNodes(c)) && allocated(Nodes(a)) && allocated(Nodes(b)) && allocated(Nodes(d));
      var y := x.right;
      DetachRight(nil, x, y, xr, yr, a, b, d);
      ReplaceChild(x, y, c);
    }

    /** rb_right_rotate. */
    method RotateRight(x: RbNode, ghost c: Ctx<RbNode>, ghost t: Tree<RbNode>)
      requires t.Node? && t.left.Node? && At(c, t, x, x.parent)
      modifies this`root, repr
      ensures var y := t.left.key; At(c, RotR(t), y, y.parent)
    {
      hide Nodes, CNodes, Held, HeldCtx, Distinct, DistinctCtx, Apart, HalfRotR;
      UnfoldLeft(nil, c, t, x);
      SepRotR(nil, c, t);
      assert allocated(CNodes(c));
      var y := x.left;
      LinkRight(x, c, t.red, t.left.red, t.left.left, t.left.right, t.right);
      AttachRight(nil, x, y, t.red, t.left.red, t.left.left, t.left.right, t.right);
    }

    method LinkRight(x: RbNode, ghost c: Ctx<RbNode>, ghost xr: bool, ghost yr: bool,
                     ghost a: Tree<RbNode>, ghost b: Tree<RbNode>, ghost d: Tree<RbNode>)
      requires x.left != null && Around(c, x, x.left, xr, yr, a, b, d)
      requires Held(nil, a, x.left.left, x.left) && Held(nil, b, x.left.right, x.left) && Held(nil, d, x.right, x)
      modifies this`root, CNodes(c), x, x.left, Nodes(b)
      ensures var y := old(x.left); HeldCtx(c, y, y.parent) && HalfRotR(nil, x, y, xr, yr, a, b, d)
    {
      hide Nodes, CNodes, Held, HeldCtx, Distinct, DistinctCtx, Apart;
      assert allocated(CNodes(c)) && allocated(Nodes(a)) && allocated(Nodes(b)) && allocated(Nodes(d));
      var y := x.left;
      DetachLeft(nil, x, y, xr, yr, a, b, d);
      ReplaceChild(x, y, c);
    }

    /** Before a rotation of x and its child y: the context is in place and
        apart from both nodes and the three subtrees around them. */
    ghost predicate Around(c: Ctx<RbNode>, x: RbNode, y: RbNode, xr: bool, yr: bool, a: Tree<RbNode>, b: Tree<RbNode>,
                           d: Tree<RbNode>)
      reads this`root, CNodes(c), x, y
    {
      && x != nil && y != nil && nil !in CNodes(c) && nil !in Nodes(b) && x.red == xr && y.red == yr
      && HeldCtx(c, x, x.parent) && DistinctCtx(c) && Apart(x, y, a, b, d)
      && x !in CNodes(c) && y !in CNodes(c) && Nodes(a) !! CNodes(c) && Nodes(b) !! CNodes(c) && Nodes(d) !! CNodes(c)
    }

    // ---- moving the focus, and colours ------------------------------------------------

    /** From a subtree to the one around it.  The test nd == parent->left tells
        the two sides apart unless nd and its sibling are both the sentinel. */
    lemma Up(c: Ctx<RbNode>, t: Tree<RbNode>, n: RbNode?, p: RbNode?)
      requires At(c, t, n, p) && !c.Top?
      ensures p == c.key && At(c.up, Wrap(c, t), p, c.key.parent)
      ensures t.Node? ==> n == t.key && t.key.parent == p
      ensures c.key.red == c.red && c.key in repr
      ensures c.InLeft? ==> c.key.left == n && Rooted(c.right, c.key.right)
      ensures c.InRight? ==> c.key.right == n && Rooted(c.left, c.key.left)
      ensures c.InRight? && (t.Node? || c.left.Node?) ==> c.key.left != n
    {
    }

    /** n is the node at the root of t, or the sentinel. */
    ghost predicate Rooted(t: Tree<RbNode>, n: RbNode?) {
      n == if t.Leaf? then nil else t.key
    }

    lemma DownLeft(c: Ctx<RbNode>, t: Tree<RbNode>, n: RbNode?, p: RbNode?)
      requires At(c, t, n, p) && t.Node?
      ensures n == t.key && t.key.parent == p && At(InLeft(c, t.key, t.red, t.right), t.left, t.key.left, n)
    {
    }

    lemma DownRight(c: Ctx<RbNode>, t: Tree<RbNode>, n: RbNode?, p: RbNode?)
      requires At(c, t, n, p) && t.Node?
      ensures n == t.key && t.key.parent == p && At(InRight(t.left, t.key, t.red, c), t.right, t.key.right, n)
    {
    }

    /** rb_set_color of the node in focus. */
    method SetColor(n: RbNode, red: bool, ghost c: Ctx<RbNode>, ghost t: Tree<RbNode>)
      requires t.Node? && At(c, t, n, n.parent)
      modifies n`red
      ensures At(c, Paint(t, red), n, n.parent)
    {
      assert allocated(CNodes(c)) && allocated(Nodes(t));
      n.red := red;
    }

    // ---- rb_insert_fixup ----------------------------------------------------------------

    /** The state of the loop of rb_insert_fixup at nd. */
    ghost predicate Inserting(c: Ctx<RbNode>, t: Tree<RbNode>, nd: RbNode, h: nat, s: seq<RbNode>)
      reads this, nil, CNodes(c), Nodes(t)
    {
      !nil.red && t.Node? && At(c, t, nd, t.key.parent) && InsertState(c, t, h) && SeqOf(c, t) == s
    }

    /** What the loop reads around nd, when its parent is red. */
    lemma Relatives(c: Ctx<RbNode>, t: Tree<RbNode>, nd: RbNode, h: nat, s: seq<RbNode>)
      requires Inserting(c, t, nd, h, s)
      ensures nd == t.key && nd.parent != null && nd.parent.red == HoleUnderRed(c)
      ensures HoleUnderRed(c) ==>
        && nd.parent == c.key && !c.up.Top? && c.key.parent == c.up.key && nd in repr && c.key in repr
        && c.up.key in repr
        && (c.up.InLeft? <==> c.key == c.up.key.left) && (c.InLeft? <==> nd == c.key.left)
        && (c.InRight? <==> nd == c.key.right)
        && Rooted(Sibling(c.up), if c.up.InLeft? then c.up.key.right else c.up.key.left)
    {
      if !c.Top? {
        Up(c, t, nd, t.key.parent);
        if c.red { Up(c.up, Wrap(c, t), c.key, c.key.parent); }
      }
    }

    /** The branch with a red uncle, the same on both sides. */
    method Recolor(nd: RbNode, p: RbNode, uncle: RbNode, g: RbNode, ghost c: Ctx<RbNode>, ghost t: Tree<RbNode>)
      requires t.Node? && At(c, t, nd, p) && !c.Top? && !c.up.Top? && Sibling(c.up).Node?
      requires p == c.key && g == c.up.key && uncle == Sibling(c.up).key
      modifies p`red, uncle`red, g`red
      ensures At(c.up.up, Recolored(c, t), g, g.parent)
    {
      ghost var c1, c2 := c.up, c.up.up;
      Up(c, t, nd, p);
      ghost var t1 := Wrap(c, t);
      SetColor(p, false, c1, t1);
      t1 := Paint(t1, false);
      Up(c1, t1, p, g);
      ghost var t2 := Wrap(c1, t1);
      ghost var d := PaintSibling(c1, false);
      FocusSibling(c1, t1, g);
      SetColor(uncle, false, Mirror(c1, t1), Sibling(c1));
      Up(Mirror(c1, t1), Paint(Sibling(c1), false), uncle, g);
      assert Wrap(Mirror(c1, t1), Paint(Sibling(c1), false)) == Wrap(d, t1);
      SetColor(g, true, c2, Wrap(d, t1));
    }

    /** From a subtree to its sibling. */
    lemma FocusSibling(c: Ctx<RbNode>, t: Tree<RbNode>, g: RbNode)
      requires !c.Top? && g == c.key && At(c.up, Wrap(c, t), g, g.parent)
      ensures At(Mirror(c, t), Sibling(c), if c.InLeft? then g.right else g.left, g)
    {
      if c.InLeft? { DownRight(c.up, Wrap(c, t), g, g.parent); } else { DownLeft(c.up, Wrap(c, t), g, g.parent); }
    }

    /** A right child on the left side is rotated outwards: nd moves to its parent. */
    method TurnLeft(nd: RbNode, p: RbNode, ghost c: Ctx<RbNode>, ghost t: Tree<RbNode>)
      requires c.InRight? && t.Node? && At(c, t, nd, p) && p == c.key
      modifies this`root, repr
      ensures var r := InnerLeft(c, t); At(r.0, r.1, p, nd)
    {
      Up(c, t, nd, p);
      RotateLeft(p, c.up, Wrap(c, t));
      DownLeft(c.up, RotL(Wrap(c, t)), nd, nd.parent);
    }

    method TurnRight(nd: RbNode, p: RbNode, ghost c: Ctx<RbNode>, ghost t: Tree<RbNode>)
      requires c.InLeft? && t.Node? && At(c, t, nd, p) && p == c.key
      modifies this`root, repr
      ensures var r := InnerRight(c, t); At(r.0, r.1, p, nd)
    {
      Up(c, t, nd, p);
      RotateRight(p, c.up, Wrap(c, t));
      DownRight(c.up, RotR(Wrap(c, t)), nd, nd.parent);
    }

    /** The last step of the left branch: two colours and a right rotation. */
    method SettleLeft(nd: RbNode, p: RbNode, g: RbNode, ghost c: Ctx<RbNode>, ghost t: Tree<RbNode>)
      requires c.InLeft? && c.up.InLeft? && t.Node? && At(c, t, nd, p) && p == c.key && g == c.up.key
      modifies this`root, repr
      ensures At(OuterLeft(c), t, nd, p)
    {
      ghost var c1, c2 := c.up, c.up.up;
      Up(c, t, nd, p);
      SetColor(p, false, c1, Wrap(c, t));
      ghost var t1 := Paint(Wrap(c, t), false);
      Up(c1, t1, p, g);
      SetColor(g, true, c2, Wrap(c1, t1));
      ghost var t2 := Paint(Wrap(c1, t1), true);
      RotateRight(g, c2, t2);
      DownLeft(c2, RotR(t2), p, p.parent);
    }

    method SettleRight(nd: RbNode, p: RbNode, g: RbNode, ghost c: Ctx<RbNode>, ghost t: Tree<RbNode>)
      requires c.InRight? && c.up.InRight? && t.Node? && At(c, t, nd, p) && p == c.key && g == c.up.key
      modifies this`root, repr
      ensures At(OuterRight(c), t, nd, p)
    {
      ghost var c1, c2 := c.up, c.up.up;
      Up(c, t, nd, p);
      SetColor(p, false, c1, Wrap(c, t));
      ghost var t1 := Paint(Wrap(c, t), false);
      Up(c1, t1, p, g);
      SetColor(g, true, c2, Wrap(c1, t1));
      ghost var t2 := Paint(Wrap(c1, t1), true);
      RotateLeft(g, c2, t2);
      DownRight(c2, RotL(t2), p, p.parent);
    }

    /** One round of the loop with a black uncle on the right. */
    method InsertLeft(nd: RbNode, p: RbNode, g: RbNode, ghost c: Ctx<RbNode>, ghost t: Tree<RbNode>, ghost h: nat,
                      ghost s: seq<RbNode>)
      returns (m: RbNode, ghost c': Ctx<RbNode>, ghost t': Tree<RbNode>)
      requires Inserting(c, t, nd, h, s) && HoleUnderRed(c) && p == c.key && g == c.up.key
      requires c.up.InLeft? && Black(Sibling(c.up))
      modifies this`root, repr
      ensures Inserting(c', t', m, h, s) && !HoleUnderRed(c')
    {
      hide RbCtx, Rb, Nodes, CNodes, HeldCtx, SeqOf;
      Relatives(c, t, nd, h, s);
      m, c', t' := nd, c, t;
      var q := p;
      if nd == p.right {
        InnerState(c, t, h);
        InnerSeq(c, t);
        TurnLeft(nd, p, c, t);
        m, q := p, nd;
        c', t' := InnerLeft(c, t).0, InnerLeft(c, t).1;
      }
      OuterState(c', t', h);
      OuterSeq(c', t');
      SettleLeft(m, q, g, c', t');
      c' := OuterLeft(c');
    }

    method InsertRight(nd: RbNode, p: RbNode, g: RbNode, ghost c: Ctx<RbNode>, ghost t: Tree<RbNode>, ghost h: nat,
                       ghost s: seq<RbNode>)
      returns (m: RbNode, ghost c': Ctx<RbNode>, ghost t': Tree<RbNode>)
      requires Inserting(c, t, nd, h, s) && HoleUnderRed(c) && p == c.key && g == c.up.key
      requires c.up.InRight? && Black(Sibling(c.up))
      modifies this`root, repr
      ensures Inserting(c', t', m, h, s) && !HoleUnderRed(c')
    {
      hide RbCtx, Rb, Nodes, CNodes, HeldCtx, SeqOf;
      Relatives(c, t, nd, h, s);
      m, c', t' := nd, c, t;
      var q := p;
      if nd == p.left {
        InnerState(c, t, h);
        InnerSeq(c, t);
        TurnRight(nd, p, c, t);
        m, q := p, nd;
        c', t' := InnerRight(c, t).0, InnerRight(c, t).1;
      }
      OuterState(c', t', h);
      OuterSeq(c', t');
      SettleRight(m, q, g, c', t');
      c' := OuterRight(c');
    }

    /** From any focus back to the whole tree. */
    lemma {:induction false} ToTop(c: Ctx<RbNode>, t: Tree<RbNode>, n: RbNode?, p: RbNode?)
      requires At(c, t, n, p)
      ensures At(Top, Plug(c, t), root, nil)
      decreases c
    {
      if !c.Top? {
        Up(c, t, n, p);
        WrapSeq(c, t);
        ToTop(c.up, Wrap(c, t), c.key, c.key.parent);
      }
    }

    /** One round of the loop of rb_insert_fixup. */
    method InsertStep(nd: RbNode, ghost c: Ctx<RbNode>, ghost t: Tree<RbNode>, ghost h: nat, ghost s: seq<RbNode>)
      returns (m: RbNode, ghost c': Ctx<RbNode>, ghost t': Tree<RbNode>, ghost h': nat)
      requires Inserting(c, t, nd, h, s) && HoleUnderRed(c)
      modifies this`root, repr
      ensures Inserting(c', t', m, h', s)
      ensures HoleUnderRed(c') ==> Depth(c') < Depth(c)
    {
      Relatives(c, t, nd, h, s);
      hide RbCtx, Rb, Nodes, CNodes, Held, HeldCtx, SeqOf, At, InsertState, Distinct, DistinctCtx;
      var p: RbNode := nd.parent;
      var g: RbNode := p.parent;
      if p == g.left {
        var uncle: RbNode := UncleAt(g.right, c, t, nd, h, s);
        if uncle.red {
          m, c', t', h' := InsertRecolor(nd, p, uncle, g, c, t, h, s);
        } else {
          m, c', t' := InsertLeft(nd, p, g, c, t, h, s);
          h' := h;
        }
      } else {
        var uncle: RbNode := UncleAt(g.left, c, t, nd, h, s);
        if uncle.red {
          m, c', t', h' := InsertRecolor(nd, p, uncle, g, c, t, h, s);
        } else {
          m, c', t' := InsertRight(nd, p, g, c, t, h, s);
          h' := h;
        }
      }
    }

    method UncleAt(u: RbNode?, ghost c: Ctx<RbNode>, ghost t: Tree<RbNode>, ghost nd: RbNode, ghost h: nat,
                   ghost s: seq<RbNode>) returns (uncle: RbNode)
      requires Inserting(c, t, nd, h, s) && HoleUnderRed(c)
      requires !c.up.Top? && u == if c.up.InLeft? then c.up.key.right else c.up.key.left
      ensures uncle == u && uncle.red == !Black(Sibling(c.up))
      ensures uncle.red ==> uncle == Sibling(c.up).key && uncle in repr
    {
      UncleColour(c, t, nd, h, s, u);
      uncle := u;
    }

    method InsertRecolor(nd: RbNode, p: RbNode, uncle: RbNode, g: RbNode, ghost c: Ctx<RbNode>, ghost t: Tree<RbNode>,
                         ghost h: nat, ghost s: seq<RbNode>)
      returns (m: RbNode, ghost c': Ctx<RbNode>, ghost t': Tree<RbNode>, ghost h': nat)
      requires Inserting(c, t, nd, h, s) && HoleUnderRed(c) && !c.up.Top? && !Black(Sibling(c.up))
      requires p == c.key && g == c.up.key && uncle == Sibling(c.up).key
      modifies p`red, uncle`red, g`red
      ensures Inserting(c', t', m, h', s) && Depth(c') < Depth(c)
    {
      Relatives(c, t, nd, h, s);
      hide RbCtx, Rb, Nodes, CNodes, Held, HeldCtx, SeqOf;
      RecoloredState(c, t, h);
      RecoloredSeq(c, t);
      Recolor(nd, p, uncle, g, c, t);
      m, c', t', h' := g, c.up.up, Recolored(c, t), h + 1;
    }

    /** rb_insert_fixup. */
    method InsertFixup(nd0: RbNode, ghost c0: Ctx<RbNode>, ghost t0: Tree<RbNode>, ghost h0: nat, ghost s: seq<RbNode>)
      requires Inserting(c0, t0, nd0, h0, s)
      modifies this`root, this`tree, repr
      ensures Valid() && Contents() == s
    {
      var nd := nd0;
      ghost var c, t, h := c0, t0, h0;
      Relatives(c, t, nd, h, s);
      while nd.parent.red
        invariant Inserting(c, t, nd, h, s) && nd.parent != null && nd.parent.red == HoleUnderRed(c)
        decreases if HoleUnderRed(c) then Depth(c) else 0
      {
        hide Inserting, Depth;
        nd, c, t, h := InsertStep(nd, c, t, h, s);
        Relatives(c, t, nd, h, s);
      }
      Blacken(nd, c, t, h, s);
    }

    /** The last line of rb_insert_fixup: the root turns black. */
    method Blacken(nd: RbNode, ghost c: Ctx<RbNode>, ghost t: Tree<RbNode>, ghost h: nat, ghost s: seq<RbNode>)
      requires Inserting(c, t, nd, h, s) && !HoleUnderRed(c)
      modifies this`tree, repr
      ensures Valid() && Contents() == s
    {
      InsertDone(c, t, h);
      InOrderPlug(c, t);
      ToTop(c, t, nd, t.key.parent);
      PlugIsNode(c, t);
      tree := Plug(c, t);
      SetColor(root, false, Top, tree);
      tree := Paint(tree, false);
    }

    lemma UncleColour(c: Ctx<RbNode>, t: Tree<RbNode>, nd: RbNode, h: nat, s: seq<RbNode>, uncle: RbNode?)
      requires Inserting(c, t, nd, h, s) && HoleUnderRed(c)
      requires !c.up.Top? && uncle == if c.up.InLeft? then c.up.key.right else c.up.key.left
      ensures uncle != null && uncle.red == !Black(Sibling(c.up))
      ensures uncle.red ==> uncle == Sibling(c.up).key && uncle in repr
    {
      Up(c, t, nd, t.key.parent);
      Up(c.up, Wrap(c, t), c.key, c.key.parent);
      FocusSibling(c.up, Wrap(c, t), c.up.key);
    }

    // ---- rb_insert ------------------------------------------------------------------------

    /** One step of the descent of rb_insert: to the left of nodes that nd is
        less than, to the right of all others. */
    method Descend(nd: RbNode, p: RbNode, ghost pre: RbNode, ghost c: Ctx<RbNode>, ghost t: Tree<RbNode>,
                   ghost s: seq<RbNode>)
      returns (q: RbNode, ghost c': Ctx<RbNode>, ghost t': Tree<RbNode>)
      requires At(c, t, p, pre) && p != nil && SeqOf(c, t) == s && Plug(c, t) == tree
      ensures At(c', t', q, p) && SeqOf(c', t') == s && Plug(c', t') == tree && t.Node? && t' < t
      ensures !c'.Top? && c'.up == c && c'.key == p && (c'.InLeft? <==> compare(nd, p) < 0)
      ensures Wrap(c', t') == t
    {
      if compare(nd, p) < 0 {
        DownLeft(c, t, p, pre);
        q := p.left;
        c', t' := InLeft(c, t.key, t.red, t.right), t.left;
      } else {
        DownRight(c, t, p, pre);
        q := p.right;
        c', t' := InRight(t.left, t.key, t.red, c), t.right;
      }
      WrapSeq(c', t');
    }

    /** The new leaf: hung below pre, where the descent ended. */
    method Attach(nd: RbNode, pre: RbNode, ghost c: Ctx<RbNode>)
      requires At(c, Leaf, nil, pre) && nd !in repr && nd != nil
      requires c.Top? <==> pre == nil
      requires !c.Top? ==> (c.InLeft? <==> compare(nd, pre) < 0)
      modifies this`root, this`repr, repr, nd
      ensures At(c, Node(Leaf, nd, true, Leaf), nd, pre) && nd.parent == pre && repr == old(repr) + {nd}
    {
      assert allocated(CNodes(c));
      if pre == nil {
        root := nd;
      } else if compare(nd, pre) < 0 {
        pre.left := nd;
      } else {
        pre.right := nd;
      }
      assert HeldCtx(c, nd, pre);
      nd.left := nil;
      nd.right := nil;
      nd.parent, nd.red := pre, true;
      repr := repr + {nd};
      assert HeldCtx(c, nd, pre);
    }

    /** The loop invariant of the descent: what is known of the place reached. */
    ghost predicate Reached(nd: RbNode, c: Ctx<RbNode>, t: Tree<RbNode>, p: RbNode, pre: RbNode)
      reads this, CNodes(c), Nodes(t)
    {
      && At(c, t, p, pre) && SeqOf(c, t) == InOrder(tree) && Plug(c, t) == tree
      && (c.Top? <==> pre == nil) && (!c.Top? ==> (c.InLeft? <==> compare(nd, pre) < 0))
      && (StrictWeak(compare, repr + {nd}) && Sorted(compare, InOrder(tree)) ==>
            Between(compare, nd, Before(c), After(c)))
    }

    /** The descent of rb_insert, which takes at most 2 log2(n + 1) steps. */
    method FindPlace(nd: RbNode) returns (pre: RbNode, ghost c: Ctx<RbNode>, ghost steps: nat)
      requires Valid() && nd !in repr && nd != nil
      ensures Reached(nd, c, Leaf, nil, pre) && InOrder(tree) == Before(c) + After(c)
      ensures var n := |Contents()|; Bits.Pow2(steps) <= (n + 1) * (n + 1)
    {
      ghost var t;
      pre, c, t, steps := DescendAll(nd);
      EmptyFocus(nd, c, t, nil, pre);
    }

    method DescendAll(nd: RbNode) returns (pre: RbNode, ghost c: Ctx<RbNode>, ghost t: Tree<RbNode>, ghost steps: nat)
      requires Valid() && nd !in repr && nd != nil
      ensures Reached(nd, c, t, nil, pre) && steps == Depth(c)
    {
      ContentsAre();
      StartPlace(nd);
      hide Reached, Valid;
      var p := root;
      pre := nil;
      c, t, steps := Top, tree, 0;
      while p != nil
        invariant Reached(nd, c, t, p, pre) && steps == Depth(c)
        decreases t
      {
        pre, p, c, t := FindStep(nd, c, t, p, pre);
        steps := steps + 1;
      }
    }

    method FindStep(nd: RbNode, ghost c: Ctx<RbNode>, ghost t: Tree<RbNode>, p: RbNode, ghost pre: RbNode)
      returns (p': RbNode, q: RbNode, ghost c': Ctx<RbNode>, ghost t': Tree<RbNode>)
      requires Reached(nd, c, t, p, pre) && p != nil && Within(InOrder(tree), repr)
      ensures Reached(nd, c', t', q, p') && t' < t && Depth(c') == Depth(c) + 1
    {
      q, c', t' := Descend(nd, p, pre, c, t, InOrder(tree));
      hide HeldCtx, Held, Nodes, CNodes, Distinct, DistinctCtx, SeqOf, StrictWeak, Sorted, Between, Before, After,
        InOrder;
      p' := p;
      if StrictWeak(compare, repr + {nd}) && Sorted(compare, InOrder(tree)) {
        WithinMore(InOrder(tree), repr, nd);
        BetweenStep(compare, repr + {nd}, nd, c', t', InOrder(tree));
      }
    }

    /** rb_insert. */
    method Insert(nd: RbNode)
      requires Valid() && nd !in repr && nd != nil
      modifies this`root, this`tree, this`repr, repr, nd
      ensures Valid() && repr == old(repr) + {nd}
      ensures Inserted(compare, repr, old(Contents()), nd, Contents())
    {
      ghost var s, tree0 := InOrder(tree), tree;
      var pre;
      ghost var c, steps;
      pre, c, steps := FindPlace(nd);
      ContentsAre();
      InsertedThere(compare, repr, s, c, nd);
      hide HeldCtx, Held, Nodes, CNodes, Distinct, DistinctCtx, StrictWeak, Sorted, Between, Before, After, RbCtx,
        RedBlack, Inserted, InOrder, SeqOf;
      Attach(nd, pre, c);
      ghost var h := NewLeafState(c, nd, tree0);
      ghost var t := Node(Leaf, nd, true, Leaf);
      InsertFixup(nd, c, t, h, SeqOf(c, t));
    }

    lemma StartPlace(nd: RbNode)
      requires Valid()
      ensures Reached(nd, Top, tree, root, nil)
    {
      assert SeqOf(Top, tree) == InOrder(tree);
    }

    lemma EmptyFocus(nd: RbNode, c: Ctx<RbNode>, t: Tree<RbNode>, p: RbNode, pre: RbNode)
      requires Reached(nd, c, t, p, pre) && p == nil
      ensures t == Leaf && InOrder(tree) == Before(c) + After(c)
      ensures RedBlack(tree) ==> var n := |InOrder(tree)|; Bits.Pow2(Depth(c)) <= (n + 1) * (n + 1)
    {
      if RedBlack(tree) { PathLogarithmic(c, t); }
    }

    // ---- rb_delete_fixup -------------------------------------------------------------------

    /** The state of the loop of rb_delete_fixup at nd, which may be nil: then
        the sentinel's parent field says where it stands. */
    ghost predicate Deleting(c: Ctx<RbNode>, t: Tree<RbNode>, nd: RbNode, h: nat, s: seq<RbNode>)
      reads this, nil, nd, CNodes(c), Nodes(t)
    {
      !nil.red && At(c, t, nd, nd.parent) && DeleteState(c, t, h) && SeqOf(c, t) == s
    }

    /** The tests of the loop: nd is the root exactly when nothing surrounds it,
        and its side below its parent is told by comparing one pointer. */
    lemma DeleteRelatives(c: Ctx<RbNode>, t: Tree<RbNode>, nd: RbNode, h: nat, s: seq<RbNode>)
      requires Deleting(c, t, nd, h, s)
      ensures nd.red == !Black(t) && (nd == root <==> c.Top?)
      ensures !c.Top? ==>
        && nd.parent == c.key && Sibling(c).Node? && (c.InLeft? <==> nd == c.key.left) && c.key in repr
        && Sibling(c).key == (if c.InLeft? then c.key.right else c.key.left)
    {
      if !c.Top? {
        Up(c, t, nd, nd.parent);
        SiblingIsReal(c, t, h);
        RootAbove(c, nd, nd.parent);
      }
    }

    lemma {:induction false} RootAbove(c: Ctx<RbNode>, n: RbNode?, p: RbNode?)
      requires HeldCtx(c, n, p) && !c.Top?
      ensures root in CNodes(c)
      decreases c
    {
      if c.up.Top? {} else { RootAbove(c.up, c.key, c.key.parent); }
    }

    /** Colour the sibling's root. */
    method PaintBrother(bro: RbNode, red: bool, ghost c: Ctx<RbNode>, ghost t: Tree<RbNode>, ghost n: RbNode,
                        ghost p: RbNode)
      requires !c.Top? && Sibling(c).Node? && At(c, t, n, p) && bro == Sibling(c).key
      modifies bro`red
      ensures var d := PaintSibling(c, red); p == c.key && At(c.up, Wrap(d, t), p, p.parent) && p in repr
    {
      Up(c, t, n, p);
      FocusSibling(c, t, p);
      SetColor(bro, red, Mirror(c, t), Sibling(c));
      Up(Mirror(c, t), Paint(Sibling(c), red), bro, p);
      assert Wrap(Mirror(c, t), Paint(Sibling(c), red)) == Wrap(PaintSibling(c, red), t);
    }

    /** The branch for a red sibling on the right. */
    method SwapRedLeft(nd: RbNode, p: RbNode, bro: RbNode, ghost c: Ctx<RbNode>, ghost t: Tree<RbNode>)
      requires c.InLeft? && Sibling(c).Node? && At(c, t, nd, p) && p == c.key && bro == Sibling(c).key
      modifies this`root, repr
      ensures At(SwapRed(c), t, nd, p)
    {
      PaintBrother(bro, false, c, t, nd, p);
      ghost var d := PaintSibling(c, false);
      SetColor(p, true, c.up, Wrap(d, t));
      ghost var w := Paint(Wrap(d, t), true);
      RotateLeft(p, c.up, w);
      DownLeft(c.up, RotL(w), bro, bro.parent);
      DownLeft(SwapRed(c).up, RotL(w).left, p, bro);
    }

    method SwapRedRight(nd: RbNode, p: RbNode, bro: RbNode, ghost c: Ctx<RbNode>, ghost t: Tree<RbNode>)
      requires c.InRight? && Sibling(c).Node? && At(c, t, nd, p) && p == c.key && bro == Sibling(c).key
      modifies this`root, repr
      ensures At(SwapRed(c), t, nd, p)
    {
      PaintBrother(bro, false, c, t, nd, p);
      ghost var d := PaintSibling(c, false);
      SetColor(p, true, c.up, Wrap(d, t));
      ghost var w := Paint(Wrap(d, t), true);
      RotateRight(p, c.up, w);
      DownRight(c.up, RotR(w), bro, bro.parent);
      DownRight(SwapRed(c).up, RotR(w).right, p, bro);
    }

    /** A red inner child of the sibling is turned outwards. */
    method TurnBrotherLeft(nd: RbNode, p: RbNode, bro: RbNode, inner: RbNode, ghost c: Ctx<RbNode>,
                           ghost t: Tree<RbNode>)
      requires c.InLeft? && Sibling(c).Node? && Sibling(c).left.Node? && At(c, t, nd, p) && p == c.key
      requires bro == Sibling(c).key && inner == Sibling(c).left.key
      modifies this`root, repr
      ensures At(TurnSibling(c), t, nd, p)
    {
      ghost var s := Sibling(c);
      ghost var m := Mirror(c, t);
      Up(c, t, nd, p);
      FocusSibling(c, t, p);
      DownLeft(m, s, bro, p);
      SetColor(inner, false, InLeft(m, bro, s.red, s.right), s.left);
      Up(InLeft(m, bro, s.red, s.right), Paint(s.left, false), inner, bro);
      ghost var u := Node(Paint(s.left, false), bro, s.red, s.right);
      SetColor(bro, true, m, u);
      u := Paint(u, true);
      RotateRight(bro, m, u);
      Up(m, RotR(u), inner, inner.parent);
      assert Wrap(m, RotR(u)) == Wrap(TurnSibling(c), t);
      DownLeft(c.up, Wrap(TurnSibling(c), t), p, p.parent);
    }

    method TurnBrotherRight(nd: RbNode, p: RbNode, bro: RbNode, inner: RbNode, ghost c: Ctx<RbNode>,
                            ghost t: Tree<RbNode>)
      requires c.InRight? && Sibling(c).Node? && Sibling(c).right.Node? && At(c, t, nd, p) && p == c.key
      requires bro == Sibling(c).key && inner == Sibling(c).right.key
      modifies this`root, repr
      ensures At(TurnSibling(c), t, nd, p)
    {
      ghost var s := Sibling(c);
      ghost var m := Mirror(c, t);
      Up(c, t, nd, p);
      FocusSibling(c, t, p);
      DownRight(m, s, bro, p);
      SetColor(inner, false, InRight(s.left, bro, s.red, m), s.right);
      Up(InRight(s.left, bro, s.red, m), Paint(s.right, false), inner, bro);
      ghost var u := Node(s.left, bro, s.red, Paint(s.right, false));
      SetColor(bro, true, m, u);
      u := Paint(u, true);
      RotateLeft(bro, m, u);
      Up(m, RotL(u), inner, inner.parent);
      assert Wrap(m, RotL(u)) == Wrap(TurnSibling(c), t);
      DownRight(c.up, Wrap(TurnSibling(c), t), p, p.parent);
    }

    /** The closing step on the left: three colours and a left rotation. */
    method RepairLeft(nd: RbNode, p: RbNode, bro: RbNode, outer: RbNode, ghost c: Ctx<RbNode>, ghost t: Tree<RbNode>)
      requires c.InLeft? && Sibling(c).Node? && Sibling(c).right.Node? && At(c, t, nd, p) && p == c.key
      requires bro == Sibling(c).key && outer == Sibling(c).right.key
      modifies this`root, repr
      ensures At(c.up, Repaired(c, t), bro, bro.parent)
    {
      ghost var s := Sibling(c);
      Up(c, t, nd, p);
      PaintBrother(bro, p.red, c, t, nd, p);
      ghost var d := PaintSibling(c, c.red);
      SetColor(p, false, c.up, Wrap(d, t));
      ghost var e := InLeft(c.up, p, false, Paint(s, c.red));
      assert Paint(Wrap(d, t), false) == Wrap(e, t);
      FocusSibling(e, t, p);
      ghost var m := Mirror(e, t);
      DownRight(m, Sibling(e), bro, p);
      SetColor(outer, false, InRight(s.left, bro, c.red, m), s.right);
      Up(InRight(s.left, bro, c.red, m), Paint(s.right, false), outer, bro);
      ghost var u := Node(s.left, bro, c.red, Paint(s.right, false));
      Up(m, u, bro, p);
      RotateLeft(p, c.up, Node(t, p, false, u));
    }

    method RepairRight(nd: RbNode, p: RbNode, bro: RbNode, outer: RbNode, ghost c: Ctx<RbNode>, ghost t: Tree<RbNode>)
      requires c.InRight? && Sibling(c).Node? && Sibling(c).left.Node? && At(c, t, nd, p) && p == c.key
      requires bro == Sibling(c).key && outer == Sibling(c).left.key
      modifies this`root, repr
      ensures At(c.up, Repaired(c, t), bro, bro.parent)
    {
      ghost var s := Sibling(c);
      Up(c, t, nd, p);
      PaintBrother(bro, p.red, c, t, nd, p);
      ghost var d := PaintSibling(c, c.red);
      SetColor(p, false, c.up, Wrap(d, t));
      ghost var e := InRight(Paint(s, c.red), p, false, c.up);
      assert Paint(Wrap(d, t), false) == Wrap(e, t);
      FocusSibling(e, t, p);
      ghost var m := Mirror(e, t);
      DownLeft(m, Sibling(e), bro, p);
      SetColor(outer, false, InLeft(m, bro, c.red, s.right), s.left);
      Up(InLeft(m, bro, c.red, s.right), Paint(s.left, false), outer, bro);
      ghost var u := Node(Paint(s.left, false), bro, c.red, s.right);
      Up(m, u, bro, p);
      RotateRight(p, c.up, Node(u, p, false, t));
    }

    /** One round of the loop of rb_delete_fixup.  The parts after a possible
        red sibling are Mend. */
    method DeleteStep(nd: RbNode, ghost c: Ctx<RbNode>, ghost t: Tree<RbNode>, ghost h: nat, ghost s: seq<RbNode>)
      returns (m: RbNode, ghost c': Ctx<RbNode>, ghost t': Tree<RbNode>, ghost h': nat)
      requires Deleting(c, t, nd, h, s) && !c.Top? && Black(t)
      modifies this`root, repr
      ensures Deleting(c', t', m, h', s)
      ensures !c'.Top? && Black(t') ==> Depth(c') < Depth(c)
    {
      DeleteRelatives(c, t, nd, h, s);
      SiblingIsReal(c, t, h);
      hide RbCtx, Rb, Nodes, CNodes, Held, HeldCtx, SeqOf, Distinct, DistinctCtx, DeleteState;
      var p: RbNode := nd.parent;
      ghost var d := c;
      if nd == p.left {
        var bro: RbNode := p.right;
        BrotherColour(c, t, nd, p, bro);
        if bro.red {
          SwapRedState(c, t, h);
          SwapRedLeft(nd, p, bro, c, t);
          d := SwapRed(c);
        }
      } else {
        var bro: RbNode := p.left;
        BrotherColour(c, t, nd, p, bro);
        if bro.red {
          SwapRedState(c, t, h);
          SwapRedRight(nd, p, bro, c, t);
          d := SwapRed(c);
        }
      }
      m, c', t', h' := Mend(nd, p, d, t, h, s);
    }

    /** The rest of the round, with a black sibling. */
    method Mend(nd: RbNode, p: RbNode, ghost c: Ctx<RbNode>, ghost t: Tree<RbNode>, ghost h: nat, ghost s: seq<RbNode>)
      returns (m: RbNode, ghost c': Ctx<RbNode>, ghost t': Tree<RbNode>, ghost h': nat)
      requires Deleting(c, t, nd, h, s) && !c.Top? && Black(t) && p == nd.parent && Sibling(c).Node?
        && Black(Sibling(c))
      modifies this`root, repr
      ensures Deleting(c', t', m, h', s)
      ensures c'.Top? || (c' == c.up && Black(t') == !c.red)
    {
      hide RbCtx, Rb, Nodes, CNodes, HeldCtx, SeqOf, Distinct, DistinctCtx, DeleteState;
      DeleteRelatives(c, t, nd, h, s);
      if nd == p.left {
        var bro: RbNode := p.right;
        Nephews(c, t, nd, p, bro);
        if !bro.left.red && !bro.right.red {
          m, c', t', h' := PushUp(nd, p, bro, c, t, h, s);
        } else {
          ghost var d := c;
          if !bro.right.red {
            TurnSiblingState(c, t, h);
            TurnBrotherLeft(nd, p, bro, bro.left, c, t);
            d := TurnSibling(c);
            DeleteRelatives(d, t, nd, h, s);
            bro := p.right;
            Nephews(d, t, nd, p, bro);
          }
          m, c', t', h' := RepairL(nd, p, bro, d, t, h, s);
        }
      } else {
        var bro: RbNode := p.left;
        Nephews(c, t, nd, p, bro);
        if !bro.left.red && !bro.right.red {
          m, c', t', h' := PushUp(nd, p, bro, c, t, h, s);
        } else {
          ghost var d := c;
          if !bro.left.red {
            TurnSiblingState(c, t, h);
            TurnBrotherRight(nd, p, bro, bro.right, c, t);
            d := TurnSibling(c);
            DeleteRelatives(d, t, nd, h, s);
            bro := p.left;
            Nephews(d, t, nd, p, bro);
          }
          m, c', t', h' := RepairR(nd, p, bro, d, t, h, s);
        }
      }
    }

    lemma BrotherColour(c: Ctx<RbNode>, t: Tree<RbNode>, n: RbNode, p: RbNode, bro: RbNode)
      requires !c.Top? && Sibling(c).Node? && At(c, t, n, p) && bro == Sibling(c).key
      ensures bro.red == Sibling(c).red
    {
      Up(c, t, n, p);
      FocusSibling(c, t, p);
    }

    /** The children of the sibling, real or not, have the colours of the tree. */
    lemma Nephews(c: Ctx<RbNode>, t: Tree<RbNode>, n: RbNode, p: RbNode, bro: RbNode)
      requires !nil.red && !c.Top? && Sibling(c).Node? && At(c, t, n, p) && bro == Sibling(c).key
      ensures bro.left != null && bro.right != null
      ensures bro.left.red == !Black(Sibling(c).left) && bro.right.red == !Black(Sibling(c).right)
      ensures Sibling(c).left.Node? ==> bro.left == Sibling(c).left.key
      ensures Sibling(c).right.Node? ==> bro.right == Sibling(c).right.key
    {
      Up(c, t, n, p);
      FocusSibling(c, t, p);
      DownLeft(Mirror(c, t), Sibling(c), bro, p);
      DownRight(Mirror(c, t), Sibling(c), bro, p);
    }

    method PushUp(nd: RbNode, p: RbNode, bro: RbNode, ghost c: Ctx<RbNode>, ghost t: Tree<RbNode>, ghost h: nat,
                  ghost s: seq<RbNode>)
      returns (m: RbNode, ghost c': Ctx<RbNode>, ghost t': Tree<RbNode>, ghost h': nat)
      requires Deleting(c, t, nd, h, s) && !c.Top? && Black(t) && p == nd.parent && Sibling(c).Node?
        && Black(Sibling(c))
      requires bro == Sibling(c).key && Black(Sibling(c).left) && Black(Sibling(c).right)
      modifies this`root, repr
      ensures Deleting(c', t', m, h', s) && c' == c.up && Black(t') == !c.red
    {
      assert bro in CNodes(c);
      hide RbCtx, Rb, Nodes, CNodes, Held, HeldCtx, SeqOf, Distinct, DistinctCtx, DeleteState;
      PushUpState(c, t, h);
      PaintBrother(bro, true, c, t, nd, p);
      m, c', t', h' := p, c.up, Wrap(PaintSibling(c, true), t), if c.red then h else h + 1;
    }

    method RepairL(nd: RbNode, p: RbNode, bro: RbNode, ghost c: Ctx<RbNode>, ghost t: Tree<RbNode>, ghost h: nat,
                   ghost s: seq<RbNode>)
      returns (m: RbNode, ghost c': Ctx<RbNode>, ghost t': Tree<RbNode>, ghost h': nat)
      requires Deleting(c, t, nd, h, s) && c.InLeft? && Black(t) && p == nd.parent && Sibling(c).Node?
        && Black(Sibling(c))
      requires bro == Sibling(c).key && !Black(Sibling(c).right) && bro.right == Sibling(c).right.key && p == c.key
      modifies this`root, repr
      ensures Deleting(c', t', m, h', s) && c'.Top?
    {
      hide RbCtx, Rb, Nodes, CNodes, Held, HeldCtx, SeqOf, Distinct, DistinctCtx;
      RepairedState(c, t, h);
      RepairLeft(nd, p, bro, bro.right, c, t);
      m, c', t', h' := WholeTree(bro, c.up, Repaired(c, t), s);
    }

    method RepairR(nd: RbNode, p: RbNode, bro: RbNode, ghost c: Ctx<RbNode>, ghost t: Tree<RbNode>, ghost h: nat,
                   ghost s: seq<RbNode>)
      returns (m: RbNode, ghost c': Ctx<RbNode>, ghost t': Tree<RbNode>, ghost h': nat)
      requires Deleting(c, t, nd, h, s) && c.InRight? && Black(t) && p == nd.parent && Sibling(c).Node?
        && Black(Sibling(c))
      requires bro == Sibling(c).key && !Black(Sibling(c).left) && bro.left == Sibling(c).left.key && p == c.key
      modifies this`root, repr
      ensures Deleting(c', t', m, h', s) && c'.Top?
    {
      hide RbCtx, Rb, Nodes, CNodes, Held, HeldCtx, SeqOf, Distinct, DistinctCtx;
      RepairedState(c, t, h);
      RepairRight(nd, p, bro, bro.left, c, t);
      m, c', t', h' := WholeTree(bro, c.up, Repaired(c, t), s);
    }

    /** nd = rb->root, which ends the loop. */
    method WholeTree(n: RbNode, ghost c: Ctx<RbNode>, ghost t: Tree<RbNode>, ghost s: seq<RbNode>)
      returns (m: RbNode, ghost c': Ctx<RbNode>, ghost t': Tree<RbNode>, ghost h': nat)
      requires !nil.red && t.Node? && At(c, t, n, n.parent) && RedBlack(Plug(c, t)) && SeqOf(c, t) == s
      ensures Deleting(c', t', m, h', s) && c'.Top?
    {
      ToTop(c, t, n, n.parent);
      InOrderPlug(c, t);
      PlugIsNode(c, t);
      m, c', t' := root, Top, Plug(c, t);
      h' := BlackHeight(t');
      assert SeqOf(c', t') == InOrder(t');
    }

    /** rb_delete_fixup. */
    method DeleteFixup(nd0: RbNode, ghost c0: Ctx<RbNode>, ghost t0: Tree<RbNode>, ghost h0: nat, ghost s: seq<RbNode>)
      requires Deleting(c0, t0, nd0, h0, s)
      modifies this`root, this`tree, repr, nil`red
      ensures Valid() && Contents() == s
    {
      var nd := nd0;
      ghost var c, t, h := c0, t0, h0;
      DeleteRelatives(c, t, nd, h, s);
      while nd != root && !nd.red
        invariant Deleting(c, t, nd, h, s) && nd.red == !Black(t) && (nd == root <==> c.Top?)
        decreases if c.Top? || !Black(t) then 0 else Depth(c)
      {
        hide Deleting, Depth;
        nd, c, t, h := DeleteStep(nd, c, t, h, s);
        DeleteRelatives(c, t, nd, h, s);
      }
      DeleteEnd(nd, c, t, h, s);
    }

    /** The last line of rb_delete_fixup: nd turns black. */
    method DeleteEnd(nd: RbNode, ghost c: Ctx<RbNode>, ghost t: Tree<RbNode>, ghost h: nat, ghost s: seq<RbNode>)
      requires Deleting(c, t, nd, h, s) && nd.red == !Black(t) && (c.Top? || !Black(t))
      modifies this`tree, nd`red
      ensures Valid() && Contents() == s
    {
      DeleteDone(c, t, h);
      ghost var u := if Black(t) then t else Paint(t, false);
      TurnBlack(nd, c, t);
      hide Held, HeldCtx, Nodes, CNodes, Distinct, DistinctCtx, DeleteState;
      InOrderPlug(c, u);
      ToTop(c, u, nd, nd.parent);
      tree := Plug(c, u);
    }

    method TurnBlack(nd: RbNode, ghost c: Ctx<RbNode>, ghost t: Tree<RbNode>)
      requires !nil.red && At(c, t, nd, nd.parent)
      modifies nd`red
      ensures !nil.red && At(c, if Black(t) then t else Paint(t, false), nd, nd.parent)
    {
      assert allocated(CNodes(c)) && allocated(Nodes(t));
      nd.red := false;
    }

    // ---- rb_delete -----------------------------------------------------------------------------

    /** From the whole tree down to any focus. */
    lemma {:induction false} FromTop(c: Ctx<RbNode>, t: Tree<RbNode>) returns (n: RbNode?, p: RbNode?)
      requires At(Top, Plug(c, t), root, nil)
      ensures At(c, t, n, p)
      decreases c
    {
      if c.Top? { n, p := root, nil; }
      else {
        WrapSeq(c, t);
        var k, q := FromTop(c.up, Wrap(c, t));
        if c.InLeft? { DownLeft(c.up, Wrap(c, t), k, q); n, p := c.key.left, c.key; }
        else { DownRight(c.up, Wrap(c, t), k, q); n, p := c.key.right, c.key; }
      }
    }

    /** The focus on a given node of the tree. */
    lemma Find(nd: RbNode) returns (c: Ctx<RbNode>, t: Tree<RbNode>)
      requires Valid() && nd in repr
      ensures Plug(c, t) == tree && t.Node? && t.key == nd && At(c, t, nd, nd.parent) && Contents() == SeqOf(c, t)
    {
      ContentsAre();
      c, t := Locate(Top, tree, nd);
      var n, p := FromTop(c, t);
      InOrderPlug(c, t);
    }

    /** rb_transplant.  When y is the sentinel, its parent is overwritten. */
    method Transplant(x: RbNode, y: RbNode, ghost c: Ctx<RbNode>)
      requires HeldCtx(c, x, x.parent) && DistinctCtx(c) && x !in CNodes(c) && x != nil && nil !in CNodes(c)
        && y !in CNodes(c)
      modifies this`root, CNodes(c), y`parent
      ensures HeldCtx(c, y, y.parent) && y.parent == old(x.parent)
    {
      assert allocated(CNodes(c));
      ReplaceChild(x, y, c);
      y.parent := x.parent;
    }

    /** A node with at most one child gives its place to that child. */
    method Splice(x: RbNode, y: RbNode, ghost c: Ctx<RbNode>, ghost t: Tree<RbNode>, ghost u: Tree<RbNode>)
      requires t.Node? && At(c, t, x, x.parent)
      requires (t.left.Leaf? && y == x.right && u == t.right) || (t.right.Leaf? && y == x.left && u == t.left)
      modifies this`root, this`repr, CNodes(c), y`parent
      ensures repr == old(repr) - {x} && At(c, u, y, y.parent) && y.parent == old(x.parent)
      ensures x.left == old(x.left) && x.right == old(x.right) && x.red == old(x.red)
    {
      OnlyChild(c, t, u, x, y);
      assert allocated(CNodes(c)) && allocated(Nodes(u));
      Transplant(x, y, c);
      repr := repr - {x};
      assert Held(nil, u, y, y.parent);
    }

    lemma OnlyChild(c: Ctx<RbNode>, t: Tree<RbNode>, u: Tree<RbNode>, x: RbNode, y: RbNode)
      requires t.Node? && At(c, t, x, x.parent)
      requires (t.left.Leaf? && y == x.right && u == t.right) || (t.right.Leaf? && y == x.left && u == t.left)
      ensures x == t.key && x != nil && Held(nil, u, y, x) && Sep(nil, c, u) && y !in CNodes(c) && y != x
      ensures x !in CNodes(c) && x !in Nodes(u) && CNodes(c) + Nodes(u) == repr - {x}
      ensures u.Leaf? ==> y == nil
      ensures u.Node? ==> y == u.key
    {
    }

    /** One step of rb_left_most, cy being the way from the start. */
    lemma StepLeft(m: RbNode, c: Ctx<RbNode>, cy: Ctx<RbNode>, u: Tree<RbNode>)
      requires u.Node? && At(Comp(cy, c), u, m, m.parent)
      ensures m == u.key && m.left != null && (m.left == nil <==> u.left.Leaf?)
      ensures u.left.Node? ==>
        && m.left == u.left.key && m.left.parent == m
        && At(Comp(InLeft(cy, u.key, u.red, u.right), c), u.left, m.left, m)
    {
      DownLeft(Comp(cy, c), u, m, m.parent);
      hide HeldCtx, DistinctCtx, CNodes;
    }

    /** rb_left_most below n. */
    method LeftMost(n: RbNode, ghost c: Ctx<RbNode>, ghost t: Tree<RbNode>, ghost p: RbNode)
      returns (m: RbNode, ghost cy: Ctx<RbNode>, ghost yred: bool, ghost yr: Tree<RbNode>)
      requires t.Node? && At(c, t, n, p)
      ensures var u := Node(Leaf, m, yred, yr);
        && LeftSpine(cy) && Plug(cy, u) == t && At(Comp(cy, c), u, m, m.parent)
        && (cy.Top? ==> m == n) && (!cy.Top? ==> m.parent == cy.key)
    {
      m := n;
      cy := Top;
      ghost var u := t;
      DownLeft(c, u, m, p);
      hide At;
      StepLeft(m, c, cy, u);
      while m.left != nil
        invariant LeftSpine(cy) && u.Node? && m == u.key && Plug(cy, u) == t && At(Comp(cy, c), u, m, m.parent)
        invariant m.left != null && (m.left == nil <==> u.left.Leaf?)
        invariant u.left.Node? ==>
          && m.left == u.left.key && m.left.parent == m
          && At(Comp(InLeft(cy, u.key, u.red, u.right), c), u.left, m.left, m)
        invariant (cy.Top? ==> m == n) && (!cy.Top? ==> m.parent == cy.key)
        decreases u
      {
        m := m.left;
        cy, u := InLeft(cy, u.key, u.red, u.right), u.left;
        StepLeft(m, c, cy, u);
      }
      yred, yr := u.red, u.right;
    }

    /** y, whose right subtree is in place, takes over the left subtree, the
        colour and the parent of nd. */
    method TakePlace(nd: RbNode, y: RbNode, ghost c: Ctx<RbNode>, ghost l: Tree<RbNode>, ghost red: bool,
                     ghost r: Tree<RbNode>)
      requires HeldCtx(c, nd, nd.parent) && Clear(nil, c, l, nd, y, r) && nd.red == red
      requires l.Node? && Held(nil, l, nd.left, nd) && Held(nil, r, y.right, y)
      modifies this`root, CNodes(c), y, Nodes(l)
      ensures HeldCtx(c, y, y.parent) && Held(nil, Node(l, y, red, r), y, y.parent) && y.right == old(y.right)
    {
      hide HeldCtx, Nodes, CNodes, Distinct, DistinctCtx, Held;
      RootIs(nil, l, nd.left, nd);
      assert allocated(CNodes(c)) && allocated(Nodes(l)) && allocated(Nodes(r));
      Transplant(nd, y, c);
      y.left := nd.left;
      Adopt(nil, y.left, y, l, nd);
      y.red := nd.red;
      HeldNode(nil, l, y, red, r);
    }

    /** Up the left spine of the right subtree, to its root. */
    lemma {:induction false} UpSpine(cy: Ctx<RbNode>, c: Ctx<RbNode>, t: Tree<RbNode>, n: RbNode?, p: RbNode?)
      returns (m: RbNode?, q: RbNode?)
      requires At(Comp(cy, c), t, n, p)
      ensures At(c, Plug(cy, t), m, q)
      decreases cy
    {
      if cy.Top? { m, q := n, p; }
      else {
        Up(Comp(cy, c), t, n, p);
        WrapSeq(cy, t);
        m, q := UpSpine(cy.up, c, Wrap(cy, t), p, cy.key.parent);
      }
    }

    lemma {:induction false} DownSpine(cy: Ctx<RbNode>, c: Ctx<RbNode>, t: Tree<RbNode>, m: RbNode?, q: RbNode?)
      returns (n: RbNode?, p: RbNode?)
      requires At(c, Plug(cy, t), m, q)
      ensures At(Comp(cy, c), t, n, p) && (!cy.Top? ==> p == cy.key) && (cy.Top? ==> n == m && p == q)
      decreases cy
    {
      if cy.Top? { n, p := m, q; }
      else {
        WrapSeq(cy, t);
        var k, r := DownSpine(cy.up, c, Wrap(cy, t), m, q);
        if cy.InLeft? { DownLeft(Comp(cy.up, c), Wrap(cy, t), k, r); n, p := cy.key.left, cy.key; }
        else { DownRight(Comp(cy.up, c), Wrap(cy, t), k, r); n, p := cy.key.right, cy.key; }
      }
    }

    /** The links around a node nd with two children, the right one being its
        successor y. */
    lemma ChildLinks(c: Ctx<RbNode>, l: Tree<RbNode>, nd: RbNode, red: bool, y: RbNode, yred: bool, yr: Tree<RbNode>)
      requires At(c, Node(l, nd, red, Node(Leaf, y, yred, yr)), nd, nd.parent)
      ensures nd.right == y && nd.red == red && Held(nil, l, nd.left, nd) && Held(nil, yr, y.right, y)
        && HeldCtx(c, nd, nd.parent)
      ensures if yr.Leaf? then y.right == nil else y.right == yr.key
    {
      hide HeldCtx, CNodes, Distinct, DistinctCtx, Sep, Nodes;
      assert Held(nil, Node(Leaf, y, yred, yr), nd.right, nd);
    }

    /** Where the nodes around nd and its successor y are, x being y's right child. */
    lemma ChildPlaces(c: Ctx<RbNode>, l: Tree<RbNode>, nd: RbNode, red: bool, y: RbNode, yred: bool, yr: Tree<RbNode>,
                      x: RbNode)
      requires At(c, Node(l, nd, red, Node(Leaf, y, yred, yr)), nd, nd.parent) && x == if yr.Leaf? then nil else yr.key
      ensures Clear(nil, c, l, nd, y, yr) && Sep(nil, c, Node(l, y, red, yr))
      ensures x !in CNodes(c) && x !in Nodes(l) && x != nd && x != y
      ensures CNodes(c) <= repr && Nodes(l) <= repr && y in repr
        && CNodes(c) + Nodes(Node(l, y, red, yr)) == repr - {nd}
    {
      SepChild(nil, c, l, nd, red, y, yred, yr);
      SepRename(nil, c, l, nd, y, red, yr);
      NodesOf(l, nd, red, yr);
      assert yr.Node? ==> yr.key in Nodes(yr);
      hide HeldCtx, CNodes, Distinct, DistinctCtx, Nodes, Held;
    }

    /** The successor y is the right child of nd. */
    method MoveUpChild(nd: RbNode, y: RbNode, x: RbNode, ghost c: Ctx<RbNode>, ghost l: Tree<RbNode>, ghost red: bool,
                       ghost yred: bool, ghost yr: Tree<RbNode>)
      requires l.Node? && At(c, Node(l, nd, red, Node(Leaf, y, yred, yr)), nd, nd.parent) && x == y.right
      modifies this`root, this`repr, repr, x`parent
      ensures repr == old(repr) - {nd} && At(c, Node(l, y, red, yr), y, y.parent) && y.right == x && x.parent == y
    {
      hide HeldCtx, CNodes, Distinct, DistinctCtx, Sep, Nodes, Held;
      ChildLinks(c, l, nd, red, y, yred, yr);
      ChildPlaces(c, l, nd, red, y, yred, yr, x);
      assert allocated(CNodes(c)) && allocated(Nodes(l)) && allocated(Nodes(yr));
      SetParent(x, y, yr, y);
      TakePlace(nd, y, c, l, red, yr);
      repr := repr - {nd};
    }

    /** What Supplant relies on: the links around nd, and where the nodes are. */
    lemma Links(c: Ctx<RbNode>, l: Tree<RbNode>, nd: RbNode, red: bool, r: Tree<RbNode>)
      requires At(c, Node(l, nd, red, r), nd, nd.parent)
      ensures HeldCtx(c, nd, nd.parent) && Held(nil, l, nd.left, nd) && Held(nil, r, nd.right, nd) && nd.red == red
      ensures r.Node? ==> r.key in Nodes(r) && nd.right == r.key
    {
      hide HeldCtx, CNodes, Distinct, DistinctCtx, Sep;
    }

    lemma Places(c: Ctx<RbNode>, l: Tree<RbNode>, nd: RbNode, y: RbNode, red: bool, r: Tree<RbNode>)
      requires Sep(nil, c, Node(l, nd, red, r)) && CNodes(c) + Nodes(Node(l, nd, red, r)) == repr && y !in repr
        && y != nil
      ensures Clear(nil, c, l, nd, y, r) && Sep(nil, c, Node(l, y, red, r))
      ensures CNodes(c) <= repr && Nodes(l) <= repr && Nodes(r) <= repr
      ensures CNodes(c) + Nodes(Node(l, y, red, r)) == repr - {nd} + {y}
    {
      NodesOf(l, nd, red, r);
      hide Nodes, CNodes, Distinct, DistinctCtx, Sep;
      SepRename(nil, c, l, nd, y, red, r);
    }

    /** y, which is not in the tree, takes over the place of nd. */
    method Supplant(nd: RbNode, y: RbNode, ghost c: Ctx<RbNode>, ghost l: Tree<RbNode>, ghost red: bool,
                    ghost r: Tree<RbNode>)
      requires l.Node? && r.Node? && At(c, Node(l, nd, red, r), nd, nd.parent) && y !in repr && y != nil
      modifies this`root, this`repr, repr, y
      ensures repr == old(repr) - {nd} + {y} && At(c, Node(l, y, red, r), y, y.parent)
    {
      hide HeldCtx, CNodes, Distinct, DistinctCtx, Sep, Nodes, Held;
      Links(c, l, nd, red, r);
      Places(c, l, nd, y, red, r);
      assert allocated(CNodes(c)) && allocated(Nodes(l)) && allocated(Nodes(r));
      y.right := nd.right;
      SetParent(y.right, y, r, nd);
      TakePlace(nd, y, c, l, red, r);
      repr := repr - {nd} + {y};
    }

    /** From the place that y has left, back up to nd. */
    lemma BackUp(nd: RbNode, x: RbNode, c: Ctx<RbNode>, l: Tree<RbNode>, red: bool, cy: Ctx<RbNode>, yr: Tree<RbNode>)
      requires !cy.Top? && At(Comp(cy, InRight(l, nd, red, c)), yr, x, x.parent)
      ensures Plug(cy, yr).Node? && At(c, Node(l, nd, red, Plug(cy, yr)), nd, nd.parent) && nd in repr
    {
      PlugCtxIsNode(cy, yr);
      hide At, Plug;
      var m, q := UpSpine(cy, InRight(l, nd, red, c), yr, x, x.parent);
      Up(InRight(l, nd, red, c), Plug(cy, yr), m, q);
    }

    lemma SuccessorIn(d: Ctx<RbNode>, y: RbNode, yred: bool, yr: Tree<RbNode>)
      requires At(d, Node(Leaf, y, yred, yr), y, y.parent)
      ensures y in repr && y != nil && nil !in repr && CNodes(d) <= repr
    {
      assert y in Nodes(Node(Leaf, y, yred, yr));
    }

    /** The successor y is further down, at the end of the path cy. */
    method MoveUpDeep(nd: RbNode, y: RbNode, x: RbNode, ghost c: Ctx<RbNode>, ghost l: Tree<RbNode>, ghost red: bool,
                      ghost cy: Ctx<RbNode>, ghost yred: bool, ghost yr: Tree<RbNode>)
      requires l.Node? && !cy.Top? && x == y.right
      requires At(Comp(cy, InRight(l, nd, red, c)), Node(Leaf, y, yred, yr), y, y.parent)
      modifies this`root, this`repr, repr, x`parent
      ensures repr == old(repr) - {nd} && At(c, Node(l, y, red, Plug(cy, yr)), y, y.parent)
      ensures x == nil ==> nil.parent == old(y.parent)
    {
      hide At, HeldCtx, CNodes, Distinct, DistinctCtx, Nodes, Held, Plug, Comp;
      ghost var d := Comp(cy, InRight(l, nd, red, c));
      SuccessorIn(d, y, yred, yr);
      Splice(y, x, d, Node(Leaf, y, yred, yr), yr);
      BackUp(nd, x, c, l, red, cy, yr);
      Supplant(nd, y, c, l, red, Plug(cy, yr));
    }

    /** The focus on the right subtree of y, x being its root or the sentinel. */
    lemma DeepFocus(c: Ctx<RbNode>, l: Tree<RbNode>, y: RbNode, red: bool, cy: Ctx<RbNode>, yr: Tree<RbNode>, x: RbNode)
      requires At(c, Node(l, y, red, Plug(cy, yr)), y, y.parent) && x == if yr.Leaf? then nil else yr.key
      requires yr.Leaf? ==> nil.parent == if cy.Top? then y else cy.key
      ensures At(Comp(cy, InRight(l, y, red, c)), yr, x, x.parent)
    {
      hide At, Plug;
      DownRight(c, Node(l, y, red, Plug(cy, yr)), y, y.parent);
      var n, p := DownSpine(cy, InRight(l, y, red, c), yr, y.right, y);
      FocusIs(Comp(cy, InRight(l, y, red, c)), yr, n, p);
    }

    lemma FocusIs(c: Ctx<RbNode>, t: Tree<RbNode>, n: RbNode?, p: RbNode?)
      requires At(c, t, n, p)
      ensures if t.Leaf? then n == nil else n == t.key && t.key.parent == p
    {
    }

    /** The pointers below nd agree with the subtree there. */
    lemma Children(c: Ctx<RbNode>, t: Tree<RbNode>, nd: RbNode)
      requires t.Node? && At(c, t, nd, nd.parent)
      ensures nd == t.key && nd.red == t.red && nd.left != null && nd.right != null
      ensures nd.left == (if t.left.Leaf? then nil else t.left.key) && (nd.left == nil <==> t.left.Leaf?)
      ensures nd.right == (if t.right.Leaf? then nil else t.right.key) && (nd.right == nil <==> t.right.Leaf?)
      ensures (t.left.Node? ==> nd.left in repr) && (t.right.Node? ==> nd.right in repr)
    {
      assert Held(nil, t.left, nd.left, nd) && Held(nil, t.right, nd.right, nd);
      hide CNodes, DistinctCtx, HeldCtx;
    }

    /** The test nd == parent(y) for the successor y of nd. */
    lemma Successor(nd: RbNode, y: RbNode, c: Ctx<RbNode>, l: Tree<RbNode>, red: bool, cy: Ctx<RbNode>, u: Tree<RbNode>)
      requires u.Node? && At(Comp(cy, InRight(l, nd, red, c)), u, y, y.parent) && (!cy.Top? ==> y.parent == cy.key)
      ensures cy.Top? <==> y.parent == nd
      ensures cy.Top? ==> At(c, Node(l, nd, red, u), nd, nd.parent)
    {
      ghost var d := InRight(l, nd, red, c);
      if cy.Top? { Up(d, u, y, y.parent); } else { OnPath(cy.up, d); }
    }

    lemma {:induction false} OnPath(cy: Ctx<RbNode>, d: Ctx<RbNode>)
      requires !d.Top?
      ensures d.key in CNodes(Comp(cy, d))
      decreases cy
    {
      if !cy.Top? { OnPath(cy.up, d); }
    }

    /** The successor y, at the end of the path cy, takes the place of nd. */
    method MoveUp(nd: RbNode, y: RbNode, x: RbNode, ghost c: Ctx<RbNode>, ghost l: Tree<RbNode>, ghost red: bool,
                  ghost cy: Ctx<RbNode>, ghost yred: bool, ghost yr: Tree<RbNode>)
      requires l.Node? && x == y.right && (!cy.Top? ==> y.parent == cy.key)
      requires At(Comp(cy, InRight(l, nd, red, c)), Node(Leaf, y, yred, yr), y, y.parent)
      modifies this`root, this`repr, repr, x`parent
      ensures repr == old(repr) - {nd} && At(Comp(cy, InRight(l, y, red, c)), yr, x, x.parent)
    {
      Successor(nd, y, c, l, red, cy, Node(Leaf, y, yred, yr));
      Children(Comp(cy, InRight(l, nd, red, c)), Node(Leaf, y, yred, yr), y);
      hide At;
      if nd == y.parent {
        MoveUpChild(nd, y, x, c, l, red, yred, yr);
      } else {
        MoveUpDeep(nd, y, x, c, l, red, cy, yred, yr);
      }
      DeepFocus(c, l, y, red, cy, yr, x);
    }

    /** After the node nd has been taken out of the sequence before: x stands
        where the tree has shrunk, and if a black node is gone there, the rest
        is the work of rb_delete_fixup. */
    ghost predicate TakenOut(c: Ctx<RbNode>, t: Tree<RbNode>, x: RbNode, red: bool, h: nat)
      reads this, nil, x, CNodes(c), Nodes(t)
    {
      !nil.red && At(c, t, x, x.parent) && if red then RedBlack(Plug(c, t)) else DeleteState(c, t, h)
    }

    /** A node with at most one child. */
    method DeleteOne(nd: RbNode, x: RbNode, ghost c: Ctx<RbNode>, ghost t: Tree<RbNode>)
      returns (ghost u: Tree<RbNode>, ghost h: nat)
      requires !nil.red && t.Node? && At(c, t, nd, nd.parent) && RedBlack(Plug(c, t))
      requires (t.left.Leaf? && x == nd.right) || (t.right.Leaf? && x == nd.left)
      modifies this`root, this`repr, repr, x`parent
      ensures repr == old(repr) - {nd} && TakenOut(c, u, x, t.red, h) && Removed(SeqOf(c, t), nd, SeqOf(c, u))
    {
      FocusIs(c, t, nd, nd.parent);
      u := if t.left.Leaf? && x == nd.right then t.right else t.left;
      h := SpliceOut(c, t, u);
      hide RbCtx, Rb, RedBlack, Plug, SeqOf, InOrder, Removed, DeleteState;
      Splice(nd, x, c, t, u);
    }

    /** A node with two children, whose successor y takes its place. */
    method DeleteTwo(nd: RbNode, ghost c: Ctx<RbNode>, ghost t: Tree<RbNode>)
      returns (x: RbNode, red: bool, ghost d: Ctx<RbNode>, ghost u: Tree<RbNode>, ghost h: nat)
      requires !nil.red && t.Node? && t.left.Node? && t.right.Node? && At(c, t, nd, nd.parent) && RedBlack(Plug(c, t))
      modifies this`root, this`repr, repr, nil`parent
      ensures repr == old(repr) - {nd} && TakenOut(d, u, x, red, h) && Removed(SeqOf(c, t), nd, SeqOf(d, u))
    {
      DownRight(c, t, nd, nd.parent);
      Children(c, t, nd);
      ghost var l := t.left;
      var y, cy, yred, yr := LeftMost(nd.right, InRight(l, nd, t.red, c), t.right, nd);
      Children(Comp(cy, InRight(l, nd, t.red, c)), Node(Leaf, y, yred, yr), y);
      h := SwapOut(c, l, nd, t.red, cy, y, yred, yr);
      SwapOutSeq(c, l, nd, t.red, cy, y, yred, yr);
      hide At, RedBlack, SeqOf, InOrder, Removed, DeleteState, LeftSpine, Plug, Comp;
      red := y.red;
      x := y.right;
      MoveUp(nd, y, x, c, l, t.red, cy, yred, yr);
      d, u := Comp(cy, InRight(l, y, t.red, c)), yr;
    }

    /** The end of rb_delete: the fix-up, if a black node is gone. */
    method Finish(x: RbNode, red: bool, ghost c: Ctx<RbNode>, ghost u: Tree<RbNode>, ghost h: nat)
      requires TakenOut(c, u, x, red, h)
      modifies this`root, this`tree, repr, nil`red
      ensures Valid() && Contents() == SeqOf(c, u)
    {
      if !red {
        DeleteFixup(x, c, u, h, SeqOf(c, u));
      } else {
        ToTop(c, u, x, x.parent);
        InOrderPlug(c, u);
        tree := Plug(c, u);
      }
    }

    /** rb_delete. */
    method Delete(nd: RbNode)
      requires Valid() && nd in repr
      modifies this`root, this`tree, this`repr, repr, nil
      ensures Valid() && repr == old(repr) - {nd}
      ensures Removed(old(Contents()), nd, Contents())
    {
      hide At, TakenOut, SeqOf, InOrder, Removed, DeleteState, RedBlack, Plug;
      ghost var c, t := Find(nd);
      ghost var u, h;
      Children(c, t, nd);
      var x, red := nil, nd.red;
      if nd.left == nil {
        x := nd.right;
        u, h := DeleteOne(nd, x, c, t);
      } else if nd.right == nil {
        x := nd.left;
        u, h := DeleteOne(nd, x, c, t);
      } else {
        x, red, c, u, h := DeleteTwo(nd, c, t);
      }
      Finish(x, red, c, u, h);
    }

    // ---- the iterators ---------------------------------------------------------------------------

    /** rb_right_most below n. */
    method RightMost(n: RbNode, ghost c: Ctx<RbNode>, ghost t: Tree<RbNode>, ghost p: RbNode) returns (m: RbNode)
      requires t.Node? && At(c, t, n, p)
      ensures InOrder(t) != [] && m == InOrder(t)[|InOrder(t)| - 1] && m in repr
    {
      m := n;
      FocusIs(c, t, m, p);
      Children(c, t, m);
      hide At;
      ghost var d, u := c, t;
      while m.right != nil
        invariant u.Node? && m == u.key && At(d, u, m, m.parent) && EndsAlike(InOrder(t), InOrder(u))
        invariant m.right != null && (m.right == nil <==> u.right.Leaf?) && (u.right.Node? ==> m.right == u.right.key)
        decreases u
      {
        DownRight(d, u, m, m.parent);
        m := m.right;
        d, u := InRight(u.left, u.key, u.red, d), u.right;
        FocusIs(d, u, m, d.key);
        Children(d, u, m);
      }
      KeyInRepr(d, u, m);
    }

    lemma KeyInRepr(c: Ctx<RbNode>, t: Tree<RbNode>, n: RbNode)
      requires t.Node? && At(c, t, n, n.parent)
      ensures n in repr
    {
    }

    /** rb_first. */
    method First() returns (m: RbNode)
      requires Valid()
      ensures m == if Contents() == [] then nil else Contents()[0]
    {
      if root != nil {
        ghost var cy, yred, yr;
        m, cy, yred, yr := LeftMost(root, Top, tree, nil);
        SpineFirst(cy, Node(Leaf, m, yred, yr));
      } else {
        m := nil;
      }
    }

    /** rb_last. */
    method Last() returns (m: RbNode)
      requires Valid()
      ensures m == if Contents() == [] then nil else Contents()[|Contents()| - 1]
    {
      if root != nil {
        m := RightMost(root, Top, tree, nil);
      } else {
        m := nil;
      }
    }

    /** The side of a real node below its parent. */
    lemma SideOf(c: Ctx<RbNode>, t: Tree<RbNode>, n: RbNode, p: RbNode?)
      requires t.Node? && At(c, t, n, p)
      ensures c.Top? <==> p == nil
      ensures !c.Top? ==> p == c.key && (c.InLeft? <==> p.left == n) && (c.InRight? <==> p.right == n)
      ensures !c.Top? ==>
        c.key in repr && c.key.parent != null && Wrap(c, t).Node? && At(c.up, Wrap(c, t), p, c.key.parent)
    {
      if !c.Top? {
        Up(c, t, n, p);
        ParentIs(c.up, c.key, c.key.parent);
      }
    }

    lemma ParentIs(c: Ctx<RbNode>, n: RbNode?, p: RbNode?)
      requires HeldCtx(c, n, p)
      ensures p == if c.Top? then nil else c.key
    {
    }

    /** rb_next. */
    method Next(nd: RbNode) returns (m: RbNode)
      requires Valid() && nd in repr
      ensures Follows(Contents(), nd, m, nil)
    {
      ghost var c, t := Find(nd);
      Children(c, t, nd);
      SplitAt(c, t);
      hide At, SeqOf, RedBlack;
      if nd.right != nil {
        DownRight(c, t, nd, nd.parent);
        ghost var cy, yred, yr;
        m, cy, yred, yr := LeftMost(nd.right, InRight(t.left, t.key, t.red, c), t.right, nd);
        SpineFirst(cy, Node(Leaf, m, yred, yr));
        FollowsAt(Before(c) + InOrder(t.left), nd, InOrder(t.right) + After(c), nil);
      } else {
        m := ClimbRight(nd, c, t);
        FollowsAt(Before(c) + InOrder(t.left), nd, InOrder(t.right) + After(c), nil);
      }
    }

    /** The climb of rb_next: up while nd is a right child. */
    method ClimbRight(nd0: RbNode, ghost c0: Ctx<RbNode>, ghost t0: Tree<RbNode>) returns (pa: RbNode)
      requires t0.Node? && At(c0, t0, nd0, nd0.parent) && nd0.parent != null
      ensures pa == if After(c0) == [] then nil else After(c0)[0]
    {
      var nd := nd0;
      ghost var c, t := c0, t0;
      pa := nd.parent;
      SideOf(c, t, nd, pa);
      hide At;
      while pa != nil && nd == pa.right
        invariant t.Node? && At(c, t, nd, pa) && After(c) == After(c0)
        invariant c.Top? <==> pa == nil
        invariant !c.Top? ==> pa == c.key && (c.InRight? <==> pa.right == nd)
        invariant !c.Top? ==> c.key.parent != null && Wrap(c, t).Node? && At(c.up, Wrap(c, t), pa, c.key.parent)
        decreases c
      {
        nd := pa;
        pa := nd.parent;
        c, t := c.up, Wrap(c, t);
        SideOf(c, t, nd, pa);
      }
    }

    /** rb_prev. */
    method Prev(nd: RbNode) returns (m: RbNode)
      requires Valid() && nd in repr
      ensures Precedes(Contents(), nd, m, nil)
    {
      ghost var c, t := Find(nd);
      Children(c, t, nd);
      SplitAt(c, t);
      hide At, SeqOf, RedBlack;
      if nd.left != nil {
        DownLeft(c, t, nd, nd.parent);
        m := RightMost(nd.left, InLeft(c, t.key, t.red, t.right), t.left, nd);
        PrecedesAt(Before(c) + InOrder(t.left), nd, InOrder(t.right) + After(c), nil);
      } else {
        m := ClimbLeft(nd, c, t);
        PrecedesAt(Before(c) + InOrder(t.left), nd, InOrder(t.right) + After(c), nil);
      }
    }

    /** The climb of rb_prev: up while nd is a left child. */
    method ClimbLeft(nd0: RbNode, ghost c0: Ctx<RbNode>, ghost t0: Tree<RbNode>) returns (pa: RbNode)
      requires t0.Node? && At(c0, t0, nd0, nd0.parent) && nd0.parent != null
      ensures pa == if Before(c0) == [] then nil else Before(c0)[|Before(c0)| - 1]
    {
      var nd := nd0;
      ghost var c, t := c0, t0;
      pa := nd.parent;
      SideOf(c, t, nd, pa);
      hide At;
      while pa != nil && nd == pa.left
        invariant t.Node? && At(c, t, nd, pa) && Before(c) == Before(c0)
        invariant c.Top? <==> pa == nil
        invariant !c.Top? ==> pa == c.key && (c.InLeft? <==> pa.left == nd)
        invariant !c.Top? ==> c.key.parent != null && Wrap(c, t).Node? && At(c.up, Wrap(c, t), pa, c.key.parent)
        decreases c
      {
        nd := pa;
        pa := nd.parent;
        c, t := c.up, Wrap(c, t);
        SideOf(c, t, nd, pa);
      }
    }

    lemma NoRepeats()
      requires Valid()
      ensures NoDup(Contents())
    {
      InOrderNoDup(tree);
    }

    /** From rb_first on, rb_next lists the whole sequence, once. */
    method Forward() returns (s: seq<RbNode>)
      requires Valid()
      ensures s == Contents()
    {
      ContentsAre();
      NoRepeats();
      hide Valid;
      s := [];
      var p := First();
      while p != nil
        invariant |s| <= |Contents()| && s == Contents()[..|s|]
        invariant p == if |s| < |Contents()| then Contents()[|s|] else nil
        decreases |Contents()| - |s|
      {
        assert p in Contents();
        ghost var q := p;
        s := s + [p];
        p := Next(p);
        FollowsIs(Contents(), q, p, nil, |s| - 1);
      }
    }

    /** From rb_last on, rb_prev lists it backwards; s collects from the right. */
    method Backward() returns (s: seq<RbNode>)
      requires Valid()
      ensures s == Contents()
    {
      ContentsAre();
      NoRepeats();
      hide Valid;
      s := [];
      var p := Last();
      ghost var k := |Contents()|;
      while p != nil
        invariant 0 <= k <= |Contents()| && s == Contents()[k..]
        invariant p == if k > 0 then Contents()[k - 1] else nil
        decreases k
      {
        assert p in Contents();
        ghost var q := p;
        s := [p] + s;
        k := k - 1;
        p := Prev(p);
        PrecedesIs(Contents(), q, p, nil, k);
      }
    }

    /** rb_prev undoes rb_next, and the reverse. */
    method NextThenPrev(nd: RbNode) returns (m: RbNode, back: RbNode)
      requires Valid() && nd in repr
      ensures Follows(Contents(), nd, m, nil) && (m != nil ==> back == nd)
    {
      ContentsAre();
      NoRepeats();
      hide Valid;
      m := Next(nd);
      back := nd;
      if m != nil {
        back := Prev(m);
        Inverse(Contents(), nd, m, back, nil);
      }
    }

    method PrevThenNext(nd: RbNode) returns (m: RbNode, back: RbNode)
      requires Valid() && nd in repr
      ensures Precedes(Contents(), nd, m, nil) && (m != nil ==> back == nd)
    {
      ContentsAre();
      NoRepeats();
      hide Valid;
      m := Prev(nd);
      back := nd;
      if m != nil {
        back := Next(m);
        Inverse(Contents(), m, nd, m, nil);
      }
    }

    /** The unguarded rb_set_parent, which may write to the sentinel. */
    method SetParent(x: RbNode, p: RbNode, ghost t: Tree<RbNode>, ghost q: RbNode?)
      requires Held(nil, t, x, q) && Distinct(t)
      modifies x`parent
      ensures Held(nil, t, x, p) && x.parent == p
    {
      x.parent := p;
    }
  }

  lemma {:induction false} Locate(c: Ctx<RbNode>, t: Tree<RbNode>, nd: RbNode) returns (d: Ctx<RbNode>, u: Tree<RbNode>)
    requires nd in Nodes(t)
    ensures Plug(d, u) == Plug(c, t) && u.Node? && u.key == nd
    decreases t
  {
    if t.key == nd { d, u := c, t; }
    else if nd in Nodes(t.left) { d, u := Locate(InLeft(c, t.key, t.red, t.right), t.left, nd); }
    else { d, u := Locate(InRight(t.left, t.key, t.red, c), t.right, nd); }
  }

  /** nd in the context c, y, and the subtrees l and r that y is to have there,
      share no node. */
  ghost predicate Clear(nil: RbNode, c: Ctx<RbNode>, l: Tree<RbNode>, nd: RbNode, y: RbNode, r: Tree<RbNode>) {
    && nd !in CNodes(c) && nd !in Nodes(l) && nd !in Nodes(r) && nd != nil
    && y !in CNodes(c) && y !in Nodes(l) && y !in Nodes(r) && y != nil && y != nd
    && nil !in CNodes(c) && nil !in Nodes(l)
    && DistinctCtx(c) && Distinct(l) && Distinct(r)
    && Nodes(l) !! CNodes(c) && Nodes(r) !! CNodes(c) && Nodes(l) !! Nodes(r)
  }

  lemma HeldNode(nil: RbNode, l: Tree<RbNode>, y: RbNode, red: bool, r: Tree<RbNode>)
    requires y.red == red && Held(nil, l, y.left, y) && Held(nil, r, y.right, y)
    ensures Held(nil, Node(l, y, red, r), y, y.parent)
  {
  }

  lemma PlugCtxIsNode(c: Ctx<RbNode>, t: Tree<RbNode>)
    requires !c.Top?
    ensures Plug(c, t).Node?
  {
    WrapSeq(c, t);
    PlugIsNode(c.up, Wrap(c, t));
  }

  lemma NewLeafSeq(c: Ctx<RbNode>, nd: RbNode)
    ensures SeqOf(c, Node(Leaf, nd, true, Leaf)) == InsertAt(Before(c) + After(c), |Before(c)|, nd)
  {
    assert InOrder(Node(Leaf, nd, true, Leaf)) == [nd];
  }

  /** What rb_insert makes of the sequence s: nd is put in somewhere, and if s
      is sorted, after all elements that it is not less than. */
  ghost predicate Inserted(compare: (RbNode, RbNode) -> int, S: set<RbNode>, s: seq<RbNode>, nd: RbNode,
                           s': seq<RbNode>) {
    && (exists k :: 0 <= k <= |s| && s' == InsertAt(s, k, nd))
    && (StrictWeak(compare, S) && Sorted(compare, s) ==>
          s' == InsertAt(s, Rank(compare, s, nd), nd) && Sorted(compare, s'))
  }

  lemma InsertedThere(compare: (RbNode, RbNode) -> int, S: set<RbNode>, s: seq<RbNode>, c: Ctx<RbNode>, nd: RbNode)
    requires s == Before(c) + After(c) && Within(s, S)
    requires StrictWeak(compare, S + {nd}) && Sorted(compare, s) ==> Between(compare, nd, Before(c), After(c))
    ensures Inserted(compare, S + {nd}, s, nd, SeqOf(c, Node(Leaf, nd, true, Leaf)))
  {
    NewLeafSeq(c, nd);
    WithinMore(s, S, nd);
    hide Before, After, Between, Sorted, StrictWeak;
    Placed(compare, S + {nd}, s, Before(c), After(c), nd);
  }

  lemma NewLeafState(c: Ctx<RbNode>, nd: RbNode, tree: Tree<RbNode>) returns (h: nat)
    requires RedBlack(tree) && tree == Plug(c, Leaf)
    ensures InsertState(c, Node(Leaf, nd, true, Leaf), h)
  {
    h := RbUnplug(c, Leaf);
  }

  // ---- neighbours in a sequence -----------------------------------------------------------------

  ghost predicate NextAt(s: seq<RbNode>, k: int, x: RbNode, y: RbNode, nil: RbNode) {
    0 <= k < |s| && s[k] == x && y == if k + 1 < |s| then s[k + 1] else nil
  }

  ghost predicate PrevAt(s: seq<RbNode>, k: int, x: RbNode, y: RbNode, nil: RbNode) {
    0 <= k < |s| && s[k] == x && y == if k > 0 then s[k - 1] else nil
  }

  /** y is next to x in s, or nil if x is the last. */
  ghost predicate Follows(s: seq<RbNode>, x: RbNode, y: RbNode, nil: RbNode) {
    exists k :: NextAt(s, k, x, y, nil)
  }

  /** y is before x in s, or nil if x is the first. */
  ghost predicate Precedes(s: seq<RbNode>, x: RbNode, y: RbNode, nil: RbNode) {
    exists k :: PrevAt(s, k, x, y, nil)
  }

  lemma FollowsIs(s: seq<RbNode>, x: RbNode, y: RbNode, nil: RbNode, k: nat)
    requires NoDup(s) && Follows(s, x, y, nil) && k < |s| && s[k] == x
    ensures y == if k + 1 < |s| then s[k + 1] else nil
  {
  }

  lemma PrecedesIs(s: seq<RbNode>, x: RbNode, y: RbNode, nil: RbNode, k: nat)
    requires NoDup(s) && Precedes(s, x, y, nil) && k < |s| && s[k] == x
    ensures y == if k > 0 then s[k - 1] else nil
  {
  }

  /** Between real nodes, the two relations are inverse to each other. */
  lemma Inverse(s: seq<RbNode>, x: RbNode, y: RbNode, z: RbNode, nil: RbNode)
    requires NoDup(s) && nil !in s && y != nil && z != nil
    ensures Follows(s, x, y, nil) && Precedes(s, y, z, nil) ==> z == x
    ensures Precedes(s, y, x, nil) && Follows(s, x, z, nil) && x != nil ==> z == y
  {
    if Follows(s, x, y, nil) && Precedes(s, y, z, nil) {
      var k :| NextAt(s, k, x, y, nil);
      PrecedesIs(s, y, z, nil, k + 1);
    }
    if Precedes(s, y, x, nil) && Follows(s, x, z, nil) && x != nil {
      var k :| PrevAt(s, k, y, x, nil);
      FollowsIs(s, x, z, nil, k - 1);
    }
  }

  lemma FollowsAt(a: seq<RbNode>, x: RbNode, b: seq<RbNode>, nil: RbNode)
    ensures Follows(a + [x] + b, x, if b == [] then nil else b[0], nil)
  {
    var s, k, y := a + [x] + b, |a|, if b == [] then nil else b[0];
    assert b != [] ==> s[k + 1] == b[0];
    assert NextAt(s, k, x, y, nil);
  }

  lemma PrecedesAt(a: seq<RbNode>, x: RbNode, b: seq<RbNode>, nil: RbNode)
    ensures Precedes(a + [x] + b, x, if a == [] then nil else a[|a| - 1], nil)
  {
    var s, k, y := a + [x] + b, |a|, if a == [] then nil else a[|a| - 1];
    assert a != [] ==> s[k - 1] == a[k - 1];
    assert PrevAt(s, k, x, y, nil);
  }

  ghost predicate EndsAlike(s: seq<RbNode>, s': seq<RbNode>) {
    s != [] && s' != [] && s[|s| - 1] == s'[|s'| - 1]
  }

  lemma SplitAt(c: Ctx<RbNode>, t: Tree<RbNode>)
    requires t.Node?
    ensures SeqOf(c, t) == (Before(c) + InOrder(t.left)) + [t.key] + (InOrder(t.right) + After(c))
  {
  }

  lemma {:induction false} SpineFirst(c: Ctx<RbNode>, t: Tree<RbNode>)
    requires LeftSpine(c) && t.Node? && t.left.Leaf?
    ensures InOrder(Plug(c, t)) != [] && InOrder(Plug(c, t))[0] == t.key
  {
    InOrderPlug(c, t);
    SpineSeq(c, Top, Top);
    CompTop(c);
    assert InOrder(t) == [t.key] + InOrder(t.right) && Before(c) == [];
  }

  lemma {:induction false} CompTop(c: Ctx<RbNode>)
    ensures Comp(c, Top) == c
    decreases c
  {
    if !c.Top? { CompTop(c.up); }
  }

  lemma {:induction false} InOrderNoDup(t: Tree<RbNode>)
    requires Distinct(t)
    ensures NoDup(InOrder(t))
    decreases t
  {
    if t.Node? {
      InOrderNoDup(t.left);
      InOrderNoDup(t.right);
      InOrderNodes(t.left);
      InOrderNodes(t.right);
      NoRepeatJoin(InOrder(t.left), t.key, InOrder(t.right));
    }
  }

  lemma NoRepeatJoin(a: seq<RbNode>, x: RbNode, b: seq<RbNode>)
    requires NoDup(a) && NoDup(b) && x !in a && x !in b && (forall e :: e in a ==> e !in b)
    ensures NoDup(a + [x] + b)
  {
    var s := a + [x] + b;
    forall i, j | 0 <= i < j < |s| ensures s[i] != s[j] {
      if i < |a| { assert s[i] in a; }
      if j > |a| { assert s[j] in b; }
    }
  }

  // ---- the order ------------------------------------------------------------------------------

  /** compare's sign is a strict weak order on S. */
  ghost predicate StrictWeak(compare: (RbNode, RbNode) -> int, S: set<RbNode>) {
    && (forall a, b :: a in S && b in S && compare(a, b) < 0 ==> compare(b, a) >= 0)
    && (forall a, b, c :: a in S && b in S && c in S && compare(a, b) < 0 ==> compare(a, c) < 0 || compare(c, b) < 0)
  }

  ghost predicate Within(s: seq<RbNode>, S: set<RbNode>) {
    forall x :: x in s ==> x in S
  }

  ghost predicate Lists(s: seq<RbNode>, S: set<RbNode>) {
    forall x :: x in S ==> x in s
  }

  lemma WithinMore(s: seq<RbNode>, S: set<RbNode>, nd: RbNode)
    requires Within(s, S)
    ensures Within(s, S + {nd})
  {
  }

  ghost predicate Sorted(compare: (RbNode, RbNode) -> int, s: seq<RbNode>) {
    forall i, j :: 0 <= i < j < |s| ==> compare(s[j], s[i]) >= 0
  }

  /** The number of leading elements of s that nd is not less than. */
  ghost function Rank(compare: (RbNode, RbNode) -> int, s: seq<RbNode>, nd: RbNode): (k: nat)
    ensures k <= |s|
  {
    if s == [] || compare(nd, s[0]) < 0 then 0 else 1 + Rank(compare, s[1..], nd)
  }

  ghost function InsertAt(s: seq<RbNode>, k: nat, nd: RbNode): seq<RbNode>
    requires k <= |s|
  {
    s[..k] + [nd] + s[k..]
  }

  /** nd is less than everything in b and than nothing in a. */
  ghost predicate Between(compare: (RbNode, RbNode) -> int, nd: RbNode, a: seq<RbNode>, b: seq<RbNode>) {
    (forall e :: e in a ==> compare(nd, e) >= 0) && (forall e :: e in b ==> compare(nd, e) < 0)
  }

  lemma SortedAround(compare: (RbNode, RbNode) -> int, a: seq<RbNode>, x: RbNode, b: seq<RbNode>)
    requires Sorted(compare, a + [x] + b)
    ensures (forall e :: e in a ==> compare(x, e) >= 0) && (forall e :: e in b ==> compare(e, x) >= 0)
  {
    var s := a + [x] + b;
    forall i | 0 <= i < |a| ensures compare(x, a[i]) >= 0 { assert s[i] == a[i] && s[|a|] == x; }
    forall i | 0 <= i < |b| ensures compare(b[i], x) >= 0 { assert s[|a| + 1 + i] == b[i] && s[|a|] == x; }
  }

  /** The descent keeps nd between what it has passed on either side. */
  lemma BetweenStep(compare: (RbNode, RbNode) -> int, S: set<RbNode>, nd: RbNode, c: Ctx<RbNode>, t: Tree<RbNode>,
                    s: seq<RbNode>)
    requires StrictWeak(compare, S) && Sorted(compare, s) && nd in S && Within(s, S)
    requires !c.Top? && SeqOf(c, t) == s && Between(compare, nd, Before(c.up), After(c.up))
    requires c.InLeft? <==> compare(nd, c.key) < 0
    ensures Between(compare, nd, Before(c), After(c))
  {
    hide Sorted, StrictWeak, Between, InOrder;
    if c.InLeft? {
      Regroup(Before(c.up), InOrder(t), c.key, InOrder(c.right), After(c.up));
      BetweenLeft(compare, S, nd, Before(c.up), InOrder(t), c.key, InOrder(c.right), After(c.up));
    } else {
      Regroup(Before(c.up), InOrder(c.left), c.key, InOrder(t), After(c.up));
      BetweenRight(compare, S, nd, Before(c.up), InOrder(c.left), c.key, InOrder(t), After(c.up));
    }
  }

  lemma Regroup(a: seq<RbNode>, l: seq<RbNode>, k: RbNode, r: seq<RbNode>, b: seq<RbNode>)
    ensures a + l + ([k] + r + b) == (a + l) + [k] + (r + b)
    ensures (a + l + [k]) + r + b == (a + l) + [k] + (r + b)
  {
  }

  lemma BetweenLeft(compare: (RbNode, RbNode) -> int, S: set<RbNode>, nd: RbNode, a: seq<RbNode>, l: seq<RbNode>,
                    k: RbNode, r: seq<RbNode>, b: seq<RbNode>)
    requires StrictWeak(compare, S) && nd in S && compare(nd, k) < 0 && Between(compare, nd, a, b)
    requires var s := (a + l) + [k] + (r + b); Sorted(compare, s) && Within(s, S)
    ensures Between(compare, nd, a, [k] + r + b)
  {
    var s := (a + l) + [k] + (r + b);
    SortedAround(compare, a + l, k, r + b);
    assert k in s;
    forall e | e in [k] + r + b ensures compare(nd, e) < 0 {
      if e != k && e !in b { assert e in r && e in r + b && e in s; }
    }
  }

  lemma BetweenRight(compare: (RbNode, RbNode) -> int, S: set<RbNode>, nd: RbNode, a: seq<RbNode>, l: seq<RbNode>,
                     k: RbNode, r: seq<RbNode>, b: seq<RbNode>)
    requires StrictWeak(compare, S) && nd in S && compare(nd, k) >= 0 && Between(compare, nd, a, b)
    requires var s := (a + l) + [k] + (r + b); Sorted(compare, s) && Within(s, S)
    ensures Between(compare, nd, a + l + [k], b)
  {
    var s := (a + l) + [k] + (r + b);
    SortedAround(compare, a + l, k, r + b);
    assert k in s;
    forall e | e in a + l + [k] ensures compare(nd, e) >= 0 {
      if e != k && e !in a { assert e in l && e in a + l && e in s; }
    }
  }

  /** Between the two parts of a sorted sequence is where Rank points. */
  lemma Placed(compare: (RbNode, RbNode) -> int, S: set<RbNode>, s: seq<RbNode>, a: seq<RbNode>, b: seq<RbNode>,
               nd: RbNode)
    requires s == a + b && nd in S && Within(s, S)
    requires StrictWeak(compare, S) && Sorted(compare, s) ==> Between(compare, nd, a, b)
    ensures StrictWeak(compare, S) && Sorted(compare, s) ==>
      Rank(compare, s, nd) == |a| && Sorted(compare, InsertAt(s, |a|, nd))
  {
    if StrictWeak(compare, S) && Sorted(compare, s) { RankIs(compare, S, a, b, nd); }
  }

  lemma RankIs(compare: (RbNode, RbNode) -> int, S: set<RbNode>, a: seq<RbNode>, b: seq<RbNode>, nd: RbNode)
    requires StrictWeak(compare, S) && Sorted(compare, a + b) && nd in S && Within(a + b, S)
    requires Between(compare, nd, a, b)
    ensures Rank(compare, a + b, nd) == |a| && Sorted(compare, InsertAt(a + b, |a|, nd))
  {
    RankSplit(compare, a, b, nd);
    assert InsertAt(a + b, |a|, nd) == a + [nd] + b;
    forall e | e in b ensures compare(e, nd) >= 0 { assert e in a + b; }
    SortedInsert(compare, a, b, nd);
  }

  lemma SortedInsert(compare: (RbNode, RbNode) -> int, a: seq<RbNode>, b: seq<RbNode>, nd: RbNode)
    requires Sorted(compare, a + b) && (forall e :: e in a ==> compare(nd, e) >= 0)
      && (forall e :: e in b ==> compare(e, nd) >= 0)
    ensures Sorted(compare, a + [nd] + b)
  {
    var s := a + [nd] + b;
    forall i, j | 0 <= i < j < |s| ensures compare(s[j], s[i]) >= 0 {
      if i == |a| { assert s[j] in b; }
      else if j == |a| { assert s[i] in a; }
      else {
        var i', j' := if i < |a| then i else i - 1, if j < |a| then j else j - 1;
        assert (a + b)[i'] == s[i] && (a + b)[j'] == s[j];
      }
    }
  }

  lemma {:induction false} RankSplit(compare: (RbNode, RbNode) -> int, a: seq<RbNode>, b: seq<RbNode>, nd: RbNode)
    requires Between(compare, nd, a, b)
    ensures Rank(compare, a + b, nd) == |a|
  {
    if a == [] { assert a + b == b; assert b != [] ==> b[0] in b; }
    else {
      assert (a + b)[1..] == a[1..] + b;
      assert a[0] in a;
      RankSplit(compare, a[1..], b, nd);
    }
  }

  lemma {:induction false} InOrderNodes(t: Tree<RbNode>)
    ensures Within(InOrder(t), Nodes(t)) && Lists(InOrder(t), Nodes(t))
    decreases t
  {
    if t.Node? { InOrderNodes(t.left); InOrderNodes(t.right); }
  }

  /** The guarded rb_set_parent of the rotations. */
  method Adopt(nil: RbNode, n: RbNode?, p: RbNode, ghost t: Tree<RbNode>, ghost q: RbNode?)
    requires Held(nil, t, n, q) && Distinct(t) && nil !in Nodes(t)
    modifies Nodes(t)`parent
    ensures Held(nil, t, n, p)
  {
    if n != nil {
      n.parent := p;
    }
  }

  /** The links of x and y, of colours xr and yr, and of the three subtrees
      around them, in the middle of a rotation. */
  ghost predicate HalfRotL(nil: RbNode, x: RbNode, y: RbNode, xr: bool, yr: bool, a: Tree<RbNode>, b: Tree<RbNode>,
                           d: Tree<RbNode>)
    reads x, y, Nodes(a), Nodes(b), Nodes(d)
  {
    && x.red == xr && y.red == yr && y.parent == x.parent
    && Held(nil, a, x.left, x) && Held(nil, b, x.right, x) && Held(nil, d, y.right, y)
  }

  ghost predicate HalfRotR(nil: RbNode, x: RbNode, y: RbNode, xr: bool, yr: bool, a: Tree<RbNode>, b: Tree<RbNode>,
                           d: Tree<RbNode>)
    reads x, y, Nodes(a), Nodes(b), Nodes(d)
  {
    && x.red == xr && y.red == yr && y.parent == x.parent
    && Held(nil, a, y.left, y) && Held(nil, b, x.left, x) && Held(nil, d, x.right, x)
  }

  /** x, y and the nodes of a, b and d are all different. */
  ghost predicate Apart(x: RbNode, y: RbNode, a: Tree<RbNode>, b: Tree<RbNode>, d: Tree<RbNode>) {
    && x != y && x !in Nodes(a) && x !in Nodes(b) && x !in Nodes(d)
    && y !in Nodes(a) && y !in Nodes(b) && y !in Nodes(d)
    && Nodes(a) !! Nodes(b) && Nodes(a) !! Nodes(d) && Nodes(b) !! Nodes(d)
    && Distinct(a) && Distinct(b) && Distinct(d)
  }

  /** The first half of rb_left_rotate. */
  method DetachRight(nil: RbNode, x: RbNode, y: RbNode, ghost xr: bool, ghost yr: bool, ghost a: Tree<RbNode>,
                     ghost b: Tree<RbNode>, ghost d: Tree<RbNode>)
    requires Apart(x, y, a, b, d) && nil !in Nodes(b) && x.red == xr && y.red == yr
    requires Held(nil, a, x.left, x) && Held(nil, b, y.left, y) && Held(nil, d, y.right, y)
    modifies x, y, Nodes(b)
    ensures HalfRotL(nil, x, y, xr, yr, a, b, d) && x.parent == old(x.parent)
  {
    assert allocated(Nodes(a)) && allocated(Nodes(b)) && allocated(Nodes(d));
    hide Nodes, Distinct;
    x.right := y.left;
    Adopt(nil, y.left, x, b, y);
    y.parent := x.parent;
  }

  method AttachLeft(nil: RbNode, x: RbNode, y: RbNode, ghost xr: bool, ghost yr: bool, ghost a: Tree<RbNode>,
                    ghost b: Tree<RbNode>, ghost d: Tree<RbNode>)
    requires Apart(x, y, a, b, d) && HalfRotL(nil, x, y, xr, yr, a, b, d)
    modifies x, y
    ensures Held(nil, Node(Node(a, x, xr, b), y, yr, d), y, y.parent) && y.parent == old(y.parent)
  {
    hide Nodes, Distinct;
    y.left := x;
    x.parent := y;
    assert Held(nil, Node(a, x, xr, b), x, y);
  }

  /** The first half of rb_right_rotate. */
  method DetachLeft(nil: RbNode, x: RbNode, y: RbNode, ghost xr: bool, ghost yr: bool, ghost a: Tree<RbNode>,
                    ghost b: Tree<RbNode>, ghost d: Tree<RbNode>)
    requires Apart(x, y, a, b, d) && nil !in Nodes(b) && x.red == xr && y.red == yr
    requires Held(nil, a, y.left, y) && Held(nil, b, y.right, y) && Held(nil, d, x.right, x)
    modifies x, y, Nodes(b)
    ensures HalfRotR(nil, x, y, xr, yr, a, b, d) && x.parent == old(x.parent)
  {
    assert allocated(Nodes(a)) && allocated(Nodes(b)) && allocated(Nodes(d));
    hide Nodes, Distinct;
    x.left := y.right;
    Adopt(nil, y.right, x, b, y);
    y.parent := x.parent;
  }

  method AttachRight(nil: RbNode, x: RbNode, y: RbNode, ghost xr: bool, ghost yr: bool, ghost a: Tree<RbNode>,
                     ghost b: Tree<RbNode>, ghost d: Tree<RbNode>)
    requires Apart(x, y, a, b, d) && HalfRotR(nil, x, y, xr, yr, a, b, d)
    modifies x, y
    ensures Held(nil, Node(a, y, yr, Node(b, x, xr, d)), y, y.parent) && y.parent == old(y.parent)
  {
    hide Nodes, Distinct;
    y.right := x;
    x.parent := y;
    assert Held(nil, Node(b, x, xr, d), x, y);
  }

  lemma RootIs(nil: RbNode, t: Tree<RbNode>, n: RbNode?, p: RbNode?)
    requires t.Node? && Held(nil, t, n, p)
    ensures t.key in Nodes(t) && n == t.key
  {
  }

  lemma UnfoldRight(nil: RbNode, c: Ctx<RbNode>, t: Tree<RbNode>, x: RbNode)
    requires t.Node? && t.right.Node? && Held(nil, t, x, x.parent) && Sep(nil, c, t)
    ensures var a, y, b, d := t.left, t.right.key, t.right.left, t.right.right;
      && x == t.key && x.red == t.red && x.right == y && y.red == t.right.red
      && Held(nil, a, x.left, x) && Held(nil, b, y.left, y) && Held(nil, d, y.right, y)
      && Nodes(t) == Nodes(a) + {x} + Nodes(b) + {y} + Nodes(d) && Apart(x, y, a, b, d)
      && x != nil && y != nil
  {
    var r := t.right;
    assert Held(nil, r, x.right, x);
    assert Distinct(r) && Nodes(r) == Nodes(r.left) + {r.key} + Nodes(r.right);
  }

  lemma UnfoldLeft(nil: RbNode, c: Ctx<RbNode>, t: Tree<RbNode>, x: RbNode)
    requires t.Node? && t.left.Node? && Held(nil, t, x, x.parent) && Sep(nil, c, t)
    ensures var a, y, b, d := t.left.left, t.left.key, t.left.right, t.right;
      && x == t.key && x.red == t.red && x.left == y && y.red == t.left.red
      && Held(nil, a, y.left, y) && Held(nil, b, y.right, y) && Held(nil, d, x.right, x)
      && Nodes(t) == Nodes(a) + {x} + Nodes(b) + {y} + Nodes(d) && Apart(x, y, a, b, d)
      && x != nil && y != nil
  {
    var l := t.left;
    assert Held(nil, l, x.left, x);
    assert Distinct(l) && Nodes(l) == Nodes(l.left) + {l.key} + Nodes(l.right);
  }

  lemma SepRotL(nil: RbNode, c: Ctx<RbNode>, t: Tree<RbNode>)
    requires t.Node? && t.right.Node? && Sep(nil, c, t)
    ensures Sep(nil, c, RotL(t)) && Nodes(RotL(t)) == Nodes(t)
  {
    assert Distinct(t.right) && Nodes(t.right) == Nodes(t.right.left) + {t.right.key} + Nodes(t.right.right);
    assert Distinct(Node(t.left, t.key, t.red, t.right.left));
  }

  /** A node nd without its right child y, which has no left child. */
  lemma SepChild(nil: RbNode, c: Ctx<RbNode>, l: Tree<RbNode>, nd: RbNode, red: bool, y: RbNode, yred: bool,
                 yr: Tree<RbNode>)
    requires Sep(nil, c, Node(l, nd, red, Node(Leaf, y, yred, yr)))
    ensures y != nil && y != nd && y !in CNodes(c) && y !in Nodes(l) && y !in Nodes(yr)
    ensures Sep(nil, c, Node(l, nd, red, yr))
    ensures Nodes(Node(l, nd, red, Node(Leaf, y, yred, yr))) == Nodes(Node(l, nd, red, yr)) + {y}
  {
    NodesOf(l, nd, red, Node(Leaf, y, yred, yr));
    NodesOf(Leaf, y, yred, yr);
    NodesOf(l, nd, red, yr);
    assert Nodes(Leaf) == {};
    hide Nodes, CNodes, Distinct, DistinctCtx;
  }

  /** The node y in the place of nd. */
  lemma SepRename(nil: RbNode, c: Ctx<RbNode>, l: Tree<RbNode>, nd: RbNode, y: RbNode, red: bool, r: Tree<RbNode>)
    requires Sep(nil, c, Node(l, nd, red, r)) && y != nil && y !in CNodes(c) && y !in Nodes(l) && y !in Nodes(r)
    ensures Sep(nil, c, Node(l, y, red, r)) && nd !in CNodes(c) && nd !in Nodes(l) && nd !in Nodes(r) && nd != nil
    ensures Nodes(Node(l, y, red, r)) == Nodes(Node(l, nd, red, r)) - {nd} + {y}
    ensures DistinctCtx(c) && Distinct(l) && Distinct(r) && Nodes(l) !! CNodes(c) && Nodes(r) !! CNodes(c)
      && Nodes(l) !! Nodes(r)
    ensures nil !in CNodes(c) && nil !in Nodes(l)
  {
    NodesOf(l, nd, red, r);
    NodesOf(l, y, red, r);
    hide Nodes, CNodes, Distinct, DistinctCtx;
  }

  lemma NodesOf(l: Tree<RbNode>, x: RbNode, red: bool, r: Tree<RbNode>)
    ensures var t := Node(l, x, red, r);
      && Nodes(t) == Nodes(l) + {x} + Nodes(r)
      && (Distinct(t) <==> Distinct(l) && Distinct(r) && x !in Nodes(l) && x !in Nodes(r) && Nodes(l) !! Nodes(r))
  {
  }

  lemma SepRotR(nil: RbNode, c: Ctx<RbNode>, t: Tree<RbNode>)
    requires t.Node? && t.left.Node? && Sep(nil, c, t)
    ensures Sep(nil, c, RotR(t)) && Nodes(RotR(t)) == Nodes(t)
  {
    assert Distinct(t.left) && Nodes(t.left) == Nodes(t.left.left) + {t.left.key} + Nodes(t.left.right);
    assert Distinct(Node(t.left.right, t.key, t.red, t.right));
  }
}
