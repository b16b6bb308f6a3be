/** Binary trees and one-hole contexts as values, over any type of nodes: the
    in-order sequence, the red-black invariants, and what the two fix-ups do
    to them. */
module RbShape {
  import opened Bits

  datatype Tree<N> = Leaf | Node(left: Tree<N>, key: N, red: bool, right: Tree<N>)

  /** The path from a subtree up to the root, with everything off the path. */
  datatype Ctx<N> =
    | Top
    | InLeft(up: Ctx<N>, key: N, red: bool, right: Tree<N>)
    | InRight(left: Tree<N>, key: N, red: bool, up: Ctx<N>)

  function Plug<N>(c: Ctx<N>, t: Tree<N>): Tree<N> {
    match c
    case Top => t
    case InLeft(up, k, red, r) => Plug(up, Node(t, k, red, r))
    case InRight(l, k, red, up) => Plug(up, Node(l, k, red, t))
  }

  /** The context c inside the context d. */
  function Comp<N>(c: Ctx<N>, d: Ctx<N>): Ctx<N> {
    match c
    case Top => d
    case InLeft(up, k, red, r) => InLeft(Comp(up, d), k, red, r)
    case InRight(l, k, red, up) => InRight(l, k, red, Comp(up, d))
  }

  lemma {:induction false} PlugComp<N>(c: Ctx<N>, d: Ctx<N>, t: Tree<N>)
    ensures Plug(Comp(c, d), t) == Plug(d, Plug(c, t))
    decreases c
  {
    match c
    case Top =>
    case InLeft(up, k, red, r) => PlugComp(up, d, Node(t, k, red, r));
    case InRight(l, k, red, up) => PlugComp(up, d, Node(l, k, red, t));
  }

  function Depth<N>(c: Ctx<N>): nat {
    if c.Top? then 0 else 1 + Depth(c.up)
  }

  // ---- in-order sequences ----------------------------------------------------

  function InOrder<N>(t: Tree<N>): seq<N> {
    match t
    case Leaf => []
    case Node(l, k, _, r) => InOrder(l) + [k] + InOrder(r)
  }

  function Before<N>(c: Ctx<N>): seq<N> {
    match c
    case Top => []
    case InLeft(up, _, _, _) => Before(up)
    case InRight(l, k, _, up) => Before(up) + InOrder(l) + [k]
  }

  function After<N>(c: Ctx<N>): seq<N> {
    match c
    case Top => []
    case InLeft(up, k, _, r) => [k] + InOrder(r) + After(up)
    case InRight(_, _, _, up) => After(up)
  }

  /** The in-order sequence of t in the context c. */
  function SeqOf<N>(c: Ctx<N>, t: Tree<N>): seq<N> {
    Before(c) + InOrder(t) + After(c)
  }

  // ---- one level up, and rotations -------------------------------------------------

  /** The subtree one level up. */
  function Wrap<N>(c: Ctx<N>, t: Tree<N>): Tree<N>
    requires !c.Top?
  {
    if c.InLeft? then Node(t, c.key, c.red, c.right) else Node(c.left, c.key, c.red, t)
  }

  lemma WrapSeq<N>(c: Ctx<N>, t: Tree<N>)
    requires !c.Top?
    ensures SeqOf(c.up, Wrap(c, t)) == SeqOf(c, t)
    ensures Plug(c.up, Wrap(c, t)) == Plug(c, t)
  {
    var u := c.up;
    if c.InLeft? {
      assert Before(u) + (InOrder(t) + [c.key] + InOrder(c.right)) + After(u)
          == Before(u) + InOrder(t) + ([c.key] + InOrder(c.right) + After(u));
    } else {
      assert Before(u) + (InOrder(c.left) + [c.key] + InOrder(t)) + After(u)
          == (Before(u) + InOrder(c.left) + [c.key]) + InOrder(t) + After(u);
    }
  }

  lemma {:induction false} InOrderPlug<N>(c: Ctx<N>, t: Tree<N>)
    ensures InOrder(Plug(c, t)) == SeqOf(c, t)
    decreases c
  {
    if !c.Top? {
      InOrderPlug(c.up, Wrap(c, t));
      WrapSeq(c, t);
    }
  }

  function RotL<N>(t: Tree<N>): Tree<N>
    requires t.Node? && t.right.Node?
  {
    var y := t.right;
    Node(Node(t.left, t.key, t.red, y.left), y.key, y.red, y.right)
  }

  function RotR<N>(t: Tree<N>): Tree<N>
    requires t.Node? && t.left.Node?
  {
    var y := t.left;
    Node(y.left, y.key, y.red, Node(y.right, t.key, t.red, t.right))
  }

  lemma Reassoc<N>(a: seq<N>, x: N, b: seq<N>, y: N, d: seq<N>)
    ensures a + [x] + (b + [y] + d) == (a + [x] + b) + [y] + d
  {
  }

  /** Rotations keep the in-order sequence. */
  lemma RotLSeq<N>(t: Tree<N>)
    requires t.Node? && t.right.Node?
    ensures InOrder(RotL(t)) == InOrder(t)
  {
    var y := t.right;
    assert InOrder(y) == InOrder(y.left) + [y.key] + InOrder(y.right);
    assert InOrder(RotL(t)) == (InOrder(t.left) + [t.key] + InOrder(y.left)) + [y.key] + InOrder(y.right);
    Reassoc(InOrder(t.left), t.key, InOrder(y.left), y.key, InOrder(y.right));
  }

  lemma RotRSeq<N>(t: Tree<N>)
    requires t.Node? && t.left.Node?
    ensures InOrder(RotR(t)) == InOrder(t)
  {
    var y := t.left;
    assert InOrder(y) == InOrder(y.left) + [y.key] + InOrder(y.right);
    assert InOrder(RotR(t)) == InOrder(y.left) + [y.key] + (InOrder(y.right) + [t.key] + InOrder(t.right));
    Reassoc(InOrder(y.left), y.key, InOrder(y.right), t.key, InOrder(t.right));
  }

  function Sibling<N>(c: Ctx<N>): Tree<N>
    requires !c.Top?
  {
    if c.InLeft? then c.right else c.left
  }

  /** The context of the sibling, t being on this side. */
  function Mirror<N>(c: Ctx<N>, t: Tree<N>): Ctx<N>
    requires !c.Top?
  {
    if c.InLeft? then InRight(t, c.key, c.red, c.up) else InLeft(c.up, c.key, c.red, t)
  }

  /** c with the sibling's root painted. */
  function PaintSibling<N>(c: Ctx<N>, red: bool): Ctx<N>
    requires !c.Top? && Sibling(c).Node?
  {
    if c.InLeft? then c.(right := c.right.(red := red)) else c.(left := c.left.(red := red))
  }

  // ---- the red-black invariants --------------------------------------------------

  predicate Black<N>(t: Tree<N>) {
    t.Leaf? || !t.red
  }

  /** No red node has a red child, and every path down has h black nodes. */
  predicate Rb<N>(t: Tree<N>, h: nat) {
    match t
    case Leaf => h == 0
    case Node(l, _, red, r) =>
      if red then Black(l) && Black(r) && Rb(l, h) && Rb(r, h)
      else h > 0 && Rb(l, h - 1) && Rb(r, h - 1)
  }

  function BlackHeight<N>(t: Tree<N>): nat {
    if t.Leaf? then 0 else BlackHeight(t.left) + (if t.red then 0 else 1)
  }

  predicate RedBlack<N>(t: Tree<N>) {
    Black(t) && Rb(t, BlackHeight(t))
  }

  lemma {:induction false} RbHeight<N>(t: Tree<N>, h: nat)
    requires Rb(t, h)
    ensures BlackHeight(t) == h
    decreases t
  {
    if t.Node? { RbHeight(t.left, if t.red then h else h - 1); }
  }

  predicate HoleUnderRed<N>(c: Ctx<N>) {
    !c.Top? && c.red
  }

  /** A subtree that satisfies Rb(_, h), and is black if the hole is the root
      or has a red parent, completes c to a red-black tree. */
  predicate RbCtx<N>(c: Ctx<N>, h: nat)
    decreases c
  {
    match c
    case Top => true
    case InLeft(up, _, red, r) =>
      Rb(r, h) && (if red then Black(r) && !up.Top? && !up.red && RbCtx(up, h) else RbCtx(up, h + 1))
    case InRight(l, _, red, up) =>
      Rb(l, h) && (if red then Black(l) && !up.Top? && !up.red && RbCtx(up, h) else RbCtx(up, h + 1))
  }

  lemma CtxStep<N>(c: Ctx<N>, h: nat)
    requires !c.Top?
    ensures RbCtx(c, h) <==>
      (&& Rb(Sibling(c), h)
       && (if c.red then Black(Sibling(c)) && !c.up.Top? && !c.up.red && RbCtx(c.up, h) else RbCtx(c.up, h + 1)))
  {
    match c
    case InLeft(_, _, _, _) =>
    case InRight(_, _, _, _) =>
  }

  lemma WrapRb<N>(c: Ctx<N>, t: Tree<N>, h: nat)
    requires !c.Top? && Rb(t, h) && Rb(Sibling(c), h)
    ensures !c.red ==> Rb(Wrap(c, t), h + 1)
    ensures c.red && Black(t) && Black(Sibling(c)) ==> Rb(Wrap(c, t), h)
  {
  }

  lemma {:induction false} RbPlug<N>(c: Ctx<N>, t: Tree<N>, h: nat)
    requires RbCtx(c, h) && Rb(t, h) && (c.Top? || c.red ==> Black(t))
    ensures RedBlack(Plug(c, t))
    decreases c
  {
    match c
    case Top => RbHeight(t, h);
    case InLeft(up, k, red, r) => RbPlug(up, Node(t, k, red, r), if red then h else h + 1);
    case InRight(l, k, red, up) => RbPlug(up, Node(l, k, red, t), if red then h else h + 1);
  }

  lemma {:induction false} RbUnplug<N>(c: Ctx<N>, t: Tree<N>) returns (h: nat)
    requires RedBlack(Plug(c, t))
    ensures RbCtx(c, h) && Rb(t, h) && (c.Top? || c.red ==> Black(t))
    decreases c
  {
    match c
    case Top => h := BlackHeight(t);
    case InLeft(up, k, red, r) =>
      var g := RbUnplug(up, Node(t, k, red, r));
      h := if red then g else g - 1;
    case InRight(l, k, red, up) =>
      var g := RbUnplug(up, Node(l, k, red, t));
      h := if red then g else g - 1;
  }

  /** The invariants of a context do not depend on the identity of its nodes. */
  lemma {:induction false} RbCtxRename<N>(c: Ctx<N>, l: Tree<N>, k: N, k': N, red: bool, up: Ctx<N>, h: nat)
    requires RbCtx(Comp(c, InRight(l, k, red, up)), h)
    ensures RbCtx(Comp(c, InRight(l, k', red, up)), h)
    decreases c
  {
    match c
    case Top =>
    case InLeft(c', _, r, _) => RbCtxRename(c', l, k, k', red, up, if r then h else h + 1);
    case InRight(_, _, r, c') => RbCtxRename(c', l, k, k', red, up, if r then h else h + 1);
  }

  // ---- height -----------------------------------------------------------------------

  function Height<N>(t: Tree<N>): nat {
    if t.Leaf? then 0
    else 1 + (if Height(t.left) > Height(t.right) then Height(t.left) else Height(t.right))
  }

  lemma {:induction false} HeightBound<N>(t: Tree<N>, h: nat)
    requires Rb(t, h)
    ensures Height(t) <= 2 * h + (if Black(t) then 0 else 1)
    ensures |InOrder(t)| + 1 >= Pow2(h)
    decreases t
  {
    if t.Node? {
      var g: nat := if t.red then h else h - 1;
      HeightBound(t.left, g);
      HeightBound(t.right, g);
    }
  }

  lemma {:induction false} Pow2Double(h: nat)
    ensures Pow2(2 * h) == Pow2(h) * Pow2(h)
  {
    if h > 0 {
      Pow2Double(h - 1);
      var p := Pow2(h - 1);
      assert Pow2(2 * h) == 2 * Pow2(2 * h - 1) == 4 * Pow2(2 * (h - 1));
      assert (2 * p) * (2 * p) == 4 * (p * p);
    }
  }

  /** A red-black tree of n nodes has height at most 2 log2(n + 1). */
  lemma HeightLogarithmic<N>(t: Tree<N>)
    requires RedBlack(t)
    ensures var n := |InOrder(t)|; Pow2(Height(t)) <= (n + 1) * (n + 1)
  {
    var h, n := BlackHeight(t), |InOrder(t)|;
    HeightBound(t, h);
    Pow2Mono(Height(t), 2 * h);
    Pow2Double(h);
    SquareMono(Pow2(h), n + 1);
  }

  lemma SquareMono(a: nat, b: nat)
    requires a <= b
    ensures a * a <= b * b
  {
    assert a * a <= a * b <= b * b;
  }

  lemma {:induction false} DepthBound<N>(c: Ctx<N>, t: Tree<N>)
    ensures Depth(c) + Height(t) <= Height(Plug(c, t))
    decreases c
  {
    if !c.Top? {
      WrapSeq(c, t);
      DepthBound(c.up, Wrap(c, t));
    }
  }

  /** No path down a red-black tree of n nodes is longer than 2 log2(n + 1). */
  lemma PathLogarithmic<N>(c: Ctx<N>, t: Tree<N>)
    requires RedBlack(Plug(c, t))
    ensures var n := |SeqOf(c, t)|; Pow2(Depth(c)) <= (n + 1) * (n + 1)
  {
    InOrderPlug(c, t);
    DepthBound(c, t);
    HeightLogarithmic(Plug(c, t));
    Pow2Mono(Depth(c), Height(Plug(c, t)));
  }

  // ---- insertion fix-up -----------------------------------------------------------------

  /** The state of the insertion loop: a red node nd whose parent may be red. */
  predicate InsertState<N>(c: Ctx<N>, t: Tree<N>, h: nat) {
    RbCtx(c, h) && t.Node? && t.red && Rb(t, h)
  }

  function Paint<N>(t: Tree<N>, red: bool): Tree<N>
    requires t.Node?
  {
    t.(red := red)
  }

  /** The parent and the uncle turn black, the grandparent red. */
  function Recolored<N>(c: Ctx<N>, t: Tree<N>): Tree<N>
    requires !c.Top? && !c.up.Top? && Sibling(c.up).Node?
  {
    Paint(Wrap(PaintSibling(c.up, false), Paint(Wrap(c, t), false)), true)
  }

  lemma RecoloredState<N>(c: Ctx<N>, t: Tree<N>, h: nat)
    requires InsertState(c, t, h) && HoleUnderRed(c) && !c.up.Top? && !Black(Sibling(c.up))
    ensures InsertState(c.up.up, Recolored(c, t), h + 1)
  {
    CtxStep(c, h); CtxStep(c.up, h);
    var black := c.(red := false);
    var p := Paint(Wrap(c, t), false);
    assert p == Wrap(black, t) && Sibling(black) == Sibling(c);
    WrapRb(black, t, h);
    var g := PaintSibling(c.up, false);
    assert Rb(Sibling(g), h + 1);
    assert Rb(p, h + 1) && Black(p) && Black(Sibling(g));
  }

  lemma RecoloredSeq<N>(c: Ctx<N>, t: Tree<N>)
    requires !c.Top? && !c.up.Top? && Sibling(c.up).Node? && t.Node?
    ensures SeqOf(c.up.up, Recolored(c, t)) == SeqOf(c, t)
  {
    WrapSeq(c, t);
    WrapSeq(c.up, Wrap(c, t));
    var p := Paint(Wrap(c, t), false);
    assert InOrder(p) == InOrder(Wrap(c, t));
    assert InOrder(Sibling(PaintSibling(c.up, false))) == InOrder(Sibling(c.up));
  }

  /** An inner grandchild is rotated to the outside: the contexts after it. */
  function InnerLeft<N>(c: Ctx<N>, t: Tree<N>): (Ctx<N>, Tree<N>)
    requires c.InRight? && t.Node?
  {
    (InLeft(c.up, t.key, t.red, t.right), Node(c.left, c.key, c.red, t.left))
  }

  function InnerRight<N>(c: Ctx<N>, t: Tree<N>): (Ctx<N>, Tree<N>)
    requires c.InLeft? && t.Node?
  {
    (InRight(t.left, t.key, t.red, c.up), Node(t.right, c.key, c.red, c.right))
  }

  lemma InnerState<N>(c: Ctx<N>, t: Tree<N>, h: nat)
    requires InsertState(c, t, h) && HoleUnderRed(c)
    ensures c.InRight? ==> var r := InnerLeft(c, t); InsertState(r.0, r.1, h) && HoleUnderRed(r.0)
    ensures c.InLeft? ==> var r := InnerRight(c, t); InsertState(r.0, r.1, h) && HoleUnderRed(r.0)
  {
    CtxStep(c, h);
    if c.InRight? { CtxStep(InnerLeft(c, t).0, h); } else { CtxStep(InnerRight(c, t).0, h); }
  }

  lemma InnerSeq<N>(c: Ctx<N>, t: Tree<N>)
    requires t.Node? && !c.Top?
    ensures c.InRight? ==> var r := InnerLeft(c, t); SeqOf(r.0, r.1) == SeqOf(c, t)
    ensures c.InLeft? ==> var r := InnerRight(c, t); SeqOf(r.0, r.1) == SeqOf(c, t)
  {
    WrapSeq(c, t);
    if c.InRight? {
      var r := InnerLeft(c, t);
      assert Wrap(r.0, r.1) == RotL(Wrap(c, t));
      RotLSeq(Wrap(c, t)); WrapSeq(r.0, r.1);
    } else {
      var r := InnerRight(c, t);
      assert Wrap(r.0, r.1) == RotR(Wrap(c, t));
      RotRSeq(Wrap(c, t)); WrapSeq(r.0, r.1);
    }
  }

  /** The last step: the parent turns black and moves to the place of the
      grandparent, which turns red and becomes the sibling. */
  function OuterLeft<N>(c: Ctx<N>): Ctx<N>
    requires c.InLeft? && c.up.InLeft?
  {
    InLeft(c.up.up, c.key, false, Node(c.right, c.up.key, true, c.up.right))
  }

  function OuterRight<N>(c: Ctx<N>): Ctx<N>
    requires c.InRight? && c.up.InRight?
  {
    InRight(Node(c.up.left, c.up.key, true, c.left), c.key, false, c.up.up)
  }

  lemma OuterState<N>(c: Ctx<N>, t: Tree<N>, h: nat)
    requires InsertState(c, t, h) && HoleUnderRed(c) && !c.up.Top? && Black(Sibling(c.up))
    ensures c.InLeft? && c.up.InLeft? ==> InsertState(OuterLeft(c), t, h)
    ensures c.InRight? && c.up.InRight? ==> InsertState(OuterRight(c), t, h)
  {
    CtxStep(c, h); CtxStep(c.up, h);
    if c.InLeft? && c.up.InLeft? { CtxStep(OuterLeft(c), h); }
    if c.InRight? && c.up.InRight? { CtxStep(OuterRight(c), h); }
  }

  lemma OuterSeq<N>(c: Ctx<N>, t: Tree<N>)
    requires !c.Top? && !c.up.Top?
    ensures c.InLeft? && c.up.InLeft? ==> SeqOf(OuterLeft(c), t) == SeqOf(c, t)
    ensures c.InRight? && c.up.InRight? ==> SeqOf(OuterRight(c), t) == SeqOf(c, t)
  {
    var w := Wrap(c.up, Wrap(c, t));
    WrapSeq(c, t); WrapSeq(c.up, Wrap(c, t));
    if c.InLeft? && c.up.InLeft? {
      var u := Wrap(OuterLeft(c), t);
      RotRSeq(w);
      assert InOrder(u) == InOrder(RotR(w));
      WrapSeq(OuterLeft(c), t);
    }
    if c.InRight? && c.up.InRight? {
      var u := Wrap(OuterRight(c), t);
      RotLSeq(w);
      assert InOrder(u) == InOrder(RotL(w));
      WrapSeq(OuterRight(c), t);
    }
  }

  lemma {:induction false} PlugIsNode<N>(c: Ctx<N>, t: Tree<N>)
    requires t.Node?
    ensures Plug(c, t).Node?
    decreases c
  {
    if !c.Top? { PlugIsNode(c.up, Wrap(c, t)); WrapSeq(c, t); }
  }

  /** The whole tree at the end, once the root has been painted black. */
  lemma InsertDone<N>(c: Ctx<N>, t: Tree<N>, h: nat)
    requires InsertState(c, t, h) && !HoleUnderRed(c)
    ensures c.Top? ==> RedBlack(Paint(t, false))
    ensures !c.Top? ==> RedBlack(Plug(c, t))
  {
    if c.Top? { RbHeight(Paint(t, false), h + 1); } else { RbPlug(c, t, h); }
  }

  // ---- deletion fix-up -------------------------------------------------------------------

  /** The state of the deletion loop: the subtree t at nd is one black node
      short of what the context c asks for.  If nd is red, painting it black
      repairs the tree; until then it may have a red child. */
  predicate DeleteState<N>(c: Ctx<N>, t: Tree<N>, h: nat) {
    RbCtx(c, h + 1) && (if Black(t) then Rb(t, h) else Rb(t.left, h) && Rb(t.right, h))
  }

  /** A black deficient node has a real sibling. */
  lemma SiblingIsReal<N>(c: Ctx<N>, t: Tree<N>, h: nat)
    requires DeleteState(c, t, h) && !c.Top?
    ensures Sibling(c).Node? && Rb(Sibling(c), h + 1)
    ensures !Black(Sibling(c)) ==> !c.red && Sibling(c).left.Node? && Sibling(c).right.Node?
  {
    CtxStep(c, h + 1);
  }

  /** A red sibling is rotated above the parent, which turns red; the new
      sibling is black. */
  function SwapRed<N>(c: Ctx<N>): Ctx<N>
    requires !c.Top? && Sibling(c).Node?
  {
    var s := Sibling(c);
    if c.InLeft? then InLeft(InLeft(c.up, s.key, false, s.right), c.key, true, s.left)
    else InRight(s.right, c.key, true, InRight(s.left, s.key, false, c.up))
  }

  lemma SwapRedState<N>(c: Ctx<N>, t: Tree<N>, h: nat)
    requires DeleteState(c, t, h) && !c.Top? && !Black(Sibling(c))
    ensures var d := SwapRed(c);
      DeleteState(d, t, h) && d.red && Sibling(d).Node? && Black(Sibling(d)) && SeqOf(d, t) == SeqOf(c, t)
  {
    SiblingIsReal(c, t, h);
    var d := SwapRed(c);
    CtxStep(c, h + 1); CtxStep(d, h + 1); CtxStep(d.up, h + 1);
    WrapSeq(c, t); WrapSeq(d, t); WrapSeq(d.up, Wrap(d, t));
    var w := Wrap(c, t);
    if c.InLeft? {
      RotLSeq(w);
      assert InOrder(Wrap(d.up, Wrap(d, t))) == InOrder(RotL(w));
    } else {
      RotRSeq(w);
      assert InOrder(Wrap(d.up, Wrap(d, t))) == InOrder(RotR(w));
    }
  }

  /** A black sibling with two black children turns red: the parent is
      deficient now. */
  lemma PushUpState<N>(c: Ctx<N>, t: Tree<N>, h: nat)
    requires DeleteState(c, t, h) && !c.Top? && Black(t) && Sibling(c).Node? && Black(Sibling(c))
    requires Black(Sibling(c).left) && Black(Sibling(c).right)
    ensures var u := Wrap(PaintSibling(c, true), t);
      DeleteState(c.up, u, if c.red then h else h + 1) && Black(u) == !c.red && SeqOf(c.up, u) == SeqOf(c, t)
  {
    CtxStep(c, h + 1);
    var d := PaintSibling(c, true);
    assert Rb(Sibling(d), h);
    WrapRb(d, t, h);
    WrapSeq(d, t); WrapSeq(c, t);
    assert InOrder(Sibling(d)) == InOrder(Sibling(c));
  }

  /** A red inner child of the sibling is rotated to the outside. */
  function TurnSibling<N>(c: Ctx<N>): Ctx<N>
    requires !c.Top? && Sibling(c).Node?
    requires if c.InLeft? then Sibling(c).left.Node? else Sibling(c).right.Node?
  {
    var s := Sibling(c);
    if c.InLeft? then c.(right := RotR(Node(Paint(s.left, false), s.key, true, s.right)))
    else c.(left := RotL(Node(s.left, s.key, true, Paint(s.right, false))))
  }

  lemma TurnSiblingState<N>(c: Ctx<N>, t: Tree<N>, h: nat)
    requires DeleteState(c, t, h) && !c.Top? && Sibling(c).Node? && Black(Sibling(c))
    requires if c.InLeft? then !Black(Sibling(c).left) && Black(Sibling(c).right)
             else !Black(Sibling(c).right) && Black(Sibling(c).left)
    ensures var d := TurnSibling(c);
      && DeleteState(d, t, h) && Sibling(d).Node? && Black(Sibling(d)) && SeqOf(d, t) == SeqOf(c, t)
      && (if d.InLeft? then !Black(Sibling(d).right) else !Black(Sibling(d).left))
  {
    var s, d := Sibling(c), TurnSibling(c);
    CtxStep(c, h + 1); CtxStep(d, h + 1);
    if c.InLeft? {
      var u := Node(Paint(s.left, false), s.key, true, s.right);
      RotRSeq(u);
      assert InOrder(u) == InOrder(s);
    } else {
      var u := Node(s.left, s.key, true, Paint(s.right, false));
      RotLSeq(u);
      assert InOrder(u) == InOrder(s);
    }
  }

  /** The last step: the sibling takes the place and the colour of the parent,
      and its outer child and the parent are black. */
  function Repaired<N>(c: Ctx<N>, t: Tree<N>): Tree<N>
    requires !c.Top? && Sibling(c).Node?
    requires if c.InLeft? then Sibling(c).right.Node? else Sibling(c).left.Node?
  {
    var s := Sibling(c);
    if c.InLeft? then RotL(Node(t, c.key, false, Node(s.left, s.key, c.red, Paint(s.right, false))))
    else RotR(Node(Node(Paint(s.left, false), s.key, c.red, s.right), c.key, false, t))
  }

  lemma RepairedState<N>(c: Ctx<N>, t: Tree<N>, h: nat)
    requires DeleteState(c, t, h) && !c.Top? && Black(t) && Sibling(c).Node? && Black(Sibling(c))
    requires if c.InLeft? then !Black(Sibling(c).right) else !Black(Sibling(c).left)
    ensures RedBlack(Plug(c.up, Repaired(c, t))) && SeqOf(c.up, Repaired(c, t)) == SeqOf(c, t)
  {
    var s, r := Sibling(c), Repaired(c, t);
    CtxStep(c, h + 1);
    assert Rb(s.left, h) && Rb(s.right, h);
    if c.InLeft? {
      assert Rb(Paint(s.right, false), h + 1) && Rb(Node(t, c.key, false, s.left), h + 1);
      assert r == Node(Node(t, c.key, false, s.left), s.key, c.red, Paint(s.right, false));
    } else {
      assert Rb(Paint(s.left, false), h + 1) && Rb(Node(s.right, c.key, false, t), h + 1);
      assert r == Node(Paint(s.left, false), s.key, c.red, Node(s.right, c.key, false, t));
    }
    assert Rb(r, if c.red then h + 1 else h + 2);
    RbPlug(c.up, r, if c.red then h + 1 else h + 2);
    WrapSeq(c, t);
    if c.InLeft? {
      var u := Node(t, c.key, false, Node(s.left, s.key, c.red, Paint(s.right, false)));
      RotLSeq(u);
      assert InOrder(u.right) == InOrder(s);
    } else {
      var u := Node(Node(Paint(s.left, false), s.key, c.red, s.right), c.key, false, t);
      RotRSeq(u);
      assert InOrder(u.left) == InOrder(s);
    }
  }

  lemma DeleteDone<N>(c: Ctx<N>, t: Tree<N>, h: nat)
    requires DeleteState(c, t, h) && (c.Top? || !Black(t))
    ensures Black(t) ==> RedBlack(t)
    ensures !Black(t) ==> RedBlack(Plug(c, Paint(t, false)))
  {
    if Black(t) { RbHeight(t, h); } else { RbPlug(c, Paint(t, false), h + 1); }
  }

  // ---- removing a node ----------------------------------------------------------------------

  /** A path that only goes left. */
  predicate LeftSpine<N>(c: Ctx<N>) {
    c.Top? || (c.InLeft? && LeftSpine(c.up))
  }

  lemma {:induction false} SpineSeq<N>(c: Ctx<N>, d: Ctx<N>, e: Ctx<N>)
    requires LeftSpine(c) && After(d) == After(e)
    ensures Before(Comp(c, d)) == Before(d) && After(Comp(c, d)) == After(Comp(c, e))
    decreases c
  {
    if !c.Top? { SpineSeq(c.up, d, e); }
  }

  /** s' is s without its element x. */
  ghost predicate Removed<N>(s: seq<N>, x: N, s': seq<N>) {
    exists k :: 0 <= k < |s| && s[k] == x && s' == s[..k] + s[k + 1..]
  }

  lemma RemovedAt<N>(a: seq<N>, x: N, b: seq<N>)
    ensures Removed(a + [x] + b, x, a + b)
  {
    var s := a + [x] + b;
    assert s[|a|] == x && s[..|a|] == a && s[|a| + 1..] == b;
  }

  /** A node with one child, or none, is replaced by that child. */
  lemma SpliceOut<N>(c: Ctx<N>, t: Tree<N>, x: Tree<N>) returns (h: nat)
    requires t.Node? && RedBlack(Plug(c, t)) && ((t.left.Leaf? && x == t.right) || (t.right.Leaf? && x == t.left))
    ensures Removed(SeqOf(c, t), t.key, SeqOf(c, x))
    ensures t.red ==> RedBlack(Plug(c, x))
    ensures !t.red ==> DeleteState(c, x, h)
  {
    var g := RbUnplug(c, t);
    if t.red { RbPlug(c, x, g); h := 0; } else { h := g - 1; }
    if t.left.Leaf? {
      assert InOrder(t) == [t.key] + InOrder(x);
      assert SeqOf(c, t) == Before(c) + [t.key] + (InOrder(x) + After(c));
      assert SeqOf(c, x) == Before(c) + (InOrder(x) + After(c));
      RemovedAt(Before(c), t.key, InOrder(x) + After(c));
    } else {
      assert InOrder(t) == InOrder(x) + [t.key];
      assert SeqOf(c, t) == (Before(c) + InOrder(x)) + [t.key] + After(c);
      assert SeqOf(c, x) == (Before(c) + InOrder(x)) + After(c);
      RemovedAt(Before(c) + InOrder(x), t.key, After(c));
    }
  }

  /** A node nd with two children is replaced by its successor y, whose right
      child takes the place of y. */
  lemma SwapOut<N>(c: Ctx<N>, l: Tree<N>, nd: N, red: bool, cy: Ctx<N>, y: N, yred: bool, yr: Tree<N>) returns (h: nat)
    requires RedBlack(Plug(c, Node(l, nd, red, Plug(cy, Node(Leaf, y, yred, yr)))))
    ensures var d := Comp(cy, InRight(l, y, red, c));
      (yred ==> RedBlack(Plug(d, yr))) && (!yred ==> DeleteState(d, yr, h))
  {
    var s := Node(Leaf, y, yred, yr);
    var e, d := Comp(cy, InRight(l, nd, red, c)), Comp(cy, InRight(l, y, red, c));
    PlugComp(cy, InRight(l, nd, red, c), s);
    var g := RbUnplug(e, s);
    RbCtxRename(cy, l, nd, y, red, c, g);
    CompRed(cy, InRight(l, nd, red, c), InRight(l, y, red, c));
    if yred { RbPlug(d, yr, g); h := 0; } else { h := g - 1; }
  }

  lemma CompRed<N>(c: Ctx<N>, d: Ctx<N>, e: Ctx<N>)
    requires !d.Top? && !e.Top? && d.red == e.red
    ensures !Comp(c, d).Top? && !Comp(c, e).Top? && Comp(c, d).red == Comp(c, e).red
  {
  }

  lemma SwapOutSeq<N>(c: Ctx<N>, l: Tree<N>, nd: N, red: bool, cy: Ctx<N>, y: N, yred: bool, yr: Tree<N>)
    requires LeftSpine(cy)
    ensures Removed(SeqOf(c, Node(l, nd, red, Plug(cy, Node(Leaf, y, yred, yr)))), nd,
      SeqOf(Comp(cy, InRight(l, y, red, c)), yr))
  {
    var s := Node(Leaf, y, yred, yr);
    var e, d := Comp(cy, InRight(l, nd, red, c)), Comp(cy, InRight(l, y, red, c));
    PlugComp(cy, InRight(l, nd, red, c), s);
    InOrderPlug(e, s);
    InOrderPlug(c, Node(l, nd, red, Plug(cy, s)));
    SpineSeq(cy, InRight(l, nd, red, c), InRight(l, y, red, c));
    SpineSeq(cy, InRight(l, y, red, c), InRight(l, y, red, c));
    var a, r, b := Before(c) + InOrder(l), InOrder(yr), After(d);
    assert Before(e) == a + [nd] && Before(d) == a + [y] && InOrder(s) == [y] + r;
    assert SeqOf(e, s) == (a + [nd]) + ([y] + r) + b;
    assert SeqOf(d, yr) == (a + [y]) + r + b;
    hide Comp, Plug, Before, After, InOrder, SeqOf, Removed;
    SwapSeqs(a, nd, y, r, b);
  }

  lemma SwapSeqs<N>(a: seq<N>, x: N, y: N, r: seq<N>, b: seq<N>)
    ensures Removed((a + [x]) + ([y] + r) + b, x, (a + [y]) + r + b)
  {
    assert (a + [x]) + ([y] + r) + b == a + [x] + ([y] + r + b);
    assert (a + [y]) + r + b == a + ([y] + r + b);
    RemovedAt(a, x, [y] + r + b);
  }
}
