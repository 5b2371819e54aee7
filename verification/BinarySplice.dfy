/** Taking a node with two children out of a binary tree: its neighbour in order takes its place. */
module BinarySplice {
  import opened BinaryTree

  /** A path down from a node: over is the way up from there, and the steps below it all go in direction e. */
  ghost predicate Over(c: Ctx, base: Ctx, e: nat) {
    c == base || (c.Step? && c.dir == e && Over(c.up, base, e))
  }

  /** The same path over another base. */
  ghost function Rebase(c: Ctx, base: Ctx, base1: Ctx, e: nat): Ctx
    requires Over(c, base, e)
  {
    if c == base then base1 else Step(c.node, c.tag, c.dir, c.sib, Rebase(c.up, base, base1, e))
  }

  /** The nodes of the path and its other subtrees, down to the base. */
  ghost function Spine(c: Ctx, base: Ctx, e: nat): set<Node>
    requires Over(c, base, e)
  {
    if c == base then {} else {c.node} + Foot(c.sib) + Spine(c.up, base, e)
  }

  lemma {:induction false} SpineFoot(c: Ctx, base: Ctx, base1: Ctx, e: nat)
    requires Over(c, base, e)
    ensures FootC(c) == Spine(c, base, e) + FootC(base)
    ensures FootC(Rebase(c, base, base1, e)) == Spine(c, base, e) + FootC(base1)
    ensures ApartC(c) ==> ApartC(base) && Spine(c, base, e) !! FootC(base)
    ensures ApartC(c) && ApartC(base1) && Spine(c, base, e) !! FootC(base1) ==> ApartC(Rebase(c, base, base1, e))
  {
    if c != base {
      SpineFoot(c.up, base, base1, e);
    }
  }

  /** Cells of the path stay as they are; only the base is new. */
  lemma {:induction false} RebaseLinked(m: Mem, m1: Mem, root: Node?, root1: Node?, c: Ctx, base: Ctx, base1: Ctx, e: nat, hole: Node?)
    requires Over(c, base, e) && LinkedC(m, root, c, hole) && base.Step? && base1.Step? && base1.node == base.node
    requires base1.dir == base.dir <= 1 && base.node in m && base.node in m1
    requires LinkedC(m1, root1, base1, m[base.node].Child(base.dir))
    requires Agree(m, m1, Spine(c, base, e))
    ensures LinkedC(m1, root1, Rebase(c, base, base1, e), hole)
  {
    if c != base {
      LinkedFrame(m, m1, c.sib, c.node);
      RebaseLinked(m, m1, root, root1, c.up, base, base1, e, c.node);
    }
  }

  /** In order, only the base matters. */
  lemma {:induction false} RebaseOrder(c: Ctx, base: Ctx, base1: Ctx, e: nat)
    requires Over(c, base, e)
    ensures e == 0 ==> Pre(c) == Pre(base)
    ensures e == 0 ==> Pre(Rebase(c, base, base1, e)) == Pre(base1)
    ensures e == 0 && Post(base) == Post(base1) ==> Post(Rebase(c, base, base1, e)) == Post(c)
    ensures e != 0 ==> Post(c) == Post(base)
    ensures e != 0 ==> Post(Rebase(c, base, base1, e)) == Post(base1)
    ensures e != 0 && Pre(base) == Pre(base1) ==> Pre(Rebase(c, base, base1, e)) == Pre(c)
  {
    if c != base {
      RebaseOrder(c.up, base, base1, e);
    }
  }

  /** The last link of a way up gets another target. */
  lemma HoleChanged(m: Mem, m1: Mem, root: Node?, c: Ctx, hole: Node?, hole1: Node?)
    requires c.Step? && LinkedC(m, root, c, hole) && ApartC(c) && c.node in m1
    requires m1[c.node] == m[c.node].WithChild(c.dir, hole1) && Agree(m, m1, FootC(c) - {c.node})
    ensures LinkedC(m1, root, c, hole1)
  {
    LinkedFrame(m, m1, c.sib, c.node);
    LinkedCFrame(m, m1, root, c.up, c.node);
  }

  /** A node with two children, seen from its child in direction d: o is its other subtree, up the way up from it. */
  datatype Place = Place(node: Node, tag: int, d: nat, o: Tree, up: Ctx)

  ghost function At(p: Place): Ctx {
    Step(p.node, p.tag, p.d, p.o, p.up)
  }

  /** The same place taken by another node. */
  ghost function Taken(p: Place, n: Node): Ctx {
    Step(n, p.tag, p.d, p.o, p.up)
  }

  /** Child has taken the place of p.node; its child in direction d is hole. */
  ghost predicate TookOver(m: Mem, m1: Mem, root1: Node?, p: Place, child: Node, hole: Node?)
  {
    p.d <= 1 && child in m1 && p.o.Fork? && p.o.node in m && p.o.node in m1 &&
    m1[child].Child(p.d) == hole && m1[child].Child(1 - p.d) == Root(p.o) && m1[child].parent == Owner(p.up) &&
    m1[child].tag == p.tag && m1[p.o.node] == m[p.o.node].(parent := child) &&
    LinkedC(m1, root1, p.up, child)
  }

  lemma TookOverLinked(m: Mem, m1: Mem, root1: Node?, p: Place, child: Node, hole: Node?)
    requires TookOver(m, m1, root1, p, child, hole) && Linked(m, p.o, p.node) && Apart(p.o)
    requires Agree(m, m1, Foot(p.o) - {p.o.node})
    ensures LinkedC(m1, root1, Taken(p, child), hole)
  {
    Reparent(m, m1, p.o, p.node, child);
  }

  /** The neighbour is the child itself: it has no child on the inner side. */
  lemma SpliceNear(m: Mem, m1: Mem, root: Node?, root1: Node?, p: Place, child: Node, ctag: int, r: Tree)
    requires p.d <= 1 && Focus(m, root, At(p), Mk(p.d, r, child, ctag, Leaf))
    requires TookOver(m, m1, root1, p, child, Root(r))
    requires Agree(m, m1, Foot(r) + (Foot(p.o) - {Root(p.o)}))
    ensures Focus(m1, root1, Taken(p, child), r)
  {
    MkParts(p.d, r, child, ctag, Leaf);
    LinkedMk(m, p.d, r, child, ctag, Leaf, p.node);
    TookOverLinked(m, m1, root1, p, child, Root(r));
    LinkedFrame(m, m1, r, child);
  }

  /** What comes before and behind, with the node and without it. */
  lemma NearOrder(p: Place, child: Node, ctag: int, r: Tree)
    requires p.d <= 1
    ensures Pre(Taken(p, child)) + InOrder(r) + Post(Taken(p, child)) ==
      Pre(p.up) + WithoutMiddle(p.d, InOrder(Mk(p.d, r, child, ctag, Leaf)), InOrder(p.o)) + Post(p.up)
  {
    MkParts(p.d, r, child, ctag, Leaf);
    assert InOrder(Leaf) == [];
    var x, o, u, v := InOrder(r), InOrder(p.o), Pre(p.up), Post(p.up);
    hide InOrder, Mk;
    assert [child] + [] == [child] && [] + [child] == [child];
    if p.d == 0 {
      NearLeft(u, x, [child], o, v);
      assert x + [child] + [] == x + [child];
    } else {
      NearLeft(u, o, [child], x, v);
      assert [] + [child] + x == [child] + x;
    }
  }

  lemma NearLeft<T>(u: seq<T>, x: seq<T>, n: seq<T>, o: seq<T>, v: seq<T>)
    ensures u + x + (n + o + v) == u + (x + n + o) + v
    ensures (u + x + n) + o + v == u + (x + (n + o)) + v
  {
  }

  /** The two subtrees of a node in order, without the node: s is the one in direction d. */
  ghost function WithoutMiddle(d: nat, s: seq<Node>, o: seq<Node>): seq<Node> {
    if d == 0 then s + o else o + s
  }

  // ---------------------------------------------------------------- the neighbour is farther down

  /** The place, and the path from its child s down inner children to the neighbour. */
  datatype Far = Far(p: Place, s: Node, stag: int, outer: Tree, c: Ctx, child: Node, ctag: int, r: Tree)

  ghost function E(f: Far): nat
    requires f.p.d <= 1
  {
    1 - f.p.d
  }

  /** The first step of the path. */
  ghost function First(f: Far): Ctx
    requires f.p.d <= 1
  {
    Step(f.s, f.stag, 1 - f.p.d, f.outer, At(f.p))
  }

  ghost function FirstTaken(f: Far): Ctx
    requires f.p.d <= 1
  {
    Step(f.s, f.stag, 1 - f.p.d, f.outer, Taken(f.p, f.child))
  }

  /** The subtree in focus at the end of the path. */
  ghost function Neighbour(f: Far): Tree
    requires f.p.d <= 1
  {
    Mk(1 - f.p.d, Leaf, f.child, f.ctag, f.r)
  }

  ghost predicate FarOk(m: Mem, root: Node?, f: Far) {
    f.p.d <= 1 && Over(f.c, First(f), E(f)) && f.p.o.Fork? && Focus(m, root, f.c, Neighbour(f))
  }

  ghost function NewPath(f: Far): Ctx
    requires f.p.d <= 1 && Over(f.c, First(f), E(f))
  {
    Rebase(f.c, First(f), FirstTaken(f), E(f))
  }

  /** What taking over writes: the neighbour gets both children and the place, and leaves its other child behind. */
  ghost predicate FarWritten(m: Mem, m1: Mem, root1: Node?, f: Far)
    requires f.p.d <= 1 && Over(f.c, First(f), E(f)) && f.c.Step?
  {
    var e := 1 - f.p.d;
    m1.Keys == m.Keys && f.s in m && f.c.node in m &&
    TookOver(m, m1, root1, f.p, f.child, f.s) &&
    m1[f.s].parent == f.child && m1[f.s].Child(1 - e) == m[f.s].Child(1 - e) && m1[f.s].tag == m[f.s].tag &&
    (f.s != f.c.node ==> m1[f.s].Child(e) == m[f.s].Child(e) && m1[f.c.node] == m[f.c.node].WithChild(e, Root(f.r))) &&
    m1[f.c.node].Child(e) == Root(f.r) &&
    (f.r.Fork? ==> f.r.node in m && m1[f.r.node] == m[f.r.node].(parent := f.c.node)) &&
    Agree(m, m1, (Spine(f.c, First(f), e) - {f.c.node}) + Foot(f.outer) + (Foot(f.r) - {Root(f.r)}) + (Foot(f.p.o) - {Root(f.p.o)}))
  }

  lemma {:induction false} OverStep(c: Ctx, base: Ctx, e: nat)
    requires Over(c, base, e) && base.Step? && base.dir == e
    ensures c.Step? && c.dir == e && (c == base || c.node in Spine(c, base, e))
    ensures base.node in FootC(c) && FootC(base) <= FootC(c)
  {
    if c != base {
      OverStep(c.up, base, e);
    }
  }

  /** The state in which only the last link is still the old one. */
  ghost function Unhooked(m1: Mem, c: Ctx, hole: Node?): Mem
    requires c.Step? && c.node in m1
  {
    m1[c.node := m1[c.node].WithChild(c.dir, hole)]
  }

  lemma FarApart(m: Mem, root: Node?, f: Far)
    requires FarOk(m, root, f)
    ensures f.c.Step? && f.c.dir == 1 - f.p.d && (f.c == First(f) || f.c.node in Spine(f.c, First(f), E(f)))
    ensures ApartC(f.c) && ApartC(First(f)) && Spine(f.c, First(f), E(f)) !! FootC(First(f))
    ensures f.child !in FootC(f.c) && Foot(f.r) !! FootC(f.c) && f.child !in Foot(f.r) && Apart(f.r)
    ensures FootC(f.c) == Spine(f.c, First(f), E(f)) + FootC(First(f))
  {
    OverStep(f.c, First(f), E(f));
    SpineFoot(f.c, First(f), FirstTaken(f), E(f));
    MkParts(1 - f.p.d, Leaf, f.child, f.ctag, f.r);
  }

  lemma FarLinks(m: Mem, root: Node?, f: Far)
    requires FarOk(m, root, f) && f.c.Step? && f.c.dir == 1 - f.p.d
    ensures f.c.node in m && m[f.c.node].Child(1 - f.p.d) == f.child && Linked(m, f.r, f.child) && LinkedC(m, root, f.c, f.child)
    ensures f.child in m && m[f.child].Child(f.p.d) == Root(f.r)
  {
    LinkedMk(m, 1 - f.p.d, Leaf, f.child, f.ctag, f.r, Owner(f.c));
  }

  lemma {:induction false} BaseLinked(m: Mem, root: Node?, c: Ctx, base: Ctx, e: nat, hole: Node?)
    requires Over(c, base, e) && LinkedC(m, root, c, hole) && base.Step? && base.dir <= 1
    ensures base.node in m && LinkedC(m, root, base, m[base.node].Child(base.dir))
  {
    if c != base {
      BaseLinked(m, root, c.up, base, e, c.node);
    }
  }

  /** The way up to the first step, in the new state but for the last link. */
  lemma FirstLinked(m: Mem, m1: Mem, root: Node?, root1: Node?, f: Far)
    requires FarOk(m, root, f) && f.c.Step? && FarWritten(m, m1, root1, f)
    ensures var ma := Unhooked(m1, f.c, f.child);
      f.s in m && f.s in ma && LinkedC(ma, root1, FirstTaken(f), m[f.s].Child(1 - f.p.d))
  {
    var ma := Unhooked(m1, f.c, f.child);
    FarApart(m, root, f);
    FarLinks(m, root, f);
    BaseLinked(m, root, f.c, First(f), E(f), f.child);
    FirstCell(m, m1, root, root1, f);
    hide Spine, Over, Rebase, Foot, Apart, FarOk, FarWritten, Agree, TookOver, Linked;
    FirstSub(m, m1, ma, root, root1, f);
  }

  /** The cell of the first step, in the state in which only the last link is still the old one. */
  lemma FirstCell(m: Mem, m1: Mem, root: Node?, root1: Node?, f: Far)
    requires FarOk(m, root, f) && f.c.Step? && FarWritten(m, m1, root1, f) && f.c.dir == 1 - f.p.d
    requires m[f.c.node].Child(1 - f.p.d) == f.child
    ensures var ma := Unhooked(m1, f.c, f.child);
      f.s in ma && ma[f.s].Child(1 - f.p.d) == m[f.s].Child(1 - f.p.d) && ma[f.s].Child(f.p.d) == m[f.s].Child(f.p.d) &&
      ma[f.s].parent == f.child && ma[f.s].tag == m[f.s].tag
  {
    hide Spine, Over, Rebase, Foot, Focus, Agree, TookOver, Linked, LinkedC;
  }

  lemma FirstSub(m: Mem, m1: Mem, ma: Mem, root: Node?, root1: Node?, f: Far)
    requires FarOk(m, root, f) && f.c.Step? && FarWritten(m, m1, root1, f) && ma == Unhooked(m1, f.c, f.child)
    requires ApartC(First(f)) && f.c.dir == 1 - f.p.d && LinkedC(m, root, First(f), m[f.s].Child(1 - f.p.d))
    requires f.c == First(f) || f.c.node in Spine(f.c, First(f), E(f))
    requires Spine(f.c, First(f), E(f)) !! FootC(First(f))
    requires f.child !in FootC(f.c) && f.c.node in FootC(f.c)
    ensures Linked(ma, f.outer, f.s) && LinkedC(ma, root1, Taken(f.p, f.child), f.s)
  {
    OuterApart(f);
    hide Spine, Over, Rebase, Foot, Apart;
    LinkedFrame(m, m1, f.outer, f.s);
    LinkedFrame(m1, ma, f.outer, f.s);
    TookOverLinked(m, m1, root1, f.p, f.child, f.s);
    LinkedCFrame(m1, ma, root1, Taken(f.p, f.child), f.s);
  }

  lemma OuterApart(f: Far)
    requires f.p.d <= 1 && Over(f.c, First(f), E(f)) && f.c.Step? && ApartC(First(f))
    requires f.c == First(f) || f.c.node in Spine(f.c, First(f), E(f))
    requires Spine(f.c, First(f), E(f)) !! FootC(First(f)) && f.child != f.c.node
    ensures f.c.node !in Foot(f.outer) && f.c.node !in FootC(Taken(f.p, f.child))
    ensures Apart(f.p.o)
  {
    hide Spine, Over, Rebase, Foot;
  }

  lemma UnhookedSame(m: Mem, m1: Mem, root: Node?, root1: Node?, f: Far)
    requires FarOk(m, root, f) && f.c.Step? && FarWritten(m, m1, root1, f)
    ensures f.c.node in m1 && f.c.dir == 1 - f.p.d
    ensures var ma := Unhooked(m1, f.c, f.child);
      Agree(m, ma, Spine(f.c, First(f), E(f))) && m1[f.c.node] == ma[f.c.node].WithChild(f.c.dir, Root(f.r))
  {
    FarApart(m, root, f);
    FarLinks(m, root, f);
    hide Over, Rebase, Foot, Apart, Linked, LinkedC, ApartC, FootC;
  }

  /** The whole way up from what the neighbour leaves behind is linked again. */
  lemma SpliceFar(m: Mem, m1: Mem, root: Node?, root1: Node?, f: Far)
    requires FarOk(m, root, f) && f.c.Step? && FarWritten(m, m1, root1, f)
    requires ApartC(NewPath(f)) && FootC(NewPath(f)) !! Foot(f.r)
    ensures Focus(m1, root1, NewPath(f), f.r)
  {
    FarApart(m, root, f);
    FarLinks(m, root, f);
    FirstLinked(m, m1, root, root1, f);
    UnhookedSame(m, m1, root, root1, f);
    var ma := Unhooked(m1, f.c, f.child);
    NewPathEnd(f);
    FarRest(m, m1, root, root1, f);
    hide *;
    RebasedPath(m, ma, root, root1, f);
    HoleMoved(m1, ma, root1, f);
  }

  lemma NewPathEnd(f: Far)
    requires f.p.d <= 1 && Over(f.c, First(f), E(f)) && f.c.Step?
    ensures NewPath(f).Step? && NewPath(f).node == f.c.node && NewPath(f).dir == f.c.dir
  {
  }

  lemma RebasedPath(m: Mem, ma: Mem, root: Node?, root1: Node?, f: Far)
    requires f.p.d <= 1 && Over(f.c, First(f), E(f)) && LinkedC(m, root, f.c, f.child) && f.s in m && f.s in ma
    requires LinkedC(ma, root1, FirstTaken(f), m[f.s].Child(1 - f.p.d)) && Agree(m, ma, Spine(f.c, First(f), E(f)))
    ensures LinkedC(ma, root1, NewPath(f), f.child)
  {
    RebaseLinked(m, ma, root, root1, f.c, First(f), FirstTaken(f), E(f), f.child);
  }

  /** What the neighbour leaves behind hangs on the node that was above the neighbour. */
  lemma FarRest(m: Mem, m1: Mem, root: Node?, root1: Node?, f: Far)
    requires FarOk(m, root, f) && f.c.Step? && FarWritten(m, m1, root1, f)
    ensures Linked(m1, f.r, f.c.node) && Apart(f.r)
  {
    FarApart(m, root, f);
    FarLinks(m, root, f);
    hide Over, Rebase, LinkedC, ApartC, FootC, Spine;
    if f.r.Fork? {
      Reparent(m, m1, f.r, f.child, f.c.node);
    }
  }

  lemma HoleMoved(m1: Mem, ma: Mem, root1: Node?, f: Far)
    requires f.p.d <= 1 && Over(f.c, First(f), E(f)) && f.c.Step? && f.c.node in m1 && ma == Unhooked(m1, f.c, f.child)
    requires LinkedC(ma, root1, NewPath(f), f.child) && ApartC(NewPath(f)) && FootC(NewPath(f)) !! Foot(f.r)
    requires NewPath(f).Step? && NewPath(f).node == f.c.node && NewPath(f).dir == f.c.dir
    requires m1[f.c.node] == ma[f.c.node].WithChild(f.c.dir, Root(f.r))
    requires Linked(m1, f.r, f.c.node) && Apart(f.r)
    ensures Focus(m1, root1, NewPath(f), f.r)
  {
    hide Over, Rebase, Spine;
    HoleChanged(ma, m1, root1, NewPath(f), f.child, Root(f.r));
  }

  /** In order, the node is missing and nothing else has changed. */
  lemma FarOrder(f: Far, inner: seq<Node>)
    requires f.p.d <= 1 && Over(f.c, First(f), E(f))
    requires Pre(f.c) + InOrder(Neighbour(f)) + Post(f.c) == Pre(At(f.p)) + inner + Post(At(f.p))
    ensures Pre(NewPath(f)) + InOrder(f.r) + Post(NewPath(f)) ==
      Pre(f.p.up) + WithoutMiddle(f.p.d, inner, InOrder(f.p.o)) + Post(f.p.up)
  {
    RebaseOrder(f.c, First(f), FirstTaken(f), E(f));
    FirstOrder(f);
    NeighbourOrder(f);
    MiddleCases(f.p.d, inner, InOrder(f.p.o));
    hide *;
    if f.p.d == 0 {
      LeftCase(Pre(f.c), InOrder(f.r), [f.child], [f.p.node], InOrder(f.p.o), Post(f.p.up), Pre(f.p.up), inner);
    } else {
      RightCase(Pre(f.p.up), InOrder(f.p.o), [f.p.node], [f.child], InOrder(f.r), Post(f.c), inner, Post(f.p.up));
    }
  }

  lemma NeighbourOrder(f: Far)
    requires f.p.d <= 1
    ensures InOrder(Neighbour(f)) == if f.p.d == 0 then InOrder(f.r) + [f.child] else [f.child] + InOrder(f.r)
  {
    MkParts(1 - f.p.d, Leaf, f.child, f.ctag, f.r);
    assert InOrder(Leaf) == [];
    hide Mk, InOrder;
    assert InOrder(f.r) + [f.child] + [] == InOrder(f.r) + [f.child];
    assert [] + [f.child] + InOrder(f.r) == [f.child] + InOrder(f.r);
  }

  lemma LeftCase<T>(a: seq<T>, r: seq<T>, x: seq<T>, n: seq<T>, o: seq<T>, v: seq<T>, u: seq<T>, y: seq<T>)
    requires a + (r + x) + (n + o + v) == u + y + (n + o + v)
    ensures a + r + (x + o + v) == u + (y + o) + v
  {
    CancelRight(a, r + x, n + o + v, u, y);
    RejoinLeft(a, r, x, o, v, u, y);
  }

  lemma RightCase<T>(u: seq<T>, o: seq<T>, n: seq<T>, x: seq<T>, r: seq<T>, b: seq<T>, y: seq<T>, v: seq<T>)
    requires (u + o + n) + (x + r) + b == (u + o + n) + y + v
    ensures (u + o + x) + r + b == u + (o + y) + v
  {
    CancelLeft(u + o + n, x + r, b, y, v);
    RejoinRight(u, o, x, r, b, y, v);
  }

  lemma MiddleCases(d: nat, s: seq<Node>, o: seq<Node>)
    ensures WithoutMiddle(d, s, o) == if d == 0 then s + o else o + s
  {
  }

  lemma FirstOrder(f: Far)
    requires f.p.d <= 1
    ensures f.p.d == 0 ==> Post(First(f)) == [f.p.node] + InOrder(f.p.o) + Post(f.p.up)
    ensures f.p.d == 0 ==> Post(FirstTaken(f)) == [f.child] + InOrder(f.p.o) + Post(f.p.up)
    ensures f.p.d == 0 ==> Pre(First(f)) == Pre(FirstTaken(f)) && Pre(At(f.p)) == Pre(f.p.up) && Post(At(f.p)) == Post(First(f))
    ensures f.p.d == 1 ==> Pre(First(f)) == Pre(f.p.up) + InOrder(f.p.o) + [f.p.node]
    ensures f.p.d == 1 ==> Pre(FirstTaken(f)) == Pre(f.p.up) + InOrder(f.p.o) + [f.child]
    ensures f.p.d == 1 ==> Post(First(f)) == Post(FirstTaken(f)) && Post(At(f.p)) == Post(f.p.up) && Pre(At(f.p)) == Pre(First(f))
  {
  }

  lemma CancelLeft<T>(a: seq<T>, x: seq<T>, b: seq<T>, y: seq<T>, c: seq<T>)
    requires a + x + b == a + y + c
    ensures x + b == y + c
  {
    assert a + x + b == a + (x + b) && a + y + c == a + (y + c);
    assert (a + (x + b))[|a|..] == x + b && (a + (y + c))[|a|..] == y + c;
  }

  lemma CancelRight<T>(a: seq<T>, x: seq<T>, c: seq<T>, b: seq<T>, y: seq<T>)
    requires a + x + c == b + y + c
    ensures a + x == b + y
  {
    var s, t := a + x, b + y;
    assert |s| == |t|;
    assert (s + c)[..|s|] == s && (t + c)[..|t|] == t;
  }

  lemma RejoinLeft<T>(a: seq<T>, r: seq<T>, x: seq<T>, o: seq<T>, v: seq<T>, u: seq<T>, y: seq<T>)
    requires a + (r + x) == u + y
    ensures a + r + (x + o + v) == u + (y + o) + v
  {
    assert a + r + (x + o + v) == (a + (r + x)) + o + v;
    assert u + (y + o) + v == (u + y) + o + v;
  }

  lemma RejoinRight<T>(u: seq<T>, o: seq<T>, x: seq<T>, r: seq<T>, b: seq<T>, y: seq<T>, v: seq<T>)
    requires (x + r) + b == y + v
    ensures (u + o + x) + r + b == u + (o + y) + v
  {
    assert (u + o + x) + r + b == u + o + ((x + r) + b);
    assert u + (o + y) + v == u + o + (y + v);
  }

  /** The new path keeps apart what was apart. */
  lemma NewPathApart(m: Mem, root: Node?, f: Far)
    requires FarOk(m, root, f)
    ensures ApartC(NewPath(f)) && FootC(NewPath(f)) !! Foot(f.r) && f.c.Step? && f.c.dir == 1 - f.p.d
    ensures FootC(NewPath(f)) + Foot(f.r) == FootC(f.c) + Foot(Neighbour(f)) - {f.p.node}
  {
    FarApart(m, root, f);
    SpineFoot(f.c, First(f), FirstTaken(f), E(f));
    MkParts(1 - f.p.d, Leaf, f.child, f.ctag, f.r);
    FirstApart(f);
    hide Over, Rebase, Spine, Foot, Apart, Focus, Linked, LinkedC, FootC, ApartC;
  }

  lemma FirstApart(f: Far)
    requires f.p.d <= 1 && ApartC(First(f)) && f.child !in FootC(First(f))
    ensures ApartC(FirstTaken(f)) && FootC(FirstTaken(f)) == FootC(First(f)) - {f.p.node} + {f.child}
  {
    hide Foot;
    assert ApartC(At(f.p)) && ApartC(Taken(f.p, f.child));
  }
}
