/** Deletion at the leaf: the item goes away, or it moves up into the place of the item that was asked for. */
module BTreeTake {
  import opened BTreeNode
  import opened BTreeTree
  import opened BTreePath
  import opened BTreeClimb
  import opened BTreeInsertEven
  import opened BTreeWalk
  import opened BTreeInsert
  import opened BTreeSeek

  /** Where deletion stands on its way up: everything reads target, and only the node of t may be one item short. */
  ghost predicate Mending(fs: seq<Frame>, t: Tree, path: seq<Pos>, h: nat, target: seq<Item>, maxItems: nat) {
    2 <= maxItems && PathOk(fs) && ShapeP(fs, h, maxItems) && Shape(t, h, RootMin(|fs|, maxItems) - 1, maxItems) &&
    Pre(fs) + Flat(t) + Post(fs) == target && PathMatches(path, fs)
  }

  ghost function Shrunk(t: Tree, idx: nat): Tree
    requires idx < |t.items|
  {
    Tree(t.node, Removed(t.items, idx), t.kids)
  }

  lemma TakenHere(tp: Tree, fs: seq<Frame>, t: Tree, path: seq<Pos>, idx: nat, key: int, c: int, at: nat, s: seq<Item>,
                  maxItems: nat)
    requires Chosen(tp, fs, t, path, idx, key, c, at, s, maxItems) && c < 0
    ensures Mending(fs, Shrunk(t, idx), path, 1, Removed(s, at), maxItems) && Rebuild(fs, Shrunk(t, idx)).node == tp.node
  {
    assert Flat(t) == t.items && Flat(Shrunk(t, idx)) == Removed(t.items, idx);
    RebuildNode(fs, t, Shrunk(t, idx));
    hide Flat, Pre, Post, Rebuild, ShapeP, PathOk, PathMatches;
    RemovedInside(Pre(fs), t.items, Post(fs), idx);
  }

  lemma RemovedInside<T>(a: seq<T>, b: seq<T>, c: seq<T>, idx: nat)
    requires idx < |b|
    ensures |a| + idx < |a + b + c| && Removed(a + b + c, |a| + idx) == a + Removed(b, idx) + c
  {
  }

  /** Moving the last item of b over the first one of c is the same as removing the latter. */
  lemma RemovedBehind<T>(a: seq<T>, b: seq<T>, c: seq<T>)
    requires b != [] && c != []
    ensures |a| + |b| < |a + b + c|
    ensures Removed(a + b + c, |a| + |b|) == a + Removed(b, |b| - 1) + ([b[|b| - 1]] + c[1..])
  {
  }

  lemma {:induction false} ReplacedShape(fs: seq<Frame>, c: nat, key: int, x: Item, h: nat, maxItems: nat)
    requires HitAt(fs, c, key) && ShapeP(fs, h, maxItems)
    ensures ShapeP(Replaced(fs, c, x), h, maxItems)
  {
    var gs := Replaced(fs, c, x);
    if c == |fs| - 1 {
      assert Init(gs) == Init(fs);
    } else {
      assert Last(gs) == Last(fs) && Init(gs) == Replaced(Init(fs), c, x);
      ReplacedShape(Init(fs), c, key, x, h + 1, maxItems);
    }
  }

  lemma RebuildSplit(fs: seq<Frame>, t: Tree, c: nat)
    requires c <= |fs|
    ensures Rebuild(fs, t) == Rebuild(fs[..c], Rebuild(fs[c..], t))
  {
    if c == |fs| {
      assert fs[..c] == fs && fs[c..] == [];
    } else {
      RebuildSplit(Init(fs), Plug(Last(fs), t), c);
      assert Init(fs)[..c] == fs[..c] && Init(fs)[c..] == Init(fs[c..]);
    }
  }

  /** The tree below frame c, with frame c. */
  ghost function Below(fs: seq<Frame>, t: Tree, c: nat): Tree
    requires c < |fs|
  {
    Plug(fs[c], Rebuild(fs[c + 1..], t))
  }

  lemma RebuildAt(fs: seq<Frame>, t: Tree, c: nat)
    requires c < |fs|
    ensures Rebuild(fs, t) == Rebuild(fs[..c], Below(fs, t, c))
  {
    RebuildSplit(fs, t, c);
    RebuildFirst(fs[c..], t);
    assert fs[c..][1..] == fs[c + 1..];
  }

  lemma ReplacedAt(fs: seq<Frame>, t: Tree, c: nat, key: int, x: Item)
    requires HitAt(fs, c, key)
    ensures Rebuild(Replaced(fs, c, x), t) == Rebuild(fs[..c], Overwritten(Below(fs, t, c), |fs[c].left|, x))
    ensures Rebuild(Replaced(fs, c, x), t).node == Rebuild(fs, t).node
  {
    var gs := Replaced(fs, c, x);
    RebuildAt(fs, t, c);
    RebuildAt(gs, t, c);
    assert gs[..c] == fs[..c] && gs[c + 1..] == fs[c + 1..];
    RebuildNode(fs[..c], Below(fs, t, c), Below(gs, t, c));
  }

  /** What Chosen says about a leaf whose last item moves up. */
  lemma ChosenBelow(tp: Tree, fs: seq<Frame>, t: Tree, path: seq<Pos>, idx: nat, key: int, c: int, at: nat, s: seq<Item>,
                    maxItems: nat)
    requires Chosen(tp, fs, t, path, idx, key, c, at, s, maxItems) && c >= 0
    ensures HitAt(fs, c, key) && RightEdge(fs, c) && PathOk(fs) && ShapeP(fs, 1, maxItems) && PathMatches(path, fs)
    ensures idx < |t.items| && idx == |t.items| - 1 && at == |Pre(fs)| + |t.items| < |s|
    ensures Pre(fs) + t.items + Post(fs) == s && Rebuild(fs, t) == tp
    ensures Flat(Shrunk(t, idx)) == Removed(t.items, idx)
    ensures Shape(Shrunk(t, idx), 1, RootMin(|fs|, maxItems) - 1, maxItems) && 2 <= maxItems
  {
    assert Flat(t) == t.items;
  }

  lemma TakenBelow(tp: Tree, fs: seq<Frame>, t: Tree, path: seq<Pos>, idx: nat, key: int, c: int, at: nat, s: seq<Item>,
                   maxItems: nat)
    requires Chosen(tp, fs, t, path, idx, key, c, at, s, maxItems) && c >= 0
    ensures HitAt(fs, c, key) && c < |fs| && |fs[c].left| < |fs[c].items|
    ensures Mending(Replaced(fs, c, t.items[idx]), Shrunk(t, idx), path, 1, Removed(s, at), maxItems)
    ensures Rebuild(Replaced(fs, c, t.items[idx]), Shrunk(t, idx)).node == tp.node
  {
    assert c < |fs| && |fs[c].left| < |fs[c].items|;
    ChosenBelow(tp, fs, t, path, idx, key, c, at, s, maxItems);
    hide Chosen, Removed, Flat, Pre, Post, Rebuild, ShapeP, PathOk, PathMatches, Shape, RightEdge, Replaced, HitAt, Shrunk;
    var x, u := t.items[idx], Shrunk(t, idx);
    ReplacedPost(fs, c, key, x);
    ReplacedShape(fs, c, key, x, 1, maxItems);
    ReplacedAt(fs, t, c, key, x);
    ShrunkNode(t, idx);
    RebuildNode(Replaced(fs, c, x), t, u);
    MatchesReplaced(path, fs, c, x);
    RemovedBehind(Pre(fs), t.items, Post(fs));
  }

  lemma ShrunkNode(t: Tree, idx: nat)
    requires idx < |t.items|
    ensures Shrunk(t, idx).node == t.node
  {
  }

  lemma MatchesReplaced(path: seq<Pos>, fs: seq<Frame>, c: nat, x: Item)
    requires PathMatches(path, fs) && c < |fs| && |fs[c].left| < |fs[c].items|
    ensures PathMatches(path, Replaced(fs, c, x))
  {
  }

  /** The item is stored in its slot. */
  method PutInSlot(slot: Node, slotIdx: nat, x: Item, ghost tp: Tree, ghost fs: seq<Frame>, ghost t: Tree, ghost c: nat,
                   ghost key: int, ghost maxItems: nat)
    requires Rebuild(fs, t) == tp && Rep(tp, maxItems) && HitAt(fs, c, key)
    requires slot == fs[c].node && slotIdx == |fs[c].left|
    modifies Foot(tp)
    ensures InMemory(Replaced(fs, c, x), t, [], maxItems) && Touched(Replaced(fs, c, x), t, []) == Foot(tp)
  {
    SlotInMemory(tp, fs, t, c, key, x, maxItems);
    ghost var b, gs := Below(fs, t, c), Replaced(fs, c, x);
    hide *;
    SetItem(slot, slotIdx, x, fs[..c], b, maxItems);
    RebuildRep(fs[..c], Overwritten(b, slotIdx, x), maxItems);
    RebuildRep(gs, t, maxItems);
    FoldInMemory(gs, t, maxItems);
  }

  lemma FoldInMemory(fs: seq<Frame>, t: Tree, maxItems: nat)
    requires RepP(fs, t.node, maxItems) && Rep(t, maxItems) && FootP(fs) !! Foot(t)
    ensures InMemory(fs, t, [], maxItems) && Touched(fs, t, []) == FootP(fs) + Foot(t)
  {
  }

  lemma SlotInMemory(tp: Tree, fs: seq<Frame>, t: Tree, c: nat, key: int, x: Item, maxItems: nat)
    requires Rebuild(fs, t) == tp && Rep(tp, maxItems) && HitAt(fs, c, key)
    ensures c < |fs| && |fs[c].left| < |fs[c].items|
    ensures var b := Below(fs, t, c);
      b.node == fs[c].node && |fs[c].left| < |b.items| && RepP(fs[..c], b.node, maxItems) && Rep(b, maxItems) &&
      FootP(fs[..c]) !! Foot(b) && FootP(fs[..c]) + Foot(b) == Foot(tp) && b.node.items in Foot(tp) &&
      Rebuild(Replaced(fs, c, x), t) == Rebuild(fs[..c], Overwritten(b, |fs[c].left|, x)) &&
      Foot(Overwritten(b, |fs[c].left|, x)) == Foot(b)
  {
    RebuildAt(fs, t, c);
    ReplacedAt(fs, t, c, key, x);
    RebuildRep(fs[..c], Below(fs, t, c), maxItems);
  }

  /** The item is removed from the leaf. */
  method RemoveFromLeaf(node: Node, idx: nat, ghost fs: seq<Frame>, ghost t: Tree, ghost maxItems: nat)
    requires InMemory(fs, t, [], maxItems) && node == t.node && idx < |t.items| && t.kids == [] && |t.items| <= maxItems
    modifies node, node.items
    ensures InMemory(fs, Shrunk(t, idx), [], maxItems) && Touched(fs, Shrunk(t, idx), []) == Touched(fs, t, [])
  {
    FootPAllocated(fs);
    assert Roots(t.kids) == [] && node.children.Length == 0;
    hide RepP, FootP;
    node.RemoveAt(idx);
    assert Rep(Shrunk(t, idx), maxItems);
  }
}
