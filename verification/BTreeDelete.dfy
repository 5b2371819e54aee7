/** Deletion: the way down, the removal at the leaf, and the repair of underfull nodes on the way up. */
module BTreeDelete {
  import opened BTreeNode
  import opened BTreeTree
  import opened BTreePath
  import opened BTreeSearch
  import opened BTreeUnderflow
  import opened BTreeClimb
  import opened BTreeInsertEven
  import opened BTreeWalk
  import opened BTreeInsert
  import opened BTreeSeek
  import opened BTreeTake

  /** The slot of the item found in an inner node, if there is one: it is in frame c. */
  ghost predicate Slotted(fs: seq<Frame>, c: int, slot: Node?, slotIdx: nat, hit: Item, mode: Mode, mode0: Mode) {
    if slot == null then c == -1 && mode == mode0
    else mode == AtMax && mode0 == AtKey && 0 <= c < |fs| &&
         slot == fs[c].node && slotIdx == |fs[c].left| < |fs[c].items| && hit == fs[c].items[slotIdx]
  }

  lemma SlotDown(fs: seq<Frame>, t: Tree, idx: nat, c: int, slot: Node?, slotIdx: nat, hit: Item, mode: Mode, mode0: Mode)
    requires Slotted(fs, c, slot, slotIdx, hit, mode, mode0) && idx < |t.kids|
    ensures Slotted(Deeper(fs, t, idx), c, slot, slotIdx, hit, mode, mode0)
  {
  }

  lemma SlotHit(fs: seq<Frame>, t: Tree, idx: nat, c: int, slot: Node?, slotIdx: nat, hit: Item, mode0: Mode)
    requires Slotted(fs, c, slot, slotIdx, hit, AtKey, mode0) && idx < |t.items| && idx < |t.kids|
    ensures Slotted(Deeper(fs, t, idx), |fs|, t.node, idx, t.items[idx], AtMax, mode0)
  {
  }

  lemma SlotModes(fs: seq<Frame>, c: int, slot: Node?, slotIdx: nat, hit: Item, mode: Mode, mode0: Mode)
    requires Slotted(fs, c, slot, slotIdx, hit, mode, mode0)
    ensures Wanted(mode, c) == mode0 && (slot == null <==> c < 0) && (mode == AtKey ==> mode0 == AtKey)
    ensures slot != null ==> 0 <= c < |fs| && slot == fs[c].node && slotIdx == |fs[c].left| < |fs[c].items| && hit == fs[c].items[slotIdx]
  {
  }

  lemma StepHit(fs: seq<Frame>, t: Tree, key: int, c: int, idx: nat)
    requires idx < |t.items| && t.items[idx].key == key
    ensures Step(fs, t, AtKey, key, c, idx, AtMax, |fs|)
  {
  }

  /** The state of the loop of the way down. */
  ghost predicate Sought(tp: Tree, fs: seq<Frame>, t: Tree, path: seq<Pos>, mode: Mode, mode0: Mode, key: int, c: int, h: nat,
                         s: seq<Item>, maxItems: nat, slot: Node?, slotIdx: nat, hit: Item)
  {
    Seeking(tp, fs, t, path, mode, key, c, h, s, maxItems) && Slotted(fs, c, slot, slotIdx, hit, mode, mode0)
  }

  lemma SoughtStart(root: Node, tp: Tree, mode: Mode, key: int, height: nat, s: seq<Item>, maxItems: nat, slotIdx: nat, hit: Item)
    requires Loaded(root, height, tp, s, 1, maxItems)
    ensures Sought(tp, [], tp, [], mode, mode, key, -1, height, s, maxItems, null, slotIdx, hit)
    ensures Rep(tp, maxItems) && root == tp.node && 1 <= height
  {
    SeekStart(root, tp, mode, key, height, s, maxItems);
  }

  lemma SoughtNode(tp: Tree, fs: seq<Frame>, t: Tree, path: seq<Pos>, mode: Mode, mode0: Mode, key: int, c: int, h: nat,
                   s: seq<Item>, maxItems: nat, slot: Node?, slotIdx: nat, hit: Item)
    requires Sought(tp, fs, t, path, mode, mode0, key, c, h, s, maxItems, slot, slotIdx, hit) && Rep(tp, maxItems)
    ensures t.node.Fits() && t.node.numItems == |t.items| && t.node.Items() == t.items && Sorted(t.items) && t.items != []
    ensures 1 <= h && (mode == AtKey ==> mode0 == AtKey)
  {
    SeekNode(tp, fs, t, path, h, s, maxItems);
  }

  /** The key was found in an inner node: the subtree in front of it is entered, to its last item. */
  lemma SoughtHit(tp: Tree, fs: seq<Frame>, t: Tree, path: seq<Pos>, mode0: Mode, key: int, c: int, h: nat,
                  s: seq<Item>, maxItems: nat, slot: Node?, slotIdx: nat, hit: Item, idx: nat)
    requires Sought(tp, fs, t, path, AtKey, mode0, key, c, h, s, maxItems, slot, slotIdx, hit) && 1 < h
    requires Rep(tp, maxItems) && idx < |t.items| && t.items[idx].key == key
    ensures idx < |t.kids| && idx < t.node.children.Length && t.node.children[idx] == t.kids[idx].node
    ensures |Deeper(fs, t, idx)| == |fs| + 1 && idx < t.node.items.Length && t.node.items[idx] == t.items[idx]
    ensures Sought(tp, Deeper(fs, t, idx), t.kids[idx], path + [Pos(t.node, idx)], AtMax, mode0, key, |fs|, h - 1, s, maxItems,
                   t.node, idx, t.items[idx])
  {
    hide Placed, Heading;
    SeekPlaced(tp, fs, t, path, AtKey, key, c, h, s, maxItems);
    SeekNode(tp, fs, t, path, h, s, maxItems);
    assert t.node.Items()[idx] == t.items[idx];
    SeekChild(tp, fs, t, path, h, s, maxItems, idx);
    StepHit(fs, t, key, c, idx);
    SeekDown(tp, fs, t, path, AtKey, key, c, h, s, maxItems, idx, AtMax, |fs|);
    SlotHit(fs, t, idx, c, slot, slotIdx, hit, mode0);
  }

  lemma SoughtMiss(tp: Tree, fs: seq<Frame>, t: Tree, path: seq<Pos>, mode: Mode, mode0: Mode, key: int, c: int, h: nat,
                   s: seq<Item>, maxItems: nat, slot: Node?, slotIdx: nat, hit: Item, idx: nat)
    requires Sought(tp, fs, t, path, mode, mode0, key, c, h, s, maxItems, slot, slotIdx, hit) && 1 < h
    requires Rep(tp, maxItems) && idx <= |t.items|
    requires match mode
      case AtKey => InsertionPoint(t.items, key, idx)
      case AtMin => idx == 0
      case AtMax => idx == |t.items|
    ensures idx < |t.kids| && idx < t.node.children.Length && t.node.children[idx] == t.kids[idx].node
    ensures |Deeper(fs, t, idx)| == |fs| + 1
    ensures Sought(tp, Deeper(fs, t, idx), t.kids[idx], path + [Pos(t.node, idx)], mode, mode0, key, c, h - 1, s, maxItems,
                   slot, slotIdx, hit)
  {
    hide Placed, Heading, InsertionPoint;
    SeekPlaced(tp, fs, t, path, mode, key, c, h, s, maxItems);
    SeekChild(tp, fs, t, path, h, s, maxItems, idx);
    StepMiss(fs, t, mode, key, c, idx);
    SeekDown(tp, fs, t, path, mode, key, c, h, s, maxItems, idx, mode, c);
    SlotDown(fs, t, idx, c, slot, slotIdx, hit, mode, mode0);
  }

  /** Where the way down ended: the leaf's item idx is removed, and hit or that item is returned. */
  ghost predicate Sighted(tp: Tree, fs: seq<Frame>, t: Tree, path: seq<Pos>, idx: nat, mode: Mode, key: int, c: int, at: nat,
                          s: seq<Item>, maxItems: nat, slot: Node?, slotIdx: nat, hit: Item)
  {
    Chosen(tp, fs, t, path, idx, key, c, at, s, maxItems) && Asked(s, mode, key, at) && at < |s| && idx < |t.items| &&
    s[at] == (if slot == null then t.items[idx] else hit) && (slot == null <==> c < 0) &&
    (slot != null ==> 0 <= c < |fs| && slot == fs[c].node && slotIdx == |fs[c].left|)
  }

  lemma SoughtLeaf(tp: Tree, fs: seq<Frame>, t: Tree, path: seq<Pos>, mode: Mode, mode0: Mode, key: int, c: int,
                   s: seq<Item>, maxItems: nat, slot: Node?, slotIdx: nat, hit: Item, idx: nat)
    returns (at: nat)
    requires Sought(tp, fs, t, path, mode, mode0, key, c, 1, s, maxItems, slot, slotIdx, hit) && idx < |t.items|
    requires match mode
      case AtKey => t.items[idx].key == key
      case AtMin => idx == 0
      case AtMax => idx == |t.items| - 1
    ensures Sighted(tp, fs, t, path, idx, mode0, key, c, at, s, maxItems, slot, slotIdx, hit)
  {
    hide Seeking, Chosen;
    SlotModes(fs, c, slot, slotIdx, hit, mode, mode0);
    at := AtLeafChosen(tp, fs, t, path, mode, key, c, s, maxItems, idx);
  }

  lemma SoughtAbsent(tp: Tree, fs: seq<Frame>, t: Tree, path: seq<Pos>, mode0: Mode, key: int, c: int,
                     s: seq<Item>, maxItems: nat, slot: Node?, slotIdx: nat, hit: Item, idx: nat)
    requires Sought(tp, fs, t, path, AtKey, mode0, key, c, 1, s, maxItems, slot, slotIdx, hit)
    requires InsertionPoint(t.items, key, idx)
    ensures Absent(s, key) && mode0 == AtKey
  {
    AtLeafAbsent(tp, fs, t, path, key, c, s, maxItems, idx);
  }

  /** Where to go on from one node. */
  method Pick(node: Node, leaf: bool, mode: Mode, key: int, linearSearchThreshold: nat, ghost items: seq<Item>)
    returns (found: bool, idx: nat)
    requires node.Fits() && node.Items() == items && node.numItems == |items| && Sorted(items) && items != []
    ensures found ==> mode == AtKey && idx < |items| && items[idx].key == key
    ensures idx <= |items|
    ensures !found ==> match mode
      case AtKey => InsertionPoint(items, key, idx)
      case AtMin => idx == 0
      case AtMax => idx == if leaf then |items| - 1 else |items|
  {
    found := false;
    match mode {
      case AtKey =>
        found, idx := NodeSearch(node, key, linearSearchThreshold);
      case AtMin =>
        idx := 0;
      case AtMax =>
        idx := if leaf then node.numItems - 1 else node.numItems;
    }
  }

  /** The position the way down ends at. An item found in an inner node is to be returned, and its slot
      is where the item of the leaf will go. */
  method SeekTo(root: Node, height: nat, mode0: Mode, key: int, linearSearchThreshold: nat, maxItems: nat,
                ghost tp: Tree, ghost s: seq<Item>)
    returns (found: bool, node: Node, idx: nat, path: seq<Pos>, slot: Node?, slotIdx: nat, hit: Item,
             ghost fs: seq<Frame>, ghost t: Tree, ghost c: int, ghost at: nat)
    requires Loaded(root, height, tp, s, 1, maxItems) && height <= 32
    ensures !found ==> mode0 == AtKey && Absent(s, key)
    ensures found ==> node == t.node && |fs| + 1 == height
    ensures found ==> Sighted(tp, fs, t, path, idx, mode0, key, c, at, s, maxItems, slot, slotIdx, hit)
  {
    FootAllocated(tp);
    slot, slotIdx, hit := null, 0, Item(0, 0);
    SoughtStart(root, tp, mode0, key, height, s, maxItems, slotIdx, hit);
    hide *;
    node := root;
    fs, t, c, at := [], tp, -1, 0;
    ghost var h := height;
    path := [];
    var mode, depth, leaf := mode0, 1, false;
    while true
      invariant node == t.node && 1 <= depth <= height && |fs| + 1 == depth && h == height - depth + 1
      invariant Sought(tp, fs, t, path, mode, mode0, key, c, h, s, maxItems, slot, slotIdx, hit) && Rep(tp, maxItems)
      decreases height - depth
    {
      leaf := depth == height;
      SoughtNode(tp, fs, t, path, mode, mode0, key, c, h, s, maxItems, slot, slotIdx, hit);
      found, idx := Pick(node, leaf, mode, key, linearSearchThreshold, t.items);
      if mode == AtKey && !found && leaf {
        // at leaf and not found
        SoughtAbsent(tp, fs, t, path, mode0, key, c, s, maxItems, slot, slotIdx, hit, idx);
        return;
      }
      if leaf {
        at := SoughtLeaf(tp, fs, t, path, mode, mode0, key, c, s, maxItems, slot, slotIdx, hit, idx);
        found := true;
        return;
      }
      if found {
        SoughtHit(tp, fs, t, path, mode0, key, c, h, s, maxItems, slot, slotIdx, hit, idx);
        hit := node.items[idx];
        slot, slotIdx := node, idx;
        mode := AtMax;
        c := |fs|;
      } else {
        SoughtMiss(tp, fs, t, path, mode, mode0, key, c, h, s, maxItems, slot, slotIdx, hit, idx);
      }
      assert depth - 1 < 32;  // the path array has 32 entries
      path := path + [Pos(node, idx)];
      depth := depth + 1;
      node := node.children[idx];
      fs, t, h := Deeper(fs, t, idx), t.kids[idx], h - 1;
    }
  }

  /** Removes the chosen item from the leaf, or moves it into the slot of the item asked for. */
  method TakeItem(node: Node, idx: nat, slot: Node?, slotIdx: nat, hit: Item, ghost tp: Tree, ghost fs: seq<Frame>, ghost t: Tree,
                  ghost path: seq<Pos>, ghost mode: Mode, ghost key: int, ghost c: int, ghost at: nat, ghost s: seq<Item>,
                  ghost maxItems: nat)
    returns (item: Item, ghost gs: seq<Frame>, ghost u: Tree)
    requires Sighted(tp, fs, t, path, idx, mode, key, c, at, s, maxItems, slot, slotIdx, hit) && Rep(tp, maxItems)
    requires node == t.node
    modifies Foot(tp)
    ensures at < |s| && Asked(s, mode, key, at) && item == s[at]
    ensures |gs| == |fs| && u.node == node && Rebuild(gs, u).node == tp.node
    ensures Mending(gs, u, path, 1, Removed(s, at), maxItems) && InMemory(gs, u, [], maxItems)
    ensures Touched(gs, u, []) == Foot(tp)
  {
    LeafNode(tp, fs, t, path, idx, key, c, at, s, maxItems);
    ShrunkNode(t, idx);
    SightedParts(tp, fs, t, path, idx, mode, key, c, at, s, maxItems, slot, slotIdx, hit);
    hide *;
    u := Shrunk(t, idx);
    item := node.items[idx];
    if slot != null {
      TakenBelow(tp, fs, t, path, idx, key, c, at, s, maxItems);
      PutInSlot(slot, slotIdx, item, tp, fs, t, c, key, maxItems);
      gs := Replaced(fs, c, item);
      item := hit;
    } else {
      TakenHere(tp, fs, t, path, idx, key, c, at, s, maxItems);
      gs := fs;
    }
    RemoveFromLeaf(node, idx, gs, t, maxItems);
  }

  lemma SightedParts(tp: Tree, fs: seq<Frame>, t: Tree, path: seq<Pos>, idx: nat, mode: Mode, key: int, c: int, at: nat,
                     s: seq<Item>, maxItems: nat, slot: Node?, slotIdx: nat, hit: Item)
    requires Sighted(tp, fs, t, path, idx, mode, key, c, at, s, maxItems, slot, slotIdx, hit)
    ensures Chosen(tp, fs, t, path, idx, key, c, at, s, maxItems) && Asked(s, mode, key, at) && at < |s| && idx < |t.items|
    ensures s[at] == (if slot == null then t.items[idx] else hit) && (slot == null <==> c < 0)
    ensures slot != null ==> 0 <= c < |fs| && slot == fs[c].node && slotIdx == |fs[c].left|
  {
  }

  lemma LeafNode(tp: Tree, fs: seq<Frame>, t: Tree, path: seq<Pos>, idx: nat, key: int, c: int, at: nat, s: seq<Item>,
                 maxItems: nat)
    requires Chosen(tp, fs, t, path, idx, key, c, at, s, maxItems) && Rep(tp, maxItems)
    ensures idx < |t.items| <= maxItems && t.kids == [] && idx < t.node.items.Length && t.node.items[idx] == t.items[idx]
    ensures {t.node, t.node.items} <= Foot(tp) && Rebuild(fs, t) == tp
    ensures InMemory(fs, t, [], maxItems) && Touched(fs, t, []) == Foot(tp)
  {
    WalkMemory(tp, fs, t, maxItems);
    hide RepP, RepK, FootP, Pre, Post, Flat, PathOk, ShapeP, PathMatches, HitAt, RightEdge;
    assert t.node.Items()[idx] == t.items[idx];
  }

  lemma UnfoldInMemory(fs: seq<Frame>, t: Tree, maxItems: nat)
    requires InMemory(fs, t, [], maxItems)
    ensures RepP(fs, t.node, maxItems) && Rep(t, maxItems) && FootP(fs) !! Foot(t)
    ensures Touched(fs, t, []) == FootP(fs) + Foot(t)
  {
  }

  lemma UnderfullParent(f: Frame, t: Tree, h: nat, lo: nat, maxItems: nat)
    requires ShapeF(f, h, lo, maxItems) && 1 <= lo && 2 <= maxItems
    requires Shape(t, h, maxItems / 2 - 1, maxItems) && |t.items| < maxItems / 2
    ensures Underfull(Plug(f, t), |f.left|, h, maxItems)
  {
    var p := Plug(f, t);
    assert p.kids[|f.left|] == t;
  }

  /** The parent of the node in hand, before the repair. */
  lemma MendParts(fs: seq<Frame>, t: Tree, path: seq<Pos>, h: nat, target: seq<Item>, maxItems: nat)
    requires fs != [] && Mending(fs, t, path, h, target, maxItems) && InMemory(fs, t, [], maxItems)
    requires |t.items| < maxItems / 2
    ensures var p := Plug(Last(fs), t);
      Rep(p, maxItems) && RepP(Init(fs), p.node, maxItems) && FootP(Init(fs)) !! Foot(p) &&
      FootP(Init(fs)) + Foot(p) == Touched(fs, t, []) && Underfull(p, |Last(fs).left|, h, maxItems)
  {
    PlugRep(Last(fs), t, maxItems);
    UnfoldInMemory(fs, t, maxItems);
    UnderfullParent(Last(fs), t, h, RootMin(|fs| - 1, maxItems), maxItems);
    hide Rep, RepF, Foot, FootF, Shape, ShapeF, Flat, Pre, Post, PathOk, PathMatches, Touched, Plug, Underfull;
  }

  /** The repaired parent takes the place of the old one. */
  lemma RepairedFlat(fs: seq<Frame>, t: Tree, h: nat, target: seq<Item>, maxItems: nat, q: Tree)
    requires fs != [] && PathOk(fs) && Pre(fs) + Flat(t) + Post(fs) == target && Repaired(Plug(Last(fs), t), q, h, maxItems)
    ensures PathOk(Init(fs)) && Pre(Init(fs)) + Flat(q) + Post(Init(fs)) == target
  {
    var init, f := Init(fs), Last(fs);
    PathParts(fs);
    PlugFlat(f, t);
    hide Flat, Pre, Post, PathOk, FramePre, FramePost, Shape;
    Outward(Pre(init), FramePre(f), Flat(t), FramePost(f), Post(init));
  }

  lemma RepairedShape(fs: seq<Frame>, t: Tree, h: nat, maxItems: nat, q: Tree)
    requires 2 <= maxItems && fs != [] && ShapeP(fs, h, maxItems) && Repaired(Plug(Last(fs), t), q, h, maxItems)
    ensures ShapeP(Init(fs), h + 1, maxItems) && Shape(q, h + 1, RootMin(|Init(fs)|, maxItems) - 1, maxItems)
  {
    hide Flat, FootK, Foot, Shape;
    LessShape(q, h + 1, |Last(fs).items| - 1, RootMin(|fs| - 1, maxItems) - 1, maxItems);
  }

  lemma MendUp(fs: seq<Frame>, t: Tree, path: seq<Pos>, h: nat, target: seq<Item>, maxItems: nat, q: Tree)
    requires fs != [] && Mending(fs, t, path, h, target, maxItems) && Repaired(Plug(Last(fs), t), q, h, maxItems)
    ensures Mending(Init(fs), q, path, h + 1, target, maxItems)
    ensures Rebuild(Init(fs), q).node == Rebuild(fs, t).node
  {
    RepairedNode(Plug(Last(fs), t), q, h, maxItems);
    RebuildNode(Init(fs), q, Plug(Last(fs), t));
    hide Repaired, Flat, Pre, Post, PathMatches, PathOk, Shape, ShapeP;
    RepairedFlat(fs, t, h, target, maxItems, q);
    RepairedShape(fs, t, h, maxItems, q);
    MatchesInit(path, fs);
  }

  lemma LessShape(t: Tree, h: nat, lo: nat, lo1: nat, maxItems: nat)
    requires Shape(t, h, lo, maxItems) && lo1 <= lo
    ensures Shape(t, h, lo1, maxItems)
  {
  }

  lemma Outward<T>(a: seq<T>, x: seq<T>, y: seq<T>, z: seq<T>, b: seq<T>)
    ensures (a + x) + y + (z + b) == a + (x + y + z) + b
  {
  }

  lemma MatchesInit(path: seq<Pos>, fs: seq<Frame>)
    requires fs != [] && PathMatches(path, fs)
    ensures PathMatches(path, Init(fs)) && |fs| <= |path|
    ensures path[|fs| - 1] == Pos(Last(fs).node, |Last(fs).left|)
  {
  }

  /** One round of the way up. */
  method MendOne(node: Node, idx: nat, leaf: bool, maxItems: nat, ghost fs: seq<Frame>, ghost t: Tree, ghost path: seq<Pos>,
                 ghost h: nat, ghost target: seq<Item>)
    returns (ghost q: Tree)
    requires fs != [] && Mending(fs, t, path, h, target, maxItems) && InMemory(fs, t, [], maxItems)
    requires |t.items| < maxItems / 2 && (leaf <==> h == 1)
    requires node == Last(fs).node && idx == |Last(fs).left|
    modifies Touched(fs, t, [])
    ensures q.node == node && Rebuild(Init(fs), q).node == Rebuild(fs, t).node
    ensures Mending(Init(fs), q, path, h + 1, target, maxItems) && InMemory(Init(fs), q, [], maxItems)
    ensures Touched(Init(fs), q, []) <= Touched(fs, t, [])
  {
    ghost var p := Plug(Last(fs), t);
    MendParts(fs, t, path, h, target, maxItems);
    FootPAllocated(Init(fs));
    hide *;
    PlugNode(Last(fs), t);
    q := RepairChild(node, idx, leaf, maxItems, p, h);
    RepairedNode(p, q, h, maxItems);
    MendUp(fs, t, path, h, target, maxItems, q);
    FoldInMemory(Init(fs), q, maxItems);
  }

  lemma RepairedNode(p: Tree, q: Tree, h: nat, maxItems: nat)
    requires Repaired(p, q, h, maxItems)
    ensures q.node == p.node && Foot(q) <= Foot(p)
  {
  }

  /** The node in hand. */
  lemma MendNode(fs: seq<Frame>, t: Tree, path: seq<Pos>, h: nat, target: seq<Item>, maxItems: nat)
    requires Mending(fs, t, path, h, target, maxItems) && InMemory(fs, t, [], maxItems)
    ensures t.node.numItems == |t.items| && PathMatches(path, fs) && 2 <= maxItems && 1 <= h
  {
  }

  lemma FullShape(t: Tree, h: nat, lo: nat, maxItems: nat)
    requires Shape(t, h, lo, maxItems) && |t.items| >= maxItems / 2
    ensures Shape(t, h, maxItems / 2, maxItems)
  {
  }

  /** A node with enough items ends the way up. */
  lemma MendDone(fs: seq<Frame>, t: Tree, path: seq<Pos>, h: nat, target: seq<Item>, maxItems: nat)
    requires Mending(fs, t, path, h, target, maxItems) && InMemory(fs, t, [], maxItems)
    requires fs != [] ==> |t.items| >= maxItems / 2
    ensures Rep(Rebuild(fs, t), maxItems) && Foot(Rebuild(fs, t)) == Touched(fs, t, [])
    ensures Flat(Rebuild(fs, t)) == target
    ensures Shape(Rebuild(fs, t), h + |fs|, if fs == [] then 0 else 1, maxItems)
  {
    UnfoldInMemory(fs, t, maxItems);
    RebuildRep(fs, t, maxItems);
    if fs != [] {
      FullShape(t, h, RootMin(|fs|, maxItems) - 1, maxItems);
      RebuildShape(fs, t, h, maxItems);
    }
    RebuildFlat(fs, t);
    hide Rep, Foot, Shape, ShapeP, Flat, Pre, Post, PathMatches, Touched;
  }

  /** The way up: repairs underfull nodes until a node has enough items or the root is reached. */
  method Mend(root: Node, node0: Node, path: seq<Pos>, depth0: nat, maxItems: nat, ghost fs0: seq<Frame>, ghost t0: Tree,
              ghost target: seq<Item>, ghost mem: set<object>)
    returns (done: bool, ghost q: Tree)
    requires Mending(fs0, t0, path, 1, target, maxItems) && InMemory(fs0, t0, [], maxItems)
    requires node0 == t0.node && |fs0| + 1 == depth0 && Rebuild(fs0, t0).node == root && mem == Touched(fs0, t0, [])
    modifies mem
    ensures q.node == root && Rep(q, maxItems) && Foot(q) <= mem && Flat(q) == target
    ensures Shape(q, depth0, if done then 1 else 0, maxItems)
  {
    hide *;
    var node, depth, leaf := node0, depth0 - 1, true;
    ghost var fs, t, h := fs0, t0, 1;
    while depth > 0
      invariant node == t.node && |fs| == depth && h + |fs| == depth0 && (leaf <==> h == 1)
      invariant Mending(fs, t, path, h, target, maxItems) && InMemory(fs, t, [], maxItems)
      invariant Rebuild(fs, t).node == root && Touched(fs, t, []) <= mem
    {
      MendNode(fs, t, path, h, target, maxItems);
      if node.numItems >= maxItems / 2 {
        MendDone(fs, t, path, h, target, maxItems);
        return true, Rebuild(fs, t);
      }
      MatchesInit(path, fs);
      node := path[depth - 1].node;
      var idx := path[depth - 1].idx;
      q := MendOne(node, idx, leaf, maxItems, fs, t, path, h, target);
      leaf := false;
      depth := depth - 1;
      InitLength(fs);
      fs, t, h := Init(fs), q, h + 1;
    }
    MendDone(fs, t, path, h, target, maxItems);
    done, q := false, Rebuild(fs, t);
  }

  /** What deletion did: one item less, or nothing if there was no such item. */
  ghost predicate DeletionDone(s: seq<Item>, mode: Mode, key: int, deleted: bool, item: Item, at: nat, s1: seq<Item>) {
    if deleted then Asked(s, mode, key, at) && item == s[at] && s1 == Removed(s, at)
    else s1 == s && if mode == AtKey then Absent(s, key) else s == []
  }

  ghost function Items(top: seq<Tree>): seq<Item> {
    if top == [] then [] else Flat(top[0])
  }

  /** The root and height of a tree, which may be empty. */
  ghost predicate Planted(root: Node?, height: nat, top: seq<Tree>, maxItems: nat)
    reads FootK(top)
  {
    if height == 0 then root == null && top == []
    else |top| == 1 && root == top[0].node && Rep(top[0], maxItems) && Shape(top[0], height, 1, maxItems)
  }

  lemma PlantedOne(q: Tree, height: nat, maxItems: nat)
    requires Rep(q, maxItems) && Shape(q, height, 1, maxItems)
    ensures Planted(q.node, height, [q], maxItems) && FootK([q]) == Foot(q) && Items([q]) == Flat(q)
  {
    RepOne(q, maxItems);
  }

  lemma OneLevelLess(q: Tree, height: nat, maxItems: nat)
    requires Rep(q, maxItems) && Shape(q, height, 0, maxItems) && q.items == [] && 2 <= maxItems
    ensures height == 1 ==> Flat(q) == []
    ensures height > 1 ==> |q.kids| == 1 && q.node.children.Length > 0 && q.node.children[0] == q.kids[0].node
    ensures height > 1 ==> var k := q.kids[0];
      Rep(k, maxItems) && Shape(k, height - 1, 1, maxItems) && Flat(k) == Flat(q) && Foot(k) <= Foot(q)
    ensures 1 <= height
  {
    if height > 1 {
      KidInMemory(q, 0, maxItems);
    }
  }

  lemma NothingPlanted(maxItems: nat)
    ensures Planted(null, 0, [], maxItems) && FootK([]) == {} && Items([]) == []
  {
  }

  lemma RootHasItems(q: Tree, height: nat, done: bool, maxItems: nat)
    requires Rep(q, maxItems) && Shape(q, height, if done then 1 else 0, maxItems)
    ensures q.node.numItems == |q.items| && (q.items != [] ==> Shape(q, height, 1, maxItems))
    ensures done ==> q.items != []
  {
  }

  /** A root without items is dropped. */
  method ShrinkRoot(root: Node, height: nat, ghost q: Tree, ghost maxItems: nat)
    returns (newRoot: Node?, newHeight: nat, ghost top: seq<Tree>)
    requires q.node == root && Rep(q, maxItems) && Shape(q, height, 0, maxItems) && 2 <= maxItems
    ensures Planted(newRoot, newHeight, top, maxItems) && FootK(top) <= Foot(q) && Items(top) == Flat(q)
  {
    RootHasItems(q, height, false, maxItems);
    if root.numItems == 0 {
      OneLevelLess(q, height, maxItems);
      hide *;
      newRoot := null;
      newHeight := height - 1;
      if height > 1 {
        newRoot := root.children[0];
        top := [q.kids[0]];
        PlantedOne(q.kids[0], newHeight, maxItems);
      } else {
        top := [];
        NothingPlanted(maxItems);
      }
    } else {
      newRoot, newHeight, top := root, height, [q];
      hide *;
      PlantedOne(q, height, maxItems);
    }
  }

  lemma FoldDeleted(s: seq<Item>, mode: Mode, key: int, item: Item, at: nat)
    requires Asked(s, mode, key, at) && item == s[at]
    ensures at < |s| && DeletionDone(s, mode, key, true, item, at, Removed(s, at))
  {
  }

  lemma FoldAbsent(s: seq<Item>, mode: Mode, key: int, item: Item, at: nat)
    requires mode == AtKey && Absent(s, key)
    ensures DeletionDone(s, mode, key, false, item, at, s)
  {
  }

  lemma FoldEmpty(mode: Mode, key: int, item: Item, at: nat)
    ensures DeletionDone([], mode, key, false, item, at, [])
  {
  }

  lemma LoadedShape(root: Node, height: nat, tp: Tree, s: seq<Item>, maxItems: nat)
    requires Loaded(root, height, tp, s, 1, maxItems)
    ensures Rep(tp, maxItems) && root == tp.node && Shape(tp, height, 1, maxItems) && Flat(tp) == s && 2 <= maxItems
  {
  }

  method DeleteItem(root: Node, height: nat, mode: Mode, key: int, linearSearchThreshold: nat, maxItems: nat,
                    ghost tp: Tree, ghost s: seq<Item>)
    returns (deleted: bool, item: Item, newRoot: Node?, newHeight: nat, ghost top: seq<Tree>, ghost at: nat)
    requires Loaded(root, height, tp, s, 1, maxItems) && height <= 32
    modifies Foot(tp)
    ensures Planted(newRoot, newHeight, top, maxItems) && FootK(top) <= Foot(tp)
    ensures DeletionDone(s, mode, key, deleted, item, at, Items(top))
  {
    FootAllocated(tp);
    hide *;
    LoadedShape(root, height, tp, s, maxItems);
    var found, node, idx, path, slot, slotIdx, hit;
    ghost var fs, t, c;
    found, node, idx, path, slot, slotIdx, hit, fs, t, c, at := SeekTo(root, height, mode, key, linearSearchThreshold, maxItems, tp, s);
    if !found {
      newRoot, newHeight, top, item, deleted := root, height, [tp], hit, false;
      PlantedOne(tp, height, maxItems);
      FoldAbsent(s, mode, key, item, at);
      return;
    }
    ghost var gs, u;
    item, gs, u := TakeItem(node, idx, slot, slotIdx, hit, tp, fs, t, path, mode, key, c, at, s, maxItems);
    ghost var target := Removed(s, at);
    deleted := true;
    FoldDeleted(s, mode, key, item, at);
    var done;
    ghost var q;
    done, q := Mend(root, node, path, height, maxItems, gs, u, target, Foot(tp));
    if done {
      newRoot, newHeight, top := root, height, [q];
      PlantedOne(q, height, maxItems);
    } else {
      newRoot, newHeight, top := ShrinkRoot(root, height, q, maxItems);
    }
  }
}
