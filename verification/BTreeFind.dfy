/** Lookups: by key, and of the first and the last item. */
module BTreeFind {
  import opened BTreeNode
  import opened BTreeTree
  import opened BTreePath
  import opened BTreeSearch
  import opened BTreeInsert
  import opened BTreeSeek

  lemma FoundInside(tp: Tree, fs: seq<Frame>, t: Tree, path: seq<Pos>, h: nat, s: seq<Item>, maxItems: nat, idx: nat)
    returns (at: nat)
    requires Placed(tp, fs, t, path, h, s, maxItems) && idx < |t.items|
    ensures at < |s| && s[at] == t.items[idx]
  {
    at := Position(fs, t, idx, t.items[idx], s);
  }

  /** Key lookup finds the item with the key exactly if there is one. */
  method FindItem(root: Node, height: nat, key: int, linearSearchThreshold: nat, maxItems: nat, ghost tp: Tree, ghost s: seq<Item>)
    returns (found: bool, item: Item, ghost at: nat)
    requires Loaded(root, height, tp, s, 1, maxItems)
    ensures found ==> at < |s| && s[at] == item && item.key == key
    ensures !found ==> Absent(s, key)
  {
    FootAllocated(tp);
    SeekStart(root, tp, AtKey, key, height, s, maxItems);
    hide *;
    item, at := Item(0, 0), 0;
    var node, depth, idx := root, 1, 0;
    ghost var fs, t, path, h := [], tp, [], height;
    while true
      invariant node == t.node && 1 <= depth <= height && h == height - depth + 1
      invariant Seeking(tp, fs, t, path, AtKey, key, -1, h, s, maxItems) && Rep(tp, maxItems)
      decreases height - depth
    {
      SeekPlaced(tp, fs, t, path, AtKey, key, -1, h, s, maxItems);
      SeekNode(tp, fs, t, path, h, s, maxItems);
      found, idx := NodeSearch(node, key, linearSearchThreshold);
      if found {
        at := FoundInside(tp, fs, t, path, h, s, maxItems, idx);
        item := node.items[idx];
        return;
      }
      if depth == height {
        AtLeafAbsent(tp, fs, t, path, key, -1, s, maxItems, idx);
        break;
      }
      depth := depth + 1;
      StepMiss(fs, t, AtKey, key, -1, idx);
      SeekChild(tp, fs, t, path, h, s, maxItems, idx);
      SeekDown(tp, fs, t, path, AtKey, key, -1, h, s, maxItems, idx, AtKey, -1);
      path := path + [Pos(node, idx)];
      node := node.children[idx];
      fs, t, h := Deeper(fs, t, idx), t.kids[idx], h - 1;
    }
    found := false;
  }

  lemma EdgeStep(fs: seq<Frame>, t: Tree, leftmost: bool, key: int, idx: nat)
    requires idx == if leftmost then 0 else |t.items|
    ensures var mode := if leftmost then AtMin else AtMax;
      Step(fs, t, mode, key, -1, idx, mode, -1)
  {
  }

  lemma EdgeAsked(s: seq<Item>, leftmost: bool, key: int, at: nat)
    requires Asked(s, Wanted(if leftmost then AtMin else AtMax, -1), key, at)
    ensures at < |s| && at == if leftmost then 0 else |s| - 1
  {
  }

  /** The first item or the last one. */
  method LeftmostRightmost(root: Node, height: nat, leftmost: bool, ghost maxItems: nat, ghost tp: Tree, ghost s: seq<Item>)
    returns (item: Item)
    requires Loaded(root, height, tp, s, 1, maxItems)
    ensures s != [] && item == s[if leftmost then 0 else |s| - 1]
  {
    ghost var mode := if leftmost then AtMin else AtMax;
    SeekStart(root, tp, mode, 0, height, s, maxItems);
    hide *;
    var node, depth := root, 0;
    ghost var fs, t, path, h := [], tp, [], height;
    while true
      invariant node == t.node && 0 <= depth < height && h == height - depth
      invariant Seeking(tp, fs, t, path, mode, 0, -1, h, s, maxItems) && Rep(tp, maxItems)
      decreases height - depth
    {
      SeekPlaced(tp, fs, t, path, mode, 0, -1, h, s, maxItems);
      SeekNode(tp, fs, t, path, h, s, maxItems);
      depth := depth + 1;
      if depth == height {
        break;
      }
      var idx := if leftmost then 0 else node.numItems;
      EdgeStep(fs, t, leftmost, 0, idx);
      SeekChild(tp, fs, t, path, h, s, maxItems, idx);
      SeekDown(tp, fs, t, path, mode, 0, -1, h, s, maxItems, idx, mode, -1);
      path := path + [Pos(node, idx)];
      node := node.children[idx];
      fs, t, h := Deeper(fs, t, idx), t.kids[idx], h - 1;
    }
    var idx := if leftmost then 0 else node.numItems - 1;
    ghost var at := AtLeafChosen(tp, fs, t, path, mode, 0, -1, s, maxItems, idx);
    EdgeAsked(s, leftmost, 0, at);
    item := node.items[idx];
  }
}
