/** AVL rotations: pointer updates and branch-free balance arithmetic. */
module AvlRotate {
  import opened BinaryTree

  function Max(a: int, b: int): int {
    if a >= b then a else b
  }

  ghost function Height(t: Tree): (h: nat)
    ensures h == 0 <==> t == Leaf
  {
    if t == Leaf then 0 else 1 + Max(Height(t.left), Height(t.right))
  }

  /** Every stored balance is the difference of heights, and at most one either way. */
  ghost predicate Avl(t: Tree) {
    t == Leaf || (t.tag == Height(t.right) - Height(t.left) && -1 <= t.tag <= 1 && Avl(t.left) && Avl(t.right))
  }

  /** The balance that leans in a direction: -1 to the left, 1 to the right. */
  function D2B(dir: nat): int
    requires dir <= 1
  {
    2 * dir - 1
  }

  function B2D(balance: int): nat
    requires balance == -1 || balance == 1
  {
    (balance + 1) / 2
  }

  // Bit operations of two's complement integers, for numbers of either sign.

  function LowBit(x: int): int {
    x % 2
  }

  function Complement(x: int): int {
    -x - 1
  }

  function ShiftRight(x: int): int {
    x / 2
  }

  /** The lowest bit of x | y */
  function LowBitOfOr(x: int, y: int): int {
    if LowBit(x) == 1 || LowBit(y) == 1 then 1 else 0
  }

  /** The node's new balance after a single rotation to side dir, when its child had this balance. */
  function SingleBalance(childBalance: int, dir: nat): int
    requires dir <= 1
  {
    LowBit(Complement(childBalance)) * D2B(1 - dir)
  }

  /** The new balances of node and child after a double rotation to side dir, when the inner node had this balance. */
  function DoubleBalances(leftBalance: int, dir: nat): (int, int)
    requires dir <= 1
  {
    var rightDir := 1 - dir;
    var d0 := leftBalance - D2B(rightDir);
    var d := LowBitOfOr(d0, ShiftRight(d0));
    var x := 2 * (d * rightDir + (1 - d) * dir) - 1;
    var b := LowBit(leftBalance);
    (b * ((1 - d) * x), b * (d * x))
  }

  lemma SingleBalanceCases(balance: int, dir: nat)
    requires dir <= 1 && -1 <= balance <= 1
    ensures SingleBalance(balance, dir) == if balance == 0 then D2B(1 - dir) else 0
  {
  }

  lemma DoubleBalanceCases(balance: int, dir: nat)
    requires dir <= 1 && -1 <= balance <= 1
    ensures DoubleBalances(balance, dir) ==
      if balance == 0 then (0, 0) else if balance == D2B(1 - dir) then (D2B(dir), 0) else (0, D2B(1 - dir))
  {
  }

  /** The balance of a fork with children of these heights in direction dir and in the other one. */
  ghost function Lean(dir: nat, a: int, b: int): int {
    if dir == 0 then b - a else a - b
  }

  lemma HeightMk(dir: nat, a: Tree, n: Node, tag: int, b: Tree)
    ensures Height(Mk(dir, a, n, tag, b)) == 1 + Max(Height(a), Height(b))
    ensures Avl(Mk(dir, a, n, tag, b)) <==> tag == Lean(dir, Height(a), Height(b)) && -1 <= tag <= 1 && Avl(a) && Avl(b)
  {
  }

  /** node with inner child a and outer child (b child c) becomes child with (a node b) and c. */
  ghost function Single(dir: nat, a: Tree, node: Node, b: Tree, child: Node, ctag: int, c: Tree): Tree
    requires dir <= 1
  {
    var balance := SingleBalance(ctag, dir);
    Mk(dir, Mk(dir, a, node, balance, b), child, -balance, c)
  }

  ghost function Double(dir: nat, a: Tree, node: Node, b: Tree, left: Node, ltag: int, c: Tree, child: Node, d: Tree): Tree
    requires dir <= 1
  {
    var bs := DoubleBalances(ltag, dir);
    Mk(dir, Mk(dir, a, node, bs.0, b), left, 0, Mk(dir, c, child, bs.1, d))
  }

  lemma SingleAvl(dir: nat, a: Tree, node: Node, b: Tree, child: Node, ctag: int, c: Tree)
    requires dir <= 1 && Avl(a) && Avl(Mk(dir, b, child, ctag, c)) && ctag != D2B(dir)
    requires Height(Mk(dir, b, child, ctag, c)) == Height(a) + 2
    ensures Avl(Single(dir, a, node, b, child, ctag, c))
    ensures Height(Single(dir, a, node, b, child, ctag, c)) == Height(a) + if ctag == 0 then 3 else 2
  {
    HeightMk(dir, b, child, ctag, c);
    SingleBalanceCases(ctag, dir);
    var balance := SingleBalance(ctag, dir);
    HeightMk(dir, a, node, balance, b);
    HeightMk(dir, Mk(dir, a, node, balance, b), child, -balance, c);
    hide Avl, Height, Mk, SingleBalance;
  }

  lemma DoubleAvl(dir: nat, a: Tree, node: Node, b: Tree, left: Node, ltag: int, c: Tree, child: Node, ctag: int, d: Tree)
    requires dir <= 1 && Avl(a) && ctag == D2B(dir)
    requires var s := Mk(dir, Mk(dir, b, left, ltag, c), child, ctag, d); Avl(s) && Height(s) == Height(a) + 2
    ensures Avl(Double(dir, a, node, b, left, ltag, c, child, d))
    ensures Height(Double(dir, a, node, b, left, ltag, c, child, d)) == Height(a) + 2
  {
    HeightMk(dir, Mk(dir, b, left, ltag, c), child, ctag, d);
    HeightMk(dir, b, left, ltag, c);
    var bs := DoubleBalances(ltag, dir);
    DoubleIs(dir, a, node, b, left, ltag, c, child, d);
    hide Avl, Height, Mk, DoubleBalances, Double;
    HeightMk(dir, a, node, bs.0, b);
    HeightMk(dir, c, child, bs.1, d);
    HeightMk(dir, Mk(dir, a, node, bs.0, b), left, 0, Mk(dir, c, child, bs.1, d));
    LeanCases(dir, Height(a), Height(b), Height(c), Height(d), ltag, ctag, bs.0, bs.1);
    hide Lean, Max, D2B;
  }

  lemma DoubleIs(dir: nat, a: Tree, node: Node, b: Tree, left: Node, ltag: int, c: Tree, child: Node, d: Tree)
    requires dir <= 1
    ensures var bs := DoubleBalances(ltag, dir);
      Double(dir, a, node, b, left, ltag, c, child, d) == Mk(dir, Mk(dir, a, node, bs.0, b), left, 0, Mk(dir, c, child, bs.1, d))
  {
  }

  /** The balances of a double rotation are the differences of heights. */
  lemma LeanCases(dir: nat, a: nat, b: nat, c: nat, d: nat, ltag: int, ctag: int, nodeBalance: int, childBalance: int)
    requires dir <= 1 && ctag == D2B(dir) && ltag == Lean(dir, b, c) && -1 <= ltag <= 1
    requires ctag == Lean(dir, 1 + Max(b, c), d) && 1 + Max(1 + Max(b, c), d) == a + 2
    requires (nodeBalance, childBalance) == DoubleBalances(ltag, dir)
    ensures nodeBalance == Lean(dir, a, b) && -1 <= nodeBalance <= 1 && Max(a, b) == a
    ensures childBalance == Lean(dir, c, d) && -1 <= childBalance <= 1 && Max(c, d) == a
    ensures Lean(dir, 1 + a, 1 + a) == 0 && 1 + Max(1 + Max(a, b), 1 + Max(c, d)) == a + 2
  {
    DoubleBalanceCases(ltag, dir);
    hide DoubleBalances;
  }

  lemma SingleSame(dir: nat, a: Tree, node: Node, tag: int, b: Tree, child: Node, ctag: int, c: Tree)
    requires dir <= 1
    ensures Same(Mk(dir, a, node, tag, Mk(dir, b, child, ctag, c)), Single(dir, a, node, b, child, ctag, c))
  {
    var balance := SingleBalance(ctag, dir);
    TurnSame(dir, a, node, tag, b, child, ctag, c, balance, -balance);
    hide Same, Mk, SingleBalance;
  }

  lemma DoubleSame(dir: nat, a: Tree, node: Node, tag: int, b: Tree, left: Node, ltag: int, c: Tree, child: Node, ctag: int, d: Tree)
    requires dir <= 1
    ensures Same(Mk(dir, a, node, tag, Mk(dir, Mk(dir, b, left, ltag, c), child, ctag, d)),
                 Double(dir, a, node, b, left, ltag, c, child, d))
  {
    var bs := DoubleBalances(ltag, dir);
    hide Same, Mk, DoubleBalances;
    var s0 := Mk(dir, Mk(dir, b, left, ltag, c), child, ctag, d);
    var s1 := Mk(dir, b, left, ltag, Mk(dir, c, child, bs.1, d));
    TurnSame(dir, b, left, ltag, c, child, bs.1, d, ltag, ctag);
    SameRefl(s0);
    SameTrans(s1, s0, s0);
    SameBelow(dir, a, node, tag, tag, s0, s1);
    TurnSame(dir, a, node, tag, b, left, ltag, Mk(dir, c, child, bs.1, d), bs.0, 0);
    SameTrans(Mk(dir, a, node, tag, s0), Mk(dir, a, node, tag, s1), Double(dir, a, node, b, left, ltag, c, child, d));
  }

  lemma HeightSides(t: Tree, dir: nat)
    requires t.Fork? && dir <= 1
    ensures Height(t) == 1 + Max(Height(Side(t, dir)), Height(Side(t, 1 - dir)))
    ensures Avl(t) <==> t.tag == Lean(dir, Height(Side(t, dir)), Height(Side(t, 1 - dir))) && -1 <= t.tag <= 1 &&
                        Avl(Side(t, dir)) && Avl(Side(t, 1 - dir))
  {
  }
}
