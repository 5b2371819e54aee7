/** The word that a node keeps its parent and its balance or colour in. Nodes of the AVL tree are aligned to four
    bytes, those of the red-black tree to two. */
module BinaryPacked {
  type Word = bv64

  // ---------------------------------------------------------------- parent and balance

  function Parent4(w: Word): Word {
    w & !3
  }

  /** What the two low bits hold. */
  function Stored(w: Word): Word {
    w & 3
  }

  function SetParent4(w: Word, p: Word): Word {
    (w & 3) | p
  }

  function SetStored(w: Word, c: Word): Word {
    (w & !3) | c
  }

  /** The two bits as a number, less one. */
  function Decode(bits: Word): int {
    if bits == 0 then -1 else if bits == 1 then 0 else if bits == 2 then 1 else 2
  }

  function Code(balance: int): Word
    requires -1 <= balance <= 1
  {
    if balance == -1 then 0 else if balance == 0 then 1 else 2
  }

  function Balance(w: Word): int {
    Decode(Stored(w))
  }

  function SetBalance(w: Word, balance: int): Word
    requires -1 <= balance <= 1
  {
    SetStored(w, Code(balance))
  }

  lemma ParentSet4(w: Word, p: Word)
    requires p & 3 == 0
    ensures Parent4(SetParent4(w, p)) == p
  {
  }

  lemma StoredKept4(w: Word, p: Word)
    requires p & 3 == 0
    ensures Stored(SetParent4(w, p)) == Stored(w)
  {
  }

  lemma ParentKept4(w: Word, c: Word)
    requires c <= 2
    ensures Parent4(SetStored(w, c)) == Parent4(w)
  {
  }

  lemma StoredSet4(w: Word, c: Word)
    requires c <= 2
    ensures Stored(SetStored(w, c)) == c
  {
  }

  lemma Decoded(balance: int)
    requires -1 <= balance <= 1
    ensures Decode(Code(balance)) == balance && Code(balance) <= 2
  {
  }

  /** Setting the parent keeps the balance. */
  lemma AvlParent(w: Word, p: Word)
    requires p & 3 == 0
    ensures Parent4(SetParent4(w, p)) == p && Balance(SetParent4(w, p)) == Balance(w)
  {
    ParentSet4(w, p);
    StoredKept4(w, p);
    hide Parent4, SetParent4, Stored, Decode;
  }

  /** Setting the balance keeps the parent. */
  lemma AvlBalance(w: Word, balance: int)
    requires -1 <= balance <= 1
    ensures Parent4(SetBalance(w, balance)) == Parent4(w) && Balance(SetBalance(w, balance)) == balance
  {
    Decoded(balance);
    ParentKept4(w, Code(balance));
    StoredSet4(w, Code(balance));
    hide Parent4, SetStored, Stored, Decode, Code;
  }

  // ---------------------------------------------------------------- parent and colour

  function Parent2(w: Word): Word {
    w & !1
  }

  function Color(w: Word): Word {
    w & 1
  }

  function SetParent2(w: Word, p: Word): Word {
    Color(w) | p
  }

  function SetColor(w: Word, color: Word): Word {
    Parent2(w) | color
  }

  lemma ParentSet2(w: Word, p: Word)
    requires p & 1 == 0
    ensures Parent2(SetParent2(w, p)) == p
  {
  }

  lemma ColorKept2(w: Word, p: Word)
    requires p & 1 == 0
    ensures Color(SetParent2(w, p)) == Color(w)
  {
  }

  lemma ParentKept2(w: Word, color: Word)
    requires color <= 1
    ensures Parent2(SetColor(w, color)) == Parent2(w)
  {
  }

  lemma ColorSet2(w: Word, color: Word)
    requires color <= 1
    ensures Color(SetColor(w, color)) == color
  {
  }

  /** Setting one of parent and colour keeps the other one. */
  lemma RbWord(w: Word, p: Word, color: Word)
    requires p & 1 == 0 && color <= 1
    ensures Parent2(SetParent2(w, p)) == p && Color(SetParent2(w, p)) == Color(w)
    ensures Parent2(SetColor(w, color)) == Parent2(w) && Color(SetColor(w, color)) == color
  {
    ParentSet2(w, p);
    ColorKept2(w, p);
    ParentKept2(w, color);
    ColorSet2(w, color);
    hide *;
  }

  /** The word of a red node, for which 0 is stored, is the parent itself. */
  lemma RedParent(w: Word)
    requires Color(w) == 0
    ensures w == Parent2(w)
  {
  }
}
