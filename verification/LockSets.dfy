/** Counting threads, and changing what one thread does. */
module LockSets {

  lemma CountOne(a: set<nat>, b: set<nat>, t: nat)
    requires forall u :: u != t ==> (u in a <==> u in b)
    ensures |b| == |a| + (if t in b then 1 else 0) - (if t in a then 1 else 0)
  {
    assert a - {t} == b - {t};
    assert |a - {t}| == |a| - if t in a then 1 else 0;
    assert |b - {t}| == |b| - if t in b then 1 else 0;
  }

  lemma CountSome(a: set<nat>, t: nat)
    requires t in a
    ensures |a| >= 1
  {
    assert |a - {t}| == |a| - 1;
  }

  lemma OnlyOne(a: set<nat>, t: nat, u: nat)
    requires |a| <= 1 && t in a && u in a
    ensures t == u
  {
    if t != u {
      assert |a - {t}| == |a| - 1;
      CountSome(a - {t}, u);
    }
  }

  lemma CountSub(a: set<nat>, b: set<nat>)
    requires a <= b
    ensures |a| <= |b|
  {
    assert b == a + (b - a);
  }
}
