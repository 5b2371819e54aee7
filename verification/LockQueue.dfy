/** The queue spinlock, for any number of queue nodes: every atomic operation is one step. */
module LockQueue {

  datatype Ptr = Null | At(node: nat)

  /** What the owner of a node does next. */
  datatype Pc =
    | Idle                      // exchange of the lock word
    | Marking(pred: nat)        // store of locked
    | Linking(pred: nat)        // store of the predecessor's next
    | Spinning                  // load of locked
    | Critical                  // load of next, in unlock
    | Closing                   // compare-and-swap of the lock word
    | Awaiting                  // load of next, until there is one
    | Handing(succ: nat)        // store of the successor's locked
    | Clearing                  // store of next

  datatype QNode = QNode(pc: Pc, next: Ptr, locked: bool)

  /** The lock word and the nodes; queue, arrived and granted only keep record: the nodes in the lock in the order
      of their exchanges, all exchanges so far, and all entries so far. */
  datatype State = State(tail: Ptr, nodes: map<nat, QNode>, queue: seq<nat>, arrived: seq<nat>, granted: seq<nat>)

  ghost function Put(s: State, n: nat, q: QNode): State {
    s.(nodes := s.nodes[n := q])
  }

  ghost function Enter(s: State, n: nat): State
    requires n in s.nodes
  {
    Put(s, n, s.nodes[n].(pc := Critical)).(granted := s.granted + [n])
  }

  ghost function Goto(s: State, n: nat, p: Pc): State
    requires n in s.nodes
  {
    Put(s, n, s.nodes[n].(pc := p))
  }

  ghost function Exchanged(s: State, n: nat): State {
    s.(tail := At(n), queue := s.queue + [n], arrived := s.arrived + [n])
  }

  ghost predicate Step(s: State, n: nat, s1: State) {
    n in s.nodes &&
    match s.nodes[n].pc
    case Idle => s1 == if s.tail == Null then Enter(Exchanged(s, n), n) else Goto(Exchanged(s, n), n, Marking(s.tail.node))
    case Marking(pred) => s1 == Put(s, n, s.nodes[n].(locked := true, pc := Linking(pred)))
    case Linking(pred) =>
      pred in s.nodes && s1 == Goto(Put(s, pred, s.nodes[pred].(next := At(n))), n, Spinning)
    case Spinning => s1 == if s.nodes[n].locked then s else Enter(s, n)
    case Critical => s1 == Goto(s, n, if s.nodes[n].next == Null then Closing else Handing(s.nodes[n].next.node))
    case Closing => s1 == if s.tail == At(n) then Goto(s.(tail := Null, queue := []), n, Idle) else Goto(s, n, Awaiting)
    case Awaiting => s1 == if s.nodes[n].next == Null then s else Goto(s, n, Handing(s.nodes[n].next.node))
    case Handing(succ) =>
      succ in s.nodes && s.queue != [] &&
      s1 == Goto(Put(s, succ, s.nodes[succ].(locked := false)), n, Clearing).(queue := s.queue[1..])
    case Clearing => s1 == Put(s, n, s.nodes[n].(next := Null, pc := Idle))
  }

  ghost predicate Start(s: State) {
    s.tail == Null && s.queue == s.arrived == s.granted == [] &&
    forall n :: n in s.nodes ==> s.nodes[n].pc == Idle && s.nodes[n].next == Null
  }

  /** A run of the system; the owner of node who[i] takes step i. */
  ghost predicate Run(run: seq<State>, who: seq<nat>) {
    |run| == |who| + 1 && Start(run[0]) && forall i :: 0 <= i < |who| ==> Step(run[i], who[i], run[i + 1])
  }

  /** In the critical section, or on the way out of it. */
  ghost predicate Inside(p: Pc) {
    p == Critical || p == Closing || p == Awaiting || p.Handing?
  }

  /** Two neighbours in the queue: the link is still to come, or it is there and the second one spins. */
  ghost predicate Follows(s: State, p: nat, n: nat) {
    p in s.nodes && n in s.nodes &&
    if s.nodes[n].pc == Spinning then s.nodes[n].locked && s.nodes[p].next == At(n)
    else (s.nodes[n].pc == Marking(p) || (s.nodes[n].pc == Linking(p) && s.nodes[n].locked)) && s.nodes[p].next == Null
  }

  /** The first one in the queue has the lock or may take it; it hands it over to nobody but the second one. */
  ghost predicate First(s: State) {
    s.queue != [] && s.queue[0] in s.nodes &&
    var q := s.nodes[s.queue[0]];
    (q.pc == Spinning ==> !q.locked) && (q.pc == Spinning || Inside(q.pc)) &&
    (q.pc == Awaiting || q.pc.Handing? ==> |s.queue| > 1) &&
    (q.pc.Handing? ==> q.pc.succ == s.queue[1] && q.next == At(q.pc.succ))
  }

  ghost function Last(s: State): nat
    requires s.queue != []
  {
    s.queue[|s.queue| - 1]
  }

  ghost predicate Distinct(q: seq<nat>) {
    forall i, j :: 0 <= i < j < |q| ==> q[i] != q[j]
  }

  ghost predicate Outside(p: Pc) {
    p == Idle || p == Clearing
  }

  /** Those in the queue that have not entered yet. */
  ghost function Waiting(s: State): seq<nat> {
    if s.queue != [] && s.queue[0] in s.nodes && Inside(s.nodes[s.queue[0]].pc) then s.queue[1..] else s.queue
  }

  ghost predicate Chain(s: State) {
    forall i :: 0 < i < |s.queue| ==> Follows(s, s.queue[i - 1], s.queue[i])
  }

  ghost predicate Others(s: State) {
    forall n :: n in s.nodes ==> (n in s.queue <==> !Outside(s.nodes[n].pc)) && (s.nodes[n].pc == Idle ==> s.nodes[n].next == Null)
  }

  ghost predicate Ends(s: State) {
    if s.queue == [] then s.tail == Null
    else s.tail == At(Last(s)) && First(s) && Last(s) in s.nodes && s.nodes[Last(s)].next == Null
  }

  /** The linked nodes and the links still to come form one queue, in the order of the exchanges. */
  ghost predicate Inv(s: State) {
    Distinct(s.queue) && Chain(s) && Others(s) && Ends(s) && s.arrived == s.granted + Waiting(s)
  }

  lemma Initially(s: State)
    requires Start(s)
    ensures Inv(s)
  {
  }

  lemma InQueue(s: State, n: nat) returns (i: nat)
    requires Inv(s) && n in s.nodes && !Outside(s.nodes[n].pc)
    ensures i < |s.queue| && s.queue[i] == n
    ensures i > 0 ==> Follows(s, s.queue[i - 1], n)
    ensures i == 0 ==> First(s)
    ensures forall j :: 0 <= j < |s.queue| && s.queue[j] == n ==> j == i
  {
    i :| 0 <= i < |s.queue| && s.queue[i] == n;
  }

  /** The nodes of the queue are there. */
  lemma QueueNodes(s: State, i: nat)
    requires Inv(s) && i < |s.queue|
    ensures s.queue[i] in s.nodes && !Outside(s.nodes[s.queue[i]].pc)
  {
    if i > 0 {
      assert Follows(s, s.queue[i - 1], s.queue[i]);
    }
  }

  // ---------------------------------------------------------------- the steps

  lemma FollowsKept(s: State, s1: State, p: nat, m: nat)
    requires Follows(s, p, m) && p in s1.nodes && m in s1.nodes && p in s.nodes && m in s.nodes
    requires s1.nodes[p].next == s.nodes[p].next
    requires s1.nodes[m].pc == s.nodes[m].pc && s1.nodes[m].locked == s.nodes[m].locked
    ensures Follows(s1, p, m)
  {
  }

  lemma FollowsNew(s: State, n: nat, s1: State)
    requires Inv(s) && Step(s, n, s1) && s.nodes[n].pc == Idle && s.queue != []
    ensures Follows(s1, Last(s), n)
  {
    QueueNodes(s, |s.queue| - 1);
  }

  lemma NotQueued(s: State, n: nat, i: nat)
    requires Inv(s) && n in s.nodes && s.nodes[n].pc == Idle && i < |s.queue|
    ensures s.queue[i] != n && s.queue[i] in s.nodes
  {
    QueueNodes(s, i);
  }

  lemma ExchangeNodes(s: State, n: nat, s1: State)
    requires n in s.nodes && Step(s, n, s1) && s.nodes[n].pc == Idle
    ensures s1.queue == s.queue + [n] && forall m :: m in s.nodes && m != n ==> m in s1.nodes && s1.nodes[m] == s.nodes[m]
  {
  }

  lemma ExchangeChain(s: State, n: nat, s1: State)
    requires Inv(s) && Step(s, n, s1) && s.nodes[n].pc == Idle
    ensures Chain(s1)
  {
    assert Chain(s);
    ExchangeNodes(s, n, s1);
    hide Inv, Step, Follows, Distinct;
    forall i | 0 < i < |s1.queue| ensures Follows(s1, s1.queue[i - 1], s1.queue[i]) {
      NotQueued(s, n, i - 1);
      if i < |s.queue| {
        NotQueued(s, n, i);
        FollowsKept(s, s1, s.queue[i - 1], s.queue[i]);
      } else {
        FollowsNew(s, n, s1);
      }
    }
  }

  lemma ExchangeOrder(s: State, n: nat, s1: State)
    requires Inv(s) && Step(s, n, s1) && s.nodes[n].pc == Idle
    ensures s1.arrived == s1.granted + Waiting(s1)
  {
    hide Chain, Follows;
    if s.queue == [] {
      assert s1.queue[1..] == [];
      assert s.arrived == s.granted;
    } else {
      QueueNodes(s, 0);
      assert Waiting(s1) == Waiting(s) + [n];
    }
  }

  lemma ExchangeOthers(s: State, n: nat, s1: State)
    requires Others(s) && n in s.nodes && Step(s, n, s1) && s.nodes[n].pc == Idle
    ensures Others(s1)
  {
  }

  lemma ExchangeEnds(s: State, n: nat, s1: State)
    requires Ends(s) && n in s.nodes && Step(s, n, s1) && s.nodes[n].pc == Idle && s.nodes[n].next == Null
    requires s.queue != [] ==> s.queue[0] != n
    ensures Ends(s1)
  {
  }

  lemma ExchangeDistinct(q: seq<nat>, n: nat)
    requires Distinct(q) && n !in q
    ensures Distinct(q + [n])
  {
  }

  lemma StepExchange(s: State, n: nat, s1: State)
    requires Inv(s) && Step(s, n, s1) && s.nodes[n].pc == Idle
    ensures Inv(s1)
  {
    ExchangeChain(s, n, s1);
    ExchangeOrder(s, n, s1);
    ExchangeOthers(s, n, s1);
    assert n !in s.queue && s.nodes[n].next == Null;
    ExchangeEnds(s, n, s1);
    ExchangeDistinct(s.queue, n);
    ExchangeNodes(s, n, s1);
    hide Chain, Follows, Waiting, Others, Ends, Distinct, Step;
  }

  lemma StepMark(s: State, n: nat, s1: State)
    requires Inv(s) && Step(s, n, s1) && s.nodes[n].pc.Marking?
    ensures Inv(s1)
  {
    var k := InQueue(s, n);
    MarkChain(s, n, s1);
    MarkEnds(s, n, s1);
    hide Chain, Follows, Ends, Waiting;
  }

  lemma MarkChain(s: State, n: nat, s1: State)
    requires Inv(s) && Step(s, n, s1) && s.nodes[n].pc.Marking?
    ensures Chain(s1)
  {
    hide Ends, Others, Waiting;
    forall i | 0 < i < |s1.queue| ensures Follows(s1, s1.queue[i - 1], s1.queue[i]) {
      assert Follows(s, s.queue[i - 1], s.queue[i]);
    }
  }

  lemma MarkEnds(s: State, n: nat, s1: State)
    requires Ends(s) && n in s.nodes && Step(s, n, s1) && s.nodes[n].pc.Marking?
    ensures Ends(s1) && Waiting(s1) == Waiting(s)
  {
  }

  lemma LinkChain(s: State, n: nat, s1: State, k: nat)
    requires Inv(s) && Step(s, n, s1) && s.nodes[n].pc.Linking? && 0 < k < |s.queue| && s.queue[k] == n
    requires s.nodes[n].pc.pred == s.queue[k - 1] && s.nodes[n].locked && s.queue[k - 1] in s.nodes && s.queue[k - 1] != n
    ensures Chain(s1)
  {
    forall i | 0 < i < |s1.queue| ensures Follows(s1, s1.queue[i - 1], s1.queue[i]) {
      assert Follows(s, s.queue[i - 1], s.queue[i]);
      if i != k {
        assert s.queue[i] != n && s.queue[i - 1] != s.queue[k - 1];
        FollowsKept(s, s1, s.queue[i - 1], s.queue[i]);
      }
    }
  }

  lemma LinkOthers(s: State, n: nat, s1: State)
    requires Others(s) && n in s.nodes && Step(s, n, s1) && s.nodes[n].pc.Linking? && s.nodes[n].pc.pred in s.queue
    requires s.nodes[n].pc.pred != n
    ensures Others(s1)
  {
  }

  lemma LinkEnds(s: State, n: nat, s1: State)
    requires Ends(s) && n in s.nodes && Step(s, n, s1) && s.nodes[n].pc.Linking?
    requires s.queue != [] && s.queue[0] != n && Last(s) != s.nodes[n].pc.pred && s.nodes[s.nodes[n].pc.pred].next == Null
    ensures Ends(s1) && Waiting(s1) == Waiting(s)
  {
  }

  lemma StepLink(s: State, n: nat, s1: State)
    requires Inv(s) && Step(s, n, s1) && s.nodes[n].pc.Linking?
    ensures Inv(s1)
  {
    var k := InQueue(s, n);
    QueueNodes(s, k - 1);
    LinkChain(s, n, s1, k);
    LinkOthers(s, n, s1);
    LinkEnds(s, n, s1);
    hide Chain, Follows, Others, Ends, Waiting;
  }

  lemma FirstChain(s: State, n: nat, p: Pc)
    requires Distinct(s.queue) && Chain(s) && s.queue != [] && n == s.queue[0] && n in s.nodes
    ensures Chain(Goto(s, n, p))
  {
    var s1 := Goto(s, n, p);
    forall i | 0 < i < |s1.queue| ensures Follows(s1, s1.queue[i - 1], s1.queue[i]) {
      assert Follows(s, s.queue[i - 1], s.queue[i]);
    }
  }

  lemma SameChain(s: State, s1: State)
    requires s1.nodes == s.nodes && s1.queue == s.queue && Chain(s)
    ensures Chain(s1)
  {
    forall i | 0 < i < |s1.queue| ensures Follows(s1, s1.queue[i - 1], s1.queue[i]) {
      assert Follows(s, s.queue[i - 1], s.queue[i]);
    }
  }

  /** Only the first node's owner moves on. */
  lemma FirstMoves(s: State, n: nat, p: Pc, granted: seq<nat>)
    requires Inv(s) && s.queue != [] && n == s.queue[0] && n in s.nodes && !Outside(p) && !Outside(s.nodes[n].pc)
    requires var s1 := Goto(s, n, p).(granted := granted); First(s1) && s.arrived == granted + Waiting(s1)
    ensures Inv(Goto(s, n, p).(granted := granted))
  {
    FirstChain(s, n, p);
    SameChain(Goto(s, n, p), Goto(s, n, p).(granted := granted));
    FirstOthers(s, n, p, granted);
    hide Waiting, First, Chain, Follows, Others, Outside, Distinct;
  }

  lemma FirstOthers(s: State, n: nat, p: Pc, granted: seq<nat>)
    requires Others(s) && n in s.nodes && !Outside(p) && !Outside(s.nodes[n].pc)
    ensures Others(Goto(s, n, p).(granted := granted))
  {
  }

  lemma Entered(s: State, n: nat)
    requires Ends(s) && s.arrived == s.granted + Waiting(s) && s.queue != [] && n == s.queue[0] && n in s.nodes
    requires s.nodes[n].pc == Spinning
    ensures var s1 := Goto(s, n, Critical).(granted := s.granted + [n]); First(s1) && s.arrived == s1.granted + Waiting(s1)
  {
    assert s.queue == [n] + s.queue[1..];
    assert s.granted + [n] + s.queue[1..] == s.granted + s.queue;
  }

  lemma StepSpin(s: State, n: nat, s1: State)
    requires Inv(s) && Step(s, n, s1) && s.nodes[n].pc == Spinning
    ensures Inv(s1)
  {
    var k := InQueue(s, n);
    if s1 != s {
      assert k == 0;
      assert Goto(s, n, Critical).(granted := s.granted + [n]) == s1;
      assert Ends(s) && s.arrived == s.granted + Waiting(s);
      hide *;
      Entered(s, n);
      OutsideNot();
      FirstMoves(s, n, Critical, s.granted + [n]);
    }
  }

  lemma OutsideNot()
    ensures !Outside(Critical) && !Outside(Spinning)
  {
  }

  lemma StepLeave(s: State, n: nat, s1: State)
    requires Inv(s) && Step(s, n, s1) && (s.nodes[n].pc == Critical || s.nodes[n].pc == Awaiting)
    ensures Inv(s1)
  {
    var k := InQueue(s, n);
    if s1 != s {
      if |s.queue| > 1 {
        assert Follows(s, s.queue[0], s.queue[1]);
      }
      assert Goto(s, n, s1.nodes[n].pc).(granted := s.granted) == s1;
      hide Inv;
      FirstMoves(s, n, s1.nodes[n].pc, s.granted);
    }
  }

  lemma StepClose(s: State, n: nat, s1: State)
    requires Inv(s) && Step(s, n, s1) && s.nodes[n].pc == Closing
    ensures Inv(s1)
  {
    var k := InQueue(s, n);
    if s.tail == At(n) {
      assert |s.queue| == 1;
      assert s.queue[1..] == [];
    } else {
      assert Goto(s, n, Awaiting).(granted := s.granted) == s1;
      hide Follows;
      FirstMoves(s, n, Awaiting, s.granted);
    }
  }

  lemma StepHand(s: State, n: nat, s1: State)
    requires Inv(s) && Step(s, n, s1) && s.nodes[n].pc.Handing?
    ensures Inv(s1)
  {
    var k := InQueue(s, n);
    HandChain(s, n, s1);
    HandEnds(s, n, s1);
    assert Distinct(s1.queue);
    HandOthers(s, n, s1);
    hide Chain, Follows, Ends, Waiting, Distinct, Others;
  }

  lemma HandChain(s: State, n: nat, s1: State)
    requires Inv(s) && Step(s, n, s1) && s.nodes[n].pc.Handing? && s.queue != [] && s.queue[0] == n && First(s)
    ensures Chain(s1)
  {
    hide Others, Waiting;
    assert s1.queue == s.queue[1..];
    forall i | 0 < i < |s1.queue| ensures Follows(s1, s1.queue[i - 1], s1.queue[i]) {
      assert Follows(s, s.queue[i], s.queue[i + 1]);
    }
  }

  lemma HandEnds(s: State, n: nat, s1: State)
    requires Inv(s) && Step(s, n, s1) && s.nodes[n].pc.Handing? && s.queue != [] && s.queue[0] == n && First(s)
    ensures Ends(s1) && s1.arrived == s1.granted + Waiting(s1)
  {
    hide Others;
    assert Follows(s, s.queue[0], s.queue[1]);
    assert s1.queue == s.queue[1..];
  }

  lemma HandOthers(s: State, n: nat, s1: State)
    requires Inv(s) && Step(s, n, s1) && s.nodes[n].pc.Handing? && s.queue != [] && s.queue[0] == n
    ensures Others(s1)
  {
    TailIs(s.queue, n);
    assert Others(s) && n in s.nodes && s1.queue == s.queue[1..];
    hide Inv, Distinct;
    forall m | m in s1.nodes ensures (m in s1.queue <==> !Outside(s1.nodes[m].pc)) && (s1.nodes[m].pc == Idle ==> s1.nodes[m].next == Null) {
      assert m in s.nodes && (m != n ==> s1.nodes[m].pc == s.nodes[m].pc && s1.nodes[m].next == s.nodes[m].next);
    }
  }

  lemma TailIs(q: seq<nat>, n: nat)
    requires Distinct(q) && q != [] && q[0] == n
    ensures forall m :: m in q[1..] <==> m in q && m != n
  {
    assert q == [n] + q[1..];
  }

  lemma StepClear(s: State, n: nat, s1: State)
    requires Inv(s) && Step(s, n, s1) && s.nodes[n].pc == Clearing
    ensures Inv(s1)
  {
    forall i | 0 < i < |s1.queue| ensures Follows(s1, s1.queue[i - 1], s1.queue[i]) {
      assert Follows(s, s.queue[i - 1], s.queue[i]);
      QueueNodes(s, i - 1);
    }
    if s.queue != [] {
      QueueNodes(s, 0);
      QueueNodes(s, |s.queue| - 1);
    }
  }

  lemma StepKeeps(s: State, n: nat, s1: State)
    requires Inv(s) && Step(s, n, s1)
    ensures Inv(s1)
  {
    hide Inv;
    match s.nodes[n].pc
    case Idle => StepExchange(s, n, s1);
    case Marking(_) => StepMark(s, n, s1);
    case Linking(_) => StepLink(s, n, s1);
    case Spinning => StepSpin(s, n, s1);
    case Critical => StepLeave(s, n, s1);
    case Closing => StepClose(s, n, s1);
    case Awaiting => StepLeave(s, n, s1);
    case Handing(_) => StepHand(s, n, s1);
    case Clearing => StepClear(s, n, s1);
  }

  lemma {:induction false} RunKeeps(run: seq<State>, who: seq<nat>, i: nat)
    requires Run(run, who) && i < |run|
    ensures Inv(run[i])
  {
    hide Inv;
    if i == 0 {
      Initially(run[0]);
    } else {
      RunKeeps(run, who, i - 1);
      StepKeeps(run[i - 1], who[i - 1], run[i]);
    }
  }

  // ---------------------------------------------------------------- what this means

  /** At most one thread is in the critical section. */
  lemma MutualExclusion(run: seq<State>, who: seq<nat>, i: nat, n: nat, m: nat)
    requires Run(run, who) && i < |run| && n in run[i].nodes && m in run[i].nodes
    requires Inside(run[i].nodes[n].pc) && Inside(run[i].nodes[m].pc)
    ensures n == m
  {
    RunKeeps(run, who, i);
    var j := InQueue(run[i], n);
    var k := InQueue(run[i], m);
  }

  /** Step i is the exchange of the lock word. */
  ghost predicate Arrives(run: seq<State>, who: seq<nat>, i: nat)
    requires i < |who| < |run|
  {
    who[i] in run[i].nodes && run[i].nodes[who[i]].pc == Idle
  }

  /** Step i ends in the critical section. */
  ghost predicate Enters(run: seq<State>, who: seq<nat>, i: nat)
    requires i < |who| < |run|
  {
    who[i] in run[i + 1].nodes && run[i + 1].nodes[who[i]].pc == Critical
  }

  ghost function Arrivals(run: seq<State>, who: seq<nat>, i: nat): seq<nat>
    requires i <= |who| < |run|
  {
    if i == 0 then [] else Arrivals(run, who, i - 1) + if Arrives(run, who, i - 1) then [who[i - 1]] else []
  }

  ghost function Entries(run: seq<State>, who: seq<nat>, i: nat): seq<nat>
    requires i <= |who| < |run|
  {
    if i == 0 then [] else Entries(run, who, i - 1) + if Enters(run, who, i - 1) then [who[i - 1]] else []
  }

  lemma StepRecords(run: seq<State>, who: seq<nat>, i: nat)
    requires Run(run, who) && i < |who| && Inv(run[i])
    ensures run[i + 1].arrived == run[i].arrived + if Arrives(run, who, i) then [who[i]] else []
    ensures run[i + 1].granted == run[i].granted + if Enters(run, who, i) then [who[i]] else []
  {
    assert Step(run[i], who[i], run[i + 1]);
  }

  lemma {:induction false} Records(run: seq<State>, who: seq<nat>, i: nat)
    requires Run(run, who) && i < |run|
    ensures run[i].arrived == Arrivals(run, who, i) && run[i].granted == Entries(run, who, i)
  {
    hide Inv, Arrives, Enters, Step;
    if i > 0 {
      Records(run, who, i - 1);
      RunKeeps(run, who, i - 1);
      StepRecords(run, who, i - 1);
    }
  }

  ghost predicate Waits(p: Pc) {
    p.Marking? || p.Linking? || p == Spinning
  }

  lemma WaitingIs(s: State, n: nat)
    requires Inv(s)
    ensures n in Waiting(s) <==> n in s.nodes && Waits(s.nodes[n].pc)
    ensures Distinct(Waiting(s))
  {
    if n in s.queue {
      var i :| 0 <= i < |s.queue| && s.queue[i] == n;
      QueueNodes(s, i);
      if i > 0 {
        assert Follows(s, s.queue[i - 1], n);
        assert s.queue[1..][i - 1] == n;
      }
    }
    if s.queue != [] && n in s.queue[1..] {
      assert n in s.queue;
    }
  }

  /** The lock is granted in the order of the exchanges, and those who have not entered yet are exactly the waiting ones. */
  lemma FirstComeFirstServed(run: seq<State>, who: seq<nat>, i: nat) returns (waiting: seq<nat>)
    requires Run(run, who) && i < |run|
    ensures Arrivals(run, who, i) == Entries(run, who, i) + waiting && Distinct(waiting)
    ensures forall n :: n in waiting <==> n in run[i].nodes && Waits(run[i].nodes[n].pc)
  {
    RunKeeps(run, who, i);
    Records(run, who, i);
    waiting := Waiting(run[i]);
    WaitingIs(run[i], 0);
    hide Inv, Arrivals, Entries, Waiting, Distinct;
    forall n ensures n in waiting <==> n in run[i].nodes && Waits(run[i].nodes[n].pc) {
      WaitingIs(run[i], n);
    }
    assert Inv(run[i]);
    assert run[i].arrived == run[i].granted + waiting by {
      InvOrder(run[i]);
    }
  }

  lemma InvOrder(s: State)
    requires Inv(s)
    ensures s.arrived == s.granted + Waiting(s)
  {
  }

  /** The step is not just another look at something that has not changed. */
  ghost predicate Effective(s: State, n: nat) {
    n in s.nodes && s.nodes[n].pc != Idle && s.nodes[n].pc != Critical &&
    (s.nodes[n].pc == Spinning ==> !s.nodes[n].locked) && (s.nodes[n].pc == Awaiting ==> s.nodes[n].next != Null)
  }

  /** Every waiter has a predecessor that knows it or is about to; the first one's step is not in vain, or it is in
      the critical section, or the second one is about to link itself. */
  lemma NobodyIsLeft(run: seq<State>, who: seq<nat>, i: nat, n: nat) returns (m: nat)
    requires Run(run, who) && i < |run| && n in run[i].nodes && run[i].nodes[n].pc == Spinning
    ensures m in run[i].nodes && (run[i].nodes[m].pc == Critical || Effective(run[i], m))
    ensures run[i].nodes[n].locked ==> exists p :: p in run[i].nodes && run[i].nodes[p].next == At(n) && p in run[i].queue
  {
    RunKeeps(run, who, i);
    var s := run[i];
    var k := InQueue(s, n);
    if k > 0 {
      assert Follows(s, s.queue[k - 1], n) && s.queue[k - 1] in s.queue;
    }
    m := s.queue[0];
    if s.nodes[m].pc == Awaiting && s.nodes[m].next == Null {
      m := s.queue[1];
      assert Follows(s, s.queue[0], m);
    }
  }

  ghost function StepsToGo(p: Pc): nat {
    match p
    case Idle => 0
    case Clearing => 1
    case Handing(_) => 2
    case Awaiting => 3
    case Closing => 4
    case Critical => 5
    case Spinning => 6
    case Linking(_) => 7
    case Marking(_) => 8
  }

  /** Such a step brings its thread nearer to its end, and puts nobody back: each pass through the lock takes at
      most eight of them. */
  lemma EffectiveStep(s: State, n: nat, s1: State)
    requires Inv(s) && Step(s, n, s1) && (Effective(s, n) || (n in s.nodes && s.nodes[n].pc == Critical))
    ensures s1.nodes.Keys == s.nodes.Keys && StepsToGo(s1.nodes[n].pc) < StepsToGo(s.nodes[n].pc)
    ensures forall m :: m in s.nodes && m != n ==> s1.nodes[m].pc == s.nodes[m].pc
  {
  }

  // ---------------------------------------------------------------- undisturbed

  /** A free lock is taken with the first step, and given back with two more. */
  lemma TakesAlone(s: State, n: nat, s1: State, s2: State, s3: State)
    requires Inv(s) && s.tail == Null && n in s.nodes && s.nodes[n].pc == Idle
    requires Step(s, n, s1) && Step(s1, n, s2) && Step(s2, n, s3)
    ensures s1.tail == At(n) && s1.nodes == s.nodes[n := s.nodes[n].(pc := Critical)] && s3.tail == Null && s3.nodes == s.nodes
  {
    assert s1.nodes[n].next == Null;
    assert s3.nodes == s.nodes;
  }

  /** On a lock in use the third step ends in the waiting loop, known to the predecessor. */
  lemma WaitsAlone(s: State, n: nat, s1: State, s2: State, s3: State)
    requires Inv(s) && s.tail != Null && n in s.nodes && s.nodes[n].pc == Idle
    requires Step(s, n, s1) && Step(s1, n, s2) && Step(s2, n, s3)
    ensures s3.tail == At(n) && n in s3.nodes && s3.nodes[n] == QNode(Spinning, Null, true)
    ensures s.tail.node in s3.nodes && s3.nodes[s.tail.node].next == At(n)
  {
    QueueNodes(s, |s.queue| - 1);
  }

  /** A successor that has linked itself gets the lock with its next load once the owner has made three steps. */
  lemma HandsOver(s: State, n: nat, s1: State, s2: State, s3: State, m: nat, s4: State)
    requires Inv(s) && n in s.nodes && s.nodes[n].pc == Critical && s.nodes[n].next == At(m)
    requires Step(s, n, s1) && Step(s1, n, s2) && Step(s2, n, s3) && Step(s3, m, s4)
    ensures s3.nodes[n].pc == Idle && s3.nodes[n].next == Null && m in s4.nodes && s4.nodes[m].pc == Critical
  {
    var k := InQueue(s, n);
    assert Follows(s, s.queue[0], s.queue[1]);
  }
}
