/** The futex mutex, for any number of threads: every atomic operation and every futex call is one step. */
module LockMutex {
  import opened LockSets

  /** The words are 32 bits wide. */
  const WORD: int := 0x1_0000_0000

  /** What a thread does next. */
  datatype Pc =
    | Idle
    | TryLocking
    | Locking                                    // compare-and-swap of locked in mutex_lock
    | Loading                                    // load of both words
    | Announcing(locked: nat, waiting: nat)      // compare-and-swap of both words
    | Waiting                                    // futex wait
    | Asleep
    | Leaving                                    // waiting is decremented
    | Held
    | Released                                   // load of waiting in mutex_unlock
    | Waking                                     // futex wake

  datatype State = State(locked: nat, waiting: nat, pc: map<nat, Pc>)

  ghost function Goto(s: State, t: nat, p: Pc): State {
    s.(pc := s.pc[t := p])
  }

  /** Only a locked mutex is waited for. */
  ghost function Checked(s: State): Pc {
    if s.locked == 0 then Locking else Announcing(s.locked, s.waiting)
  }

  ghost predicate Step(s: State, t: nat, s1: State) {
    t in s.pc &&
    match s.pc[t]
    case Idle => s1 == Goto(s, t, Locking) || s1 == Goto(s, t, TryLocking)
    case TryLocking => s1 == if s.locked == 0 then Goto(s.(locked := 1), t, Held) else Goto(s, t, Idle)
    case Locking => s1 == if s.locked == 0 then Goto(s.(locked := 1), t, Held) else Goto(s, t, Loading)
    case Loading => s1 == Goto(s, t, Checked(s))
    case Announcing(locked, waiting) =>
      s1 == if s.locked == locked && s.waiting == waiting then Goto(s.(locked := 1, waiting := (waiting + 1) % WORD), t, Waiting)
            else Goto(s, t, Checked(s))
    case Waiting => s1 == Goto(s, t, if s.locked == 1 then Asleep else Leaving)
    case Asleep => s1 == Goto(s, t, Leaving)     // a spurious wake-up
    case Leaving => s1 == Goto(s.(waiting := (s.waiting - 1) % WORD), t, Locking)
    case Held => s1 == Goto(s.(locked := 0), t, Released)
    case Released => s1 == Goto(s, t, if s.waiting != 0 then Waking else Idle)
    case Waking =>
      if Sleepers(s) == {} then s1 == Goto(s, t, Idle)
      else exists u :: u in Sleepers(s) && s1 == Goto(Goto(s, u, Leaving), t, Idle)
  }

  ghost predicate Start(s: State) {
    s.locked == 0 && s.waiting == 0 && |s.pc| < WORD && forall t :: t in s.pc ==> s.pc[t] == Idle
  }

  /** A run of the system; who[i] takes step i. */
  ghost predicate Run(run: seq<State>, who: seq<nat>) {
    |run| == |who| + 1 && Start(run[0]) && forall i :: 0 <= i < |who| ==> Step(run[i], who[i], run[i + 1])
  }

  /** Steps on from a state, not necessarily from the start. */
  ghost predicate Steps(run: seq<State>, who: seq<nat>) {
    |run| == |who| + 1 && forall i :: 0 <= i < |who| ==> Step(run[i], who[i], run[i + 1])
  }

  ghost function Sleepers(s: State): set<nat> {
    set t | t in s.pc && s.pc[t] == Asleep
  }

  ghost function Holders(s: State): set<nat> {
    set t | t in s.pc && s.pc[t] == Held
  }

  ghost predicate Counted(p: Pc) {
    p == Waiting || p == Asleep || p == Leaving
  }

  /** The threads that have announced themselves. */
  ghost function Announced(s: State): set<nat> {
    set t | t in s.pc && Counted(s.pc[t])
  }

  /** In mutex_lock and not asleep. */
  ghost predicate Trying(p: Pc) {
    p == Locking || p == Loading || p.Announcing? || p == Waiting || p == Leaving
  }

  /** An unlocker that still has to wake up somebody. */
  ghost predicate AboutToWake(p: Pc) {
    p == Released || p == Waking
  }

  ghost predicate Helper(s: State, t: nat) {
    t in s.pc && (Trying(s.pc[t]) || AboutToWake(s.pc[t]))
  }

  /** At most one holder; waiting counts the announced threads; nobody sleeps on a free mutex for good. */
  ghost predicate Inv(s: State) {
    |s.pc| < WORD && s.locked == |Holders(s)| <= 1 && s.waiting == |Announced(s)| &&
    (s.locked == 0 && Sleepers(s) != {} ==> exists t :: Helper(s, t)) &&
    forall t :: t in s.pc && s.pc[t].Announcing? ==> s.pc[t].locked == 1
  }

  lemma Initially(s: State)
    requires Start(s)
    ensures Inv(s)
  {
    assert Holders(s) == {} && Announced(s) == {} && Sleepers(s) == {};
  }

  lemma Moved(s: State, t: nat, p: Pc)
    requires t in s.pc
    ensures var s1 := Goto(s, t, p);
      |s1.pc| == |s.pc| &&
      |Holders(s1)| == |Holders(s)| + (if p == Held then 1 else 0) - (if s.pc[t] == Held then 1 else 0) &&
      |Announced(s1)| == |Announced(s)| + (if Counted(p) then 1 else 0) - (if Counted(s.pc[t]) then 1 else 0)
    ensures |Announced(s)| <= |s.pc| && (!Counted(s.pc[t]) ==> |Announced(s)| < |s.pc|)
    ensures s.pc[t] == Held ==> |Holders(s)| >= 1
    ensures Counted(s.pc[t]) ==> |Announced(s)| >= 1
  {
    var s1 := Goto(s, t, p);
    assert s1.pc.Keys == s.pc.Keys;
    MapSize(s.pc);
    MapSize(s1.pc);
    CountOne(Holders(s), Holders(s1), t);
    CountOne(Announced(s), Announced(s1), t);
    CountSub(Announced(s), if Counted(s.pc[t]) then s.pc.Keys else s.pc.Keys - {t});
    if s.pc[t] == Held {
      CountSome(Holders(s), t);
    }
    if Counted(s.pc[t]) {
      CountSome(Announced(s), t);
    }
  }

  lemma MapSize(pc: map<nat, Pc>)
    ensures |pc| == |pc.Keys|
  {
  }

  /** The numbers after a step that changes what one thread does. */
  ghost predicate Numbers(s: State) {
    |s.pc| < WORD && s.locked == |Holders(s)| <= 1 && s.waiting == |Announced(s)|
  }

  lemma WordsDoNotCount(s: State, locked: nat, waiting: nat)
    ensures var s1 := s.(locked := locked, waiting := waiting); Holders(s1) == Holders(s) && Announced(s1) == Announced(s)
  {
  }

  lemma OneMoves(s: State, t: nat, p: Pc, locked: nat, waiting: nat)
    requires Numbers(s) && t in s.pc
    requires locked == s.locked + (if p == Held then 1 else 0) - (if s.pc[t] == Held then 1 else 0) <= 1
    requires waiting == (s.waiting + (if Counted(p) then 1 else 0) - (if Counted(s.pc[t]) then 1 else 0)) % WORD
    ensures Numbers(Goto(s.(locked := locked, waiting := waiting), t, p))
  {
    Moved(s, t, p);
    WordsDoNotCount(Goto(s, t, p), locked, waiting);
    assert Goto(s.(locked := locked, waiting := waiting), t, p) == Goto(s, t, p).(locked := locked, waiting := waiting);
    hide Holders, Announced, Counted;
  }

  /** A waker moves a sleeper on. */
  lemma WakeNumbers(s: State, t: nat, u: nat)
    requires Numbers(s) && t in s.pc && u in s.pc && s.pc[u] == Asleep && s.pc[t] == Waking
    ensures Numbers(Goto(Goto(s, u, Leaving), t, Idle))
  {
    Moved(s, u, Leaving);
    Moved(Goto(s, u, Leaving), t, Idle);
    hide Holders, Announced;
  }

  lemma StepNumbers(s: State, t: nat, s1: State)
    requires Inv(s) && Step(s, t, s1)
    ensures Numbers(s1)
  {
    if s.pc[t] == Waking && Sleepers(s) != {} {
      var u :| u in Sleepers(s) && s1 == Goto(Goto(s, u, Leaving), t, Idle);
      assert Numbers(s);
      hide *;
      WakeNumbers(s, t, u);
    } else {
      StepWords(s, t, s1);
      hide *;
      OneMoves(s, t, s1.pc[t], s1.locked, s1.waiting);
    }
  }

  /** What a step does to the words, but for waking. */
  lemma StepWords(s: State, t: nat, s1: State)
    requires Inv(s) && Step(s, t, s1) && !(s.pc[t] == Waking && Sleepers(s) != {})
    ensures Numbers(s) && t in s1.pc && s1 == Goto(s.(locked := s1.locked, waiting := s1.waiting), t, s1.pc[t])
    ensures s1.locked == s.locked + (if s1.pc[t] == Held then 1 else 0) - (if s.pc[t] == Held then 1 else 0) <= 1
    ensures s1.waiting == (s.waiting + (if Counted(s1.pc[t]) then 1 else 0) - (if Counted(s.pc[t]) then 1 else 0)) % WORD
  {
    Moved(s, t, Idle);
    hide Holders, Announced, Sleepers;
  }

  lemma StepWakeups(s: State, t: nat, s1: State)
    requires Inv(s) && Step(s, t, s1) && s1.locked == 0 && Sleepers(s1) != {}
    ensures exists u :: Helper(s1, u)
  {
    if s.pc[t] == Waking && Sleepers(s) != {} {
      var u :| u in Sleepers(s) && s1 == Goto(Goto(s, u, Leaving), t, Idle);
      assert Helper(s1, u);
    } else if s.pc[t] == Held || Trying(s1.pc[t]) {
      assert Helper(s1, t);
    } else if s.pc[t] == Released {
      var u :| u in Sleepers(s1);
      assert u in Announced(s);
      CountSome(Announced(s), u);
      assert Helper(s1, t);
    } else {
      var u :| u in Sleepers(s1);
      assert u in Sleepers(s);
      var v :| Helper(s, v);
      assert v != t;
      assert Helper(s1, v);
    }
  }

  lemma StepAnnouncements(s: State, t: nat, s1: State)
    requires Inv(s) && Step(s, t, s1)
    ensures forall u :: u in s1.pc && s1.pc[u].Announcing? ==> s1.pc[u].locked == 1
  {
  }

  lemma StepKeeps(s: State, t: nat, s1: State)
    requires Inv(s) && Step(s, t, s1)
    ensures Inv(s1) && s1.pc.Keys == s.pc.Keys
  {
    StepNumbers(s, t, s1);
    StepAnnouncements(s, t, s1);
    if s1.locked == 0 && Sleepers(s1) != {} {
      StepWakeups(s, t, s1);
    }
  }

  lemma {:induction false} RunKeeps(run: seq<State>, who: seq<nat>, i: nat)
    requires Run(run, who) && i < |run|
    ensures Inv(run[i])
  {
    if i == 0 {
      Initially(run[0]);
    } else {
      RunKeeps(run, who, i - 1);
      StepKeeps(run[i - 1], who[i - 1], run[i]);
    }
  }

  /** Mutual exclusion; and the mutex is locked exactly while somebody holds it. */
  lemma MutualExclusion(run: seq<State>, who: seq<nat>, i: nat, t: nat, u: nat)
    requires Run(run, who) && i < |run| && t in run[i].pc && run[i].pc[t] == Held
    ensures run[i].locked == 1
    ensures u in run[i].pc && run[i].pc[u] == Held ==> u == t
  {
    RunKeeps(run, who, i);
    var a := Holders(run[i]);
    CountSome(a, t);
    if u in a {
      OnlyOne(a, t, u);
    }
  }

  /** A thread sleeps on a free mutex only while another one is awake in mutex_lock or still about to wake somebody. */
  lemma NoLostWakeup(run: seq<State>, who: seq<nat>, i: nat, t: nat)
    requires Run(run, who) && i < |run| && run[i].locked == 0 && t in run[i].pc && run[i].pc[t] == Asleep
    ensures exists u :: u != t && Helper(run[i], u)
  {
    RunKeeps(run, who, i);
    assert t in Sleepers(run[i]);
    var u :| Helper(run[i], u);
  }

  // ---------------------------------------------------------------- what each call does

  ghost predicate SomeoneHolds(s: State) {
    exists u :: u in s.pc && s.pc[u] == Held
  }

  /** In every run, mutex_trylock fails exactly against a holder, and then leaves everything as it was; it never waits. */
  lemma TryLock(run: seq<State>, who: seq<nat>, i: nat)
    requires Run(run, who) && i < |who| && who[i] in run[i].pc && run[i].pc[who[i]] == TryLocking
    ensures who[i] in run[i + 1].pc && run[i + 1].waiting == run[i].waiting && run[i + 1].locked == 1
    ensures run[i + 1].pc == run[i].pc[who[i] := if SomeoneHolds(run[i]) then Idle else Held]
  {
    RunKeeps(run, who, i);
    var s := run[i];
    if u :| u in s.pc && s.pc[u] == Held {
      CountSome(Holders(s), u);
    } else {
      assert Holders(s) == {};
    }
    assert Step(s, who[i], run[i + 1]);
  }

  /** Both calls can be made; undisturbed, either one has a free mutex after its first step. */
  lemma Undisturbed(s: State, t: nat, s1: State, s2: State)
    requires Inv(s) && s.locked == 0 && t in s.pc && s.pc[t] == Idle && Step(s, t, s1) && Step(s1, t, s2)
    ensures s2.locked == 1 && s2.waiting == s.waiting && s2.pc == s.pc[t := Held]
    ensures Step(s, t, Goto(s, t, Locking)) && Step(s, t, Goto(s, t, TryLocking))
  {
  }

  /** Undisturbed, a thread in mutex_lock is announced and asleep after four steps if somebody else holds the mutex. */
  lemma FallsAsleep(s: State, t: nat, s1: State, s2: State, s3: State, s4: State)
    requires Inv(s) && s.locked == 1 && t in s.pc && s.pc[t] == Locking
    requires Step(s, t, s1) && Step(s1, t, s2) && Step(s2, t, s3) && Step(s3, t, s4)
    ensures s4 == State(1, s.waiting + 1, s.pc[t := Asleep])
  {
    Moved(s, t, Idle);
    assert s.waiting + 1 < WORD;
    assert s1 == Goto(s, t, Loading);
    hide *;
    Announces(s, t, s1, s2, s3);
    Sleeps(s3, t, s4);
  }

  lemma Announces(s: State, t: nat, s1: State, s2: State, s3: State)
    requires s.locked == 1 && s.waiting + 1 < WORD && t in s.pc && s1 == Goto(s, t, Loading) && Step(s1, t, s2) && Step(s2, t, s3)
    ensures s3 == State(1, s.waiting + 1, s.pc[t := Waiting])
  {
    assert s2 == Goto(s, t, Announcing(1, s.waiting));
    hide Sleepers;
  }

  lemma Sleeps(s: State, t: nat, s1: State)
    requires s.locked == 1 && t in s.pc && s.pc[t] == Waiting && Step(s, t, s1)
    ensures s1 == State(1, s.waiting, s.pc[t := Asleep])
  {
    hide Sleepers;
  }

  /** Whatever the others do, mutex_lock ends only by taking the free mutex, and another thread's step does nothing to a
      thread but wake it. */
  lemma LockEndsHeld(s: State, t: nat, s1: State, u: nat)
    requires Step(s, t, s1) && u in s.pc
    ensures u in s1.pc && (u != t ==> s1.pc[u] == s.pc[u] || (s.pc[t] == Waking && s.pc[u] == Asleep && s1.pc[u] == Leaving))
    ensures Trying(s.pc[t]) || s.pc[t] == Asleep ==>
      Trying(s1.pc[t]) || s1.pc[t] == Asleep || (s.locked == 0 && s1 == Goto(s.(locked := 1), t, Held))
  {
  }

  /** Undisturbed, mutex_unlock frees the mutex in two steps if nobody is announced. */
  lemma UnlockQuiet(s: State, t: nat, s1: State, s2: State)
    requires Step(s, t, s1) && Step(s1, t, s2) && s.pc[t] == Held && s.waiting == 0
    ensures s2 == State(0, 0, s.pc[t := Idle])
  {
    assert s2.pc == s.pc[t := Idle];
  }

  /** Undisturbed, mutex_unlock frees the mutex and wakes exactly one of the threads that sleep. */
  lemma UnlockWakes(run: seq<State>, t: nat) returns (u: nat)
    requires Steps(run, [t, t, t]) && Inv(run[0]) && t in run[0].pc && run[0].pc[t] == Held && Sleepers(run[0]) != {}
    ensures u in Sleepers(run[0]) && run[3] == State(0, run[0].waiting, run[0].pc[u := Leaving][t := Idle])
  {
    var s := run[0];
    var v :| v in Sleepers(s);
    assert v in Announced(s);
    CountSome(Announced(s), v);
    assert Step(s, t, run[1]) && Step(run[1], t, run[2]) && Step(run[2], t, run[3]);
    assert run[1] == Goto(s.(locked := 0), t, Released);
    assert run[2] == Goto(s.(locked := 0), t, Waking);
    assert Sleepers(run[2]) == Sleepers(s);
    u :| u in Sleepers(s) && run[3] == Goto(Goto(run[2], u, Leaving), t, Idle);
    assert run[3].pc == s.pc[u := Leaving][t := Idle];
  }

  // ---------------------------------------------------------------- the free mutex is taken again

  ghost function StepsToGo(p: Pc): nat {
    match p
    case Locking => 1
    case Loading => 2
    case Announcing(_, _) => 2
    case Leaving => 2
    case Waiting => 3
    case Waking => 3
    case Released => 4
    case _ => 0
  }

  ghost function Alone(s: State, t: nat): State
    requires s.locked == 0 && t in s.pc && Trying(s.pc[t])
  {
    if s.pc[t] == Locking then Goto(s.(locked := 1), t, Held)
    else if s.pc[t] == Waiting then Goto(s, t, Leaving)
    else if s.pc[t] == Leaving then Goto(s.(waiting := (s.waiting - 1) % WORD), t, Locking)
    else Goto(s, t, Locking)
  }

  /** Alone, a thread in mutex_lock takes a free mutex within three steps. */
  lemma {:induction false} TakesAlone(s: State, t: nat) returns (run: seq<State>, who: seq<nat>)
    requires Inv(s) && s.locked == 0 && t in s.pc && Trying(s.pc[t])
    ensures Steps(run, who) && run[0] == s && (forall i :: 0 <= i < |who| ==> who[i] == t) && |who| <= 3
    ensures run[|who|].locked == 1 && run[|who|].pc == s.pc[t := Held] && |who| <= StepsToGo(s.pc[t])
    decreases StepsToGo(s.pc[t])
  {
    var s1 := Alone(s, t);
    if s.pc[t] == Locking {
      run, who := [s, s1], [t];
    } else {
      StepKeeps(s, t, s1);
      run, who := TakesAlone(s1, t);
      run, who := [s] + run, [t] + who;
    }
  }

  /** However deep the sleep: from every reachable state in which a thread sleeps on a free mutex, helpers that
      are there already bring the mutex back into use within six steps. */
  lemma SleepEnds(run: seq<State>, who: seq<nat>, i: nat, t: nat) returns (more: seq<State>, acts: seq<nat>)
    requires Run(run, who) && i < |run| && run[i].locked == 0 && t in run[i].pc && run[i].pc[t] == Asleep
    ensures Steps(more, acts) && more[0] == run[i] && |acts| <= 6 && more[|acts|].locked == 1
  {
    RunKeeps(run, who, i);
    NoLostWakeup(run, who, i, t);
    var u :| u != t && Helper(run[i], u);
    more, acts := HelperActs(run[i], u, t);
  }

  lemma HelperActs(s: State, u: nat, t: nat) returns (more: seq<State>, acts: seq<nat>)
    requires Inv(s) && s.locked == 0 && Helper(s, u) && t in s.pc && s.pc[t] == Asleep && u != t
    ensures Steps(more, acts) && more[0] == s && |acts| <= 6 && more[|acts|].locked == 1
  {
    if Trying(s.pc[u]) {
      more, acts := TakesAlone(s, u);
    } else if s.pc[u] == Waking {
      more, acts := WakerActs(s, u, t);
    } else {
      assert t in Announced(s);
      CountSome(Announced(s), t);
      var s1 := Goto(s, u, Waking);
      StepKeeps(s, u, s1);
      more, acts := WakerActs(s1, u, t);
      more, acts := [s] + more, [u] + acts;
    }
  }

  lemma WakerActs(s: State, u: nat, t: nat) returns (more: seq<State>, acts: seq<nat>)
    requires Inv(s) && s.locked == 0 && u in s.pc && s.pc[u] == Waking && t in s.pc && s.pc[t] == Asleep && u != t
    ensures Steps(more, acts) && more[0] == s && |acts| <= 4 && more[|acts|].locked == 1
  {
    var s1 := Goto(Goto(s, t, Leaving), u, Idle);
    assert Step(s, u, s1) by {
      assert t in Sleepers(s);
    }
    assert s1.locked == 0 && s1.pc[t] == Leaving;
    hide Step, Inv, Goto;
    StepKeeps(s, u, s1);
    more, acts := TakesAlone(s1, t);
    more, acts := [s] + more, [u] + acts;
  }
}
