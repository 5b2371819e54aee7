/** The futex semaphore, for any number of threads: every atomic operation and every futex call is one step. */
module LockSemaphore {
  import opened LockSets

  /** The words are 32 bits wide. */
  const WORD: int := 0x1_0000_0000
  /** The most threads one futex wake wakes. */
  const WAKE_ALL: int := 0x7fff_ffff

  /** What a thread does next; blocking says that semaphore_wait has called semaphore_trywait. A thread that is done
      knows how its last call has ended. */
  datatype Pc =
    | Idle
    | Acquired                              // semaphore_wait or semaphore_trywait has taken a unit
    | Refused                               // semaphore_trywait has not
    | Trying(blocking: bool)                // load of count
    | Taking(blocking: bool, count: nat)    // compare-and-swap of count
    | Loading                               // load of both words
    | Announcing(waiting: nat)              // compare-and-swap of both words
    | Waiting                               // futex wait
    | Asleep
    | Leaving                               // waiting is decremented
    | Posting                               // count is incremented
    | Posted                                // load of waiting
    | Waking                                // futex wake

  datatype State = State(count: nat, waiting: nat, pc: map<nat, Pc>)

  ghost function Goto(s: State, t: nat, p: Pc): State {
    s.(pc := s.pc[t := p])
  }

  /** Where semaphore_trywait goes on when it has seen this count. */
  ghost function Seen(blocking: bool, count: nat): Pc {
    if count != 0 then Taking(blocking, count) else if blocking then Loading else Refused
  }

  /** The sleepers w are woken, and t is done. */
  ghost function Woken(s: State, w: set<nat>, t: nat): State {
    s.(pc := map u | u in s.pc :: if u == t then Idle else if u in w then Leaving else s.pc[u])
  }

  ghost function Min(a: int, b: int): int {
    if a < b then a else b
  }

  /** One of the three functions is called. */
  ghost predicate Called(s: State, t: nat, s1: State) {
    s1 == Goto(s, t, Trying(false)) || s1 == Goto(s, t, Trying(true)) || s1 == Goto(s, t, Posting)
  }

  ghost predicate Step(s: State, t: nat, s1: State) {
    t in s.pc &&
    match s.pc[t]
    case Idle => Called(s, t, s1)
    case Acquired => Called(s, t, s1)
    case Refused => Called(s, t, s1)
    case Trying(blocking) => s1 == Goto(s, t, Seen(blocking, s.count))
    case Taking(blocking, count) =>
      s1 == if s.count == count && count > 0 then Goto(s.(count := count - 1), t, Acquired)
            else Goto(s, t, Seen(blocking, s.count))
    case Loading =>
      if s.count != 0 then s1 == Goto(s, t, Trying(true))
      else s1 == Goto(s, t, Loading) || s1 == Goto(s, t, Announcing(s.waiting))
    case Announcing(waiting) =>
      s1 == if s.count == 0 && s.waiting == waiting then Goto(s.(waiting := (waiting + 1) % WORD), t, Waiting)
            else if s.count != 0 then Goto(s, t, Trying(true)) else Goto(s, t, Announcing(s.waiting))
    case Waiting => s1 == Goto(s, t, if s.count == 0 then Asleep else Leaving)
    case Asleep => s1 == Goto(s, t, Leaving)     // a spurious wake-up
    case Leaving => s1 == Goto(s.(waiting := (s.waiting - 1) % WORD), t, Trying(true))
    case Posting => s1 == Goto(s.(count := (s.count + 1) % WORD), t, if s.count != 0 then Idle else Posted)
    case Posted => s1 == Goto(s, t, if s.waiting != 0 then Waking else Idle)
    case Waking => exists w :: w <= Sleepers(s) && |w| == Min(WAKE_ALL, |Sleepers(s)|) && s1 == Woken(s, w, t)
  }

  ghost predicate Start(s: State) {
    s.count < WORD && s.waiting == 0 && |s.pc| <= WAKE_ALL &&
    forall t :: t in s.pc ==> s.pc[t] == Idle
  }

  /** A run of the system; who[i] takes step i. */
  ghost predicate Run(run: seq<State>, who: seq<nat>) {
    |run| == |who| + 1 && Start(run[0]) && forall i :: 0 <= i < |who| ==> Step(run[i], who[i], run[i + 1])
  }

  ghost function Sleepers(s: State): set<nat> {
    set t | t in s.pc && s.pc[t] == Asleep
  }

  ghost predicate Counted(p: Pc) {
    p == Waiting || p == Asleep || p == Leaving
  }

  /** The threads that have announced themselves. */
  ghost function Announced(s: State): set<nat> {
    set t | t in s.pc && Counted(s.pc[t])
  }

  /** A poster whose waking of everybody is still to come. */
  ghost predicate Pending(s: State, t: nat) {
    t in s.pc && (s.pc[t] == Posted || s.pc[t] == Waking)
  }

  ghost predicate Numbers(s: State) {
    |s.pc| <= WAKE_ALL && s.count < WORD && s.waiting == |Announced(s)|
  }

  ghost predicate Inv(s: State) {
    Numbers(s) && (s.count > 0 && Sleepers(s) != {} ==> exists t :: Pending(s, t))
  }

  lemma Initially(s: State)
    requires Start(s)
    ensures Inv(s)
  {
    assert Announced(s) == {} && Sleepers(s) == {};
  }

  lemma Moved(s: State, t: nat, p: Pc)
    requires t in s.pc
    ensures var s1 := Goto(s, t, p);
      |s1.pc| == |s.pc| &&
      |Announced(s1)| == |Announced(s)| + (if Counted(p) then 1 else 0) - (if Counted(s.pc[t]) then 1 else 0)
    ensures |Announced(s)| <= |s.pc| && (!Counted(s.pc[t]) ==> |Announced(s)| < |s.pc|)
    ensures Counted(s.pc[t]) ==> |Announced(s)| >= 1
  {
    var s1 := Goto(s, t, p);
    assert s1.pc.Keys == s.pc.Keys;
    MapSize(s.pc);
    MapSize(s1.pc);
    CountOne(Announced(s), Announced(s1), t);
    CountSub(Announced(s), if Counted(s.pc[t]) then s.pc.Keys else s.pc.Keys - {t});
    if Counted(s.pc[t]) {
      CountSome(Announced(s), t);
    }
  }

  lemma MapSize(pc: map<nat, Pc>)
    ensures |pc| == |pc.Keys|
  {
  }

  /** What a step does to the numbers, but for waking. */
  lemma StepWords(s: State, t: nat, s1: State)
    requires Numbers(s) && Step(s, t, s1) && s.pc[t] != Waking
    ensures t in s1.pc && s1.pc == s.pc[t := s1.pc[t]] && s1.count < WORD
    ensures s1.waiting == s.waiting + (if Counted(s1.pc[t]) then 1 else 0) - (if Counted(s.pc[t]) then 1 else 0)
  {
    Moved(s, t, Idle);
    assert (if Counted(s.pc[t]) then 1 <= s.waiting else s.waiting < WAKE_ALL) && s.waiting <= WAKE_ALL && s.count < WORD;
    hide Announced, Sleepers, Numbers;
  }

  lemma OneMoves(s: State, t: nat, s1: State)
    requires Numbers(s) && t in s.pc && t in s1.pc && s1.pc == s.pc[t := s1.pc[t]] && s1.count < WORD
    requires s1.waiting == s.waiting + (if Counted(s1.pc[t]) then 1 else 0) - (if Counted(s.pc[t]) then 1 else 0)
    ensures Numbers(s1)
  {
    Moved(s, t, s1.pc[t]);
    assert Announced(s1) == Announced(Goto(s, t, s1.pc[t]));
    hide Counted;
  }

  /** All sleepers are woken. */
  lemma AllWoken(s: State, w: set<nat>)
    requires w <= Sleepers(s) && |w| == Min(WAKE_ALL, |Sleepers(s)|) && |s.pc| <= WAKE_ALL
    ensures w == Sleepers(s)
  {
    MapSize(s.pc);
    CountSub(Sleepers(s), s.pc.Keys);
    var rest := Sleepers(s) - w;
    assert Sleepers(s) == w + rest;
    assert |rest| == 0;
  }

  lemma WakeNumbers(s: State, t: nat, w: set<nat>)
    requires Numbers(s) && t in s.pc && s.pc[t] == Waking && w == Sleepers(s)
    ensures Numbers(Woken(s, w, t)) && Sleepers(Woken(s, w, t)) == {}
  {
    var s1 := Woken(s, w, t);
    assert s1.pc.Keys == s.pc.Keys;
    MapSize(s.pc);
    MapSize(s1.pc);
    assert Announced(s1) == Announced(s);
  }

  lemma StepWakes(s: State, t: nat, s1: State)
    requires Numbers(s) && Step(s, t, s1) && s.pc[t] == Waking
    ensures Numbers(s1) && Sleepers(s1) == {} && s1.pc.Keys == s.pc.Keys
  {
    var w :| w <= Sleepers(s) && |w| == Min(WAKE_ALL, |Sleepers(s)|) && s1 == Woken(s, w, t);
    AllWoken(s, w);
    WakeNumbers(s, t, w);
  }

  lemma StepNumbers(s: State, t: nat, s1: State)
    requires Numbers(s) && Step(s, t, s1)
    ensures Numbers(s1) && s1.pc.Keys == s.pc.Keys
  {
    if s.pc[t] == Waking {
      StepWakes(s, t, s1);
    } else {
      StepWords(s, t, s1);
      hide Step, Numbers, Counted;
      OneMoves(s, t, s1);
    }
  }

  lemma SleepersAnnounced(s: State, u: nat)
    requires Numbers(s) && u in Sleepers(s)
    ensures s.waiting != 0
  {
    assert u in Announced(s);
    CountSome(Announced(s), u);
  }

  lemma StepWakeups(s: State, t: nat, s1: State)
    requires Inv(s) && Step(s, t, s1) && s1.count > 0 && Sleepers(s1) != {}
    ensures exists u :: Pending(s1, u)
  {
    var u :| u in Sleepers(s1);
    if s.pc[t] == Waking {
      StepWakes(s, t, s1);
    } else if u == t {
      assert false;
    } else if s.pc[t] == Posting && s.count == 0 {
      assert Pending(s1, t);
    } else {
      assert u in Sleepers(s);
      SleepersAnnounced(s, u);
      var v :| Pending(s, v);
      assert Pending(s1, v);
    }
  }

  lemma StepKeeps(s: State, t: nat, s1: State)
    requires Inv(s) && Step(s, t, s1)
    ensures Inv(s1)
  {
    StepNumbers(s, t, s1);
    if s1.count > 0 && Sleepers(s1) != {} {
      StepWakeups(s, t, s1);
    }
  }

  lemma {:induction false} RunKeeps(run: seq<State>, who: seq<nat>, i: nat)
    requires Run(run, who) && i < |run|
    ensures Inv(run[i])
  {
    if i == 0 {
      Initially(run[0]);
    } else {
      RunKeeps(run, who, i - 1);
      StepKeeps(run[i - 1], who[i - 1], run[i]);
    }
  }

  // ---------------------------------------------------------------- units

  /** Step i of a run is the post of a unit. */
  ghost predicate Posts(run: seq<State>, who: seq<nat>, i: nat)
    requires i < |who| < |run|
  {
    who[i] in run[i].pc && run[i].pc[who[i]] == Posting
  }

  /** Step i ends a semaphore_wait or semaphore_trywait that has taken a unit. */
  ghost predicate Takes(run: seq<State>, who: seq<nat>, i: nat)
    requires i < |who| < |run|
  {
    who[i] in run[i + 1].pc && run[i + 1].pc[who[i]] == Acquired
  }

  /** Step i is a post that finds the count at its maximum. */
  ghost predicate Wraps(run: seq<State>, who: seq<nat>, i: nat)
    requires i < |who| < |run|
  {
    Posts(run, who, i) && run[i].count == WORD - 1
  }

  ghost function PostCount(run: seq<State>, who: seq<nat>, i: nat): nat
    requires i <= |who| < |run|
  {
    if i == 0 then 0 else PostCount(run, who, i - 1) + if Posts(run, who, i - 1) then 1 else 0
  }

  ghost function TakeCount(run: seq<State>, who: seq<nat>, i: nat): nat
    requires i <= |who| < |run|
  {
    if i == 0 then 0 else TakeCount(run, who, i - 1) + if Takes(run, who, i - 1) then 1 else 0
  }

  ghost function WrapCount(run: seq<State>, who: seq<nat>, i: nat): (n: nat)
    requires i <= |who| < |run|
    ensures n == 0 <==> forall j :: 0 <= j < i ==> !Wraps(run, who, j)
  {
    if i == 0 then 0 else WrapCount(run, who, i - 1) + if Wraps(run, who, i - 1) then 1 else 0
  }

  lemma StepUnits(run: seq<State>, who: seq<nat>, i: nat)
    requires Run(run, who) && i < |who| && run[i].count < WORD
    ensures run[i + 1].count + (if Takes(run, who, i) then 1 else 0) + (if Wraps(run, who, i) then WORD else 0) ==
      run[i].count + if Posts(run, who, i) then 1 else 0
  {
    assert Step(run[i], who[i], run[i + 1]);
  }

  lemma {:induction false} Units(run: seq<State>, who: seq<nat>, i: nat)
    requires Run(run, who) && i < |run|
    ensures run[i].count + TakeCount(run, who, i) + WORD * WrapCount(run, who, i) == run[0].count + PostCount(run, who, i)
  {
    hide Step, Takes, Posts, Wraps;
    if i > 0 {
      Units(run, who, i - 1);
      RunKeeps(run, who, i - 1);
      StepUnits(run, who, i - 1);
    }
  }

  /** Nothing gets lost unless the count overflows: count plus successful waits is the initial count plus the posts
      exactly if no post has found the count at its maximum; and there are never more successes than units. */
  lemma {:induction false} Conservation(run: seq<State>, who: seq<nat>, i: nat)
    requires Run(run, who) && i < |run|
    ensures run[i].count + TakeCount(run, who, i) == run[0].count + PostCount(run, who, i) <==>
      forall j :: 0 <= j < i ==> !Wraps(run, who, j)
    ensures TakeCount(run, who, i) <= run[0].count + PostCount(run, who, i)
    ensures (run[i].count + TakeCount(run, who, i)) % WORD == (run[0].count + PostCount(run, who, i)) % WORD
  {
    assert |run| == |who| + 1;
    hide *;
    Units(run, who, i);
    Balance(run[i].count + TakeCount(run, who, i), run[0].count + PostCount(run, who, i), WrapCount(run, who, i));
  }

  lemma Balance(a: nat, b: nat, k: nat)
    requires a + WORD * k == b
    ensures (a == b <==> k == 0) && a <= b && a % WORD == b % WORD
  {
    ModWraps(a, k);
  }

  lemma ModWraps(a: nat, k: nat)
    ensures (a + WORD * k) % WORD == a % WORD
  {
    if k > 0 {
      ModWraps(a, k - 1);
      assert a + WORD * k == (a + WORD * (k - 1)) + WORD;
    }
  }

  /** A post that finds the count at its maximum loses every unit at once. */
  lemma Overflow(t: nat) returns (run: seq<State>, who: seq<nat>)
    ensures Run(run, who) && |who| == 2 && run[0].count == WORD - 1
    ensures PostCount(run, who, 2) == 1 && TakeCount(run, who, 2) == run[2].count == 0
  {
    var s := State(WORD - 1, 0, map[t := Idle]);
    var s1 := Goto(s, t, Posting);
    run, who := [s, s1, Goto(s1.(count := 0), t, Idle)], [t, t];
    assert |s.pc| == 1;
    assert !Posts(run, who, 0) && Posts(run, who, 1) && !Takes(run, who, 0) && !Takes(run, who, 1);
    assert PostCount(run, who, 1) == TakeCount(run, who, 1) == 0;
  }

  // ---------------------------------------------------------------- what each call does

  ghost predicate Ready(p: Pc) {
    p == Idle || p == Acquired || p == Refused
  }

  /** In semaphore_wait or semaphore_trywait. */
  ghost predicate Within(p: Pc) {
    p.Trying? || p.Taking? || p == Loading || p.Announcing? || Counted(p)
  }

  ghost predicate Blocking(p: Pc) {
    (p.Trying? || p.Taking? ==> p.blocking) && Within(p)
  }

  /** Whatever the others do, a call ends by taking a unit, or by refusal when there is none; semaphore_wait is never
      refused, and refusal leaves everything as it was. */
  lemma EndsRightly(s: State, t: nat, s1: State)
    requires Step(s, t, s1) && Within(s.pc[t]) && !Within(s1.pc[t])
    ensures if s1.pc[t] == Acquired then s.count > 0 && s1 == Goto(s.(count := s.count - 1), t, Acquired)
            else s.count == 0 && !Blocking(s.pc[t]) && s1 == Goto(s, t, Refused)
  {
  }

  /** Within a call the kind of the call stays. */
  lemma StaysBlocking(s: State, t: nat, s1: State)
    requires Step(s, t, s1) && Within(s.pc[t]) && Within(s1.pc[t])
    ensures Blocking(s1.pc[t]) == Blocking(s.pc[t])
  {
  }

  /** Another thread's step does nothing to a thread but wake it. */
  lemma OthersOnlyWake(s: State, t: nat, s1: State, u: nat)
    requires Step(s, t, s1) && u in s.pc && u != t
    ensures u in s1.pc && (s1.pc[u] == s.pc[u] || (s.pc[t] == Waking && s.pc[u] == Asleep && s1.pc[u] == Leaving))
  {
  }

  /** Undisturbed, both functions take a unit in two steps if there is one. */
  lemma TakesAlone(s: State, t: nat, s1: State, s2: State)
    requires s.count > 0 && t in s.pc && s.pc[t].Trying? && Step(s, t, s1) && Step(s1, t, s2)
    ensures s2 == Goto(s.(count := s.count - 1), t, Acquired)
  {
  }

  /** Undisturbed, semaphore_wait can only announce itself and fall asleep if there is no unit. */
  lemma FallsAsleep(s: State, t: nat) returns (s1: State, s2: State, s3: State)
    requires Inv(s) && s.count == 0 && t in s.pc && s.pc[t] == Trying(true)
    ensures Step(s, t, s1) && Step(s1, t, s2) && Step(s2, t, s3) && Step(s3, t, State(0, s.waiting + 1, s.pc[t := Asleep]))
    ensures forall r :: Step(s, t, r) ==> r == s1
    ensures forall r :: Step(s1, t, r) ==> r == s1 || r == s2
    ensures forall r :: Step(s2, t, r) ==> r == s3
  {
    Moved(s, t, Idle);
    s1 := Goto(s, t, Loading);
    s2 := Goto(s, t, Announcing(s.waiting));
    s3 := Goto(s.(waiting := s.waiting + 1), t, Waiting);
  }

  /** A thread that is done can make each call again. */
  lemma CanCall(s: State, t: nat)
    requires t in s.pc && Ready(s.pc[t])
    ensures Step(s, t, Goto(s, t, Trying(false))) && Step(s, t, Goto(s, t, Trying(true))) && Step(s, t, Goto(s, t, Posting))
  {
  }

  /** Undisturbed, a post adds one unit with its first step, which is the only one if there were units; otherwise the second
      one is the last one if nobody is announced. */
  lemma PostsAlone(s: State, t: nat, s1: State, s2: State)
    requires t in s.pc && s.pc[t] == Posting && s.count + 1 < WORD && Step(s, t, s1) && Step(s1, t, s2)
    ensures s.count > 0 ==> s1 == Goto(s.(count := s.count + 1), t, Idle)
    ensures s.count == 0 && s.waiting == 0 ==> s2 == State(1, 0, s.pc[t := Idle])
    ensures s.count == 0 && s.waiting > 0 ==> s2 == State(1, s.waiting, s.pc[t := Waking])
  {
    if s.count == 0 {
      assert s1 == State(1, s.waiting, s.pc[t := Posted]);
      assert s2.pc == s.pc[t := s2.pc[t]];
    }
  }

  /** Undisturbed, it wakes everybody with its third step. */
  lemma PostWakes(s: State, t: nat, s1: State)
    requires Numbers(s) && Step(s, t, s1) && s.pc[t] == Waking
    ensures s1 == Woken(s, Sleepers(s), t) && Sleepers(s1) == {}
  {
    StepWakes(s, t, s1);
    var w :| w <= Sleepers(s) && |w| == Min(WAKE_ALL, |Sleepers(s)|) && s1 == Woken(s, w, t);
    AllWoken(s, w);
  }

  // ---------------------------------------------------------------- sleepers

  /** A thread sleeps while there is something to take only as long as some poster has yet to wake everybody. */
  lemma NoLostWakeup(run: seq<State>, who: seq<nat>, i: nat, t: nat)
    requires Run(run, who) && i < |run| && run[i].count > 0 && t in run[i].pc && run[i].pc[t] == Asleep
    ensures exists u :: Pending(run[i], u)
  {
    RunKeeps(run, who, i);
    assert t in Sleepers(run[i]);
  }

  /** That poster needs at most two more steps, and then nobody sleeps. */
  lemma SleepEnds(run: seq<State>, who: seq<nat>, i: nat, t: nat) returns (u: nat, s1: State, s2: State)
    requires Run(run, who) && i < |run| && run[i].count > 0 && t in run[i].pc && run[i].pc[t] == Asleep
    ensures (s1 == run[i] || Step(run[i], u, s1)) && Step(s1, u, s2) && Sleepers(s2) == {}
  {
    RunKeeps(run, who, i);
    NoLostWakeup(run, who, i, t);
    var s := run[i];
    u :| Pending(s, u);
    assert t in Sleepers(s);
    SleepersAnnounced(s, t);
    s1 := if s.pc[u] == Posted then Goto(s, u, Waking) else s;
    if s.pc[u] == Posted {
      StepNumbers(s, u, s1);
    }
    s2 := Woken(s1, Sleepers(s1), u);
    WakerSteps(s1, u);
  }

  lemma WakerSteps(s: State, u: nat)
    requires Numbers(s) && u in s.pc && s.pc[u] == Waking
    ensures Step(s, u, Woken(s, Sleepers(s), u)) && Sleepers(Woken(s, Sleepers(s), u)) == {}
  {
    MapSize(s.pc);
    CountSub(Sleepers(s), s.pc.Keys);
    WakeNumbers(s, u, Sleepers(s));
  }
}
