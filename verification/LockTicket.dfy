/** The ticket lock with try_lock, for any number of threads: every atomic operation is one step. */
module LockTicket {
  import opened LockSets

  /** The counters are 32 bits wide. */
  const WORD: int := 0x1_0000_0000

  /** What a thread does next. Tickets are recorded as they would be without wrap-around; the code sees them
      modulo WORD. from and drawn are the numbers of served and drawn tickets at the two loads of try_lock. */
  datatype Pc =
    | Idle
    | Spinning(ticket: nat, value: nat)                   // load of cur
    | Critical(ticket: nat)                               // load of cur in unlock
    | Storing(ticket: nat, value: nat)                    // store of cur
    | TryNext(expected: nat, from: nat)                   // load of next in try_lock
    | TrySwap(expected: nat, desired: nat, from: nat, drawn: nat)   // compare-and-swap of next

  /** The two counters and the threads; served and drawn are the counters without wrap-around. */
  datatype State = State(cur: nat, next: nat, pc: map<nat, Pc>, served: nat, drawn: nat)

  ghost function Goto(s: State, t: nat, p: Pc): State {
    s.(pc := s.pc[t := p])
  }

  ghost predicate Step(s: State, t: nat, s1: State) {
    t in s.pc &&
    match s.pc[t]
    case Idle =>
      s1 == Goto(s.(next := (s.next + 1) % WORD, drawn := s.drawn + 1), t, Spinning(s.drawn, s.next)) ||
      s1 == Goto(s, t, TryNext(s.cur, s.served))
    case Spinning(ticket, value) => s1 == if s.cur == value then Goto(s, t, Critical(ticket)) else s
    case Critical(ticket) => s1 == Goto(s, t, Storing(ticket, (s.cur + 1) % WORD))
    case Storing(ticket, value) => s1 == Goto(s.(cur := value, served := s.served + 1), t, Idle)
    case TryNext(expected, from) => s1 == Goto(s, t, TrySwap(expected, (s.next + 1) % WORD, from, s.drawn))
    case TrySwap(expected, desired, from, drawn) =>
      s1 == if s.next == expected then Goto(s.(next := desired, drawn := s.drawn + 1), t, Critical(s.drawn)) else Goto(s, t, Idle)
  }

  ghost predicate Start(s: State) {
    s.cur == s.next == s.served == s.drawn == 0 && |s.pc| < WORD && forall t :: t in s.pc ==> s.pc[t] == Idle
  }

  /** Steps from any state on; who[i] takes step i. */
  ghost predicate Steps(run: seq<State>, who: seq<nat>) {
    |run| == |who| + 1 && forall i :: 0 <= i < |who| ==> Step(run[i], who[i], run[i + 1])
  }

  ghost predicate Run(run: seq<State>, who: seq<nat>) {
    Steps(run, who) && Start(run[0])
  }

  /** If the thread is at its compare-and-swap, fewer than 2^32 tickets have been drawn since it read cur. */
  ghost predicate Fresh(s: State, t: nat) {
    t in s.pc && s.pc[t].TrySwap? ==> s.drawn - s.pc[t].from < WORD
  }

  ghost predicate InLock(p: Pc) {
    p.Spinning? || p.Critical? || p.Storing?
  }

  ghost predicate Holding(p: Pc) {
    p.Critical? || p.Storing?
  }

  ghost function Lockers(s: State): set<nat> {
    set t | t in s.pc && InLock(s.pc[t])
  }

  ghost predicate Counters(s: State) {
    |s.pc| < WORD && s.cur == s.served % WORD && s.next == s.drawn % WORD && s.served <= s.drawn &&
    |Lockers(s)| == s.drawn - s.served
  }

  /** What is known about the ticket and the loaded values of one thread. */
  ghost predicate Sane(s: State, p: Pc) {
    (InLock(p) ==> s.served <= p.ticket < s.drawn) && (Holding(p) ==> p.ticket == s.served) &&
    (p.Spinning? ==> p.value == p.ticket % WORD) && (p.Storing? ==> p.value == (s.served + 1) % WORD) &&
    (p.TryNext? ==> p.expected == p.from % WORD && p.from <= s.served) &&
    (p.TrySwap? ==> p.expected == p.from % WORD && p.desired == (p.drawn + 1) % WORD && p.from <= s.served && p.from <= p.drawn <= s.drawn)
  }

  ghost predicate Unique(s: State) {
    forall t, u :: t in s.pc && u in s.pc && t != u && InLock(s.pc[t]) && InLock(s.pc[u]) ==> s.pc[t].ticket != s.pc[u].ticket
  }

  ghost predicate Inv(s: State) {
    Counters(s) && (forall t :: t in s.pc ==> Sane(s, s.pc[t])) && Unique(s)
  }

  lemma Initially(s: State)
    requires Start(s)
    ensures Inv(s)
  {
    assert Lockers(s) == {};
  }

  lemma Moved(s: State, t: nat, p: Pc)
    requires t in s.pc
    ensures var s1 := Goto(s, t, p);
      |s1.pc| == |s.pc| && |Lockers(s1)| == |Lockers(s)| + (if InLock(p) then 1 else 0) - (if InLock(s.pc[t]) then 1 else 0)
    ensures |Lockers(s)| <= |s.pc|
  {
    var s1 := Goto(s, t, p);
    assert s1.pc.Keys == s.pc.Keys;
    assert |s.pc| == |s.pc.Keys| && |s1.pc| == |s1.pc.Keys|;
    CountOne(Lockers(s), Lockers(s1), t);
    CountSub(Lockers(s), s.pc.Keys);
  }

  lemma SameResidue(a: nat, b: nat)
    requires a <= b < a + WORD && a % WORD == b % WORD
    ensures a == b
  {
  }

  lemma NextResidue(a: nat)
    ensures (a % WORD + 1) % WORD == (a + 1) % WORD
  {
  }

  /** Fewer tickets are out than there are 32-bit values. */
  lemma FewTickets(s: State, t: nat)
    requires Counters(s) && t in s.pc
    ensures s.drawn - s.served < WORD
  {
    Moved(s, t, s.pc[t]);
  }

  /** The new counters and the number of threads in the lock after thread t has moved. */
  lemma CountersAfter(s: State, t: nat, s1: State)
    requires Counters(s) && t in s.pc && t in s1.pc && s1.pc == s.pc[t := s1.pc[t]]
    requires s1.cur == s1.served % WORD && s1.next == s1.drawn % WORD && s1.served <= s1.drawn
    requires s1.drawn - s1.served == s.drawn - s.served + (if InLock(s1.pc[t]) then 1 else 0) - (if InLock(s.pc[t]) then 1 else 0)
    ensures Counters(s1)
  {
    Moved(s, t, s1.pc[t]);
    assert Lockers(s1) == Lockers(Goto(s, t, s1.pc[t]));
  }

  lemma StepDraw(s: State, t: nat, s1: State)
    requires Inv(s) && Step(s, t, s1) && s.pc[t] == Idle
    ensures Inv(s1)
  {
    NextResidue(s.drawn);
    CountersAfter(s, t, s1);
    hide Counters;
  }

  lemma StepSpin(s: State, t: nat, s1: State)
    requires Inv(s) && Step(s, t, s1) && s.pc[t].Spinning?
    ensures Inv(s1)
  {
    if s1 != s {
      FewTickets(s, t);
      SameResidue(s.served, s.pc[t].ticket);
      CountersAfter(s, t, s1);
      hide Counters;
    }
  }

  lemma StepUnlock(s: State, t: nat, s1: State)
    requires Inv(s) && Step(s, t, s1) && Holding(s.pc[t])
    ensures Inv(s1)
  {
    NextResidue(s.served);
    CountersAfter(s, t, s1);
    hide Counters;
    forall u | u in s1.pc ensures Sane(s1, s1.pc[u]) {
      assert Sane(s, s.pc[u]);
    }
  }

  lemma StepTryLoad(s: State, t: nat, s1: State)
    requires Inv(s) && Step(s, t, s1) && s.pc[t].TryNext?
    ensures Inv(s1)
  {
    NextResidue(s.drawn);
    CountersAfter(s, t, s1);
    hide Counters;
  }

  lemma StepTryFails(s: State, t: nat, s1: State)
    requires Inv(s) && Step(s, t, s1) && s.pc[t].TrySwap? && s.next != s.pc[t].expected
    ensures Inv(s1)
  {
    CountersAfter(s, t, s1);
    hide Counters;
  }

  /** Exactly when a successful compare-and-swap of try_lock is right: the lock is free, and no ticket has been
      drawn since next was read, up to wrap-around. */
  lemma TrySucceeds(s: State, t: nat, s1: State)
    requires Inv(s) && Step(s, t, s1) && s.pc[t].TrySwap? && s.next == s.pc[t].expected
    ensures Inv(s1) <==> s.served == s.drawn && s.pc[t].desired == (s.drawn + 1) % WORD
  {
    if s.served == s.drawn && s.pc[t].desired == (s.drawn + 1) % WORD {
      CountersAfter(s, t, s1);
      hide Counters;
    } else {
      assert s1.pc[t] == Critical(s.drawn);
    }
  }

  /** Threads with different tickets from lo on and below hi are no more than there are such tickets. */
  lemma {:induction false} TicketsBound(s: State, threads: set<nat>, lo: nat, hi: nat)
    requires lo <= hi && Unique(s) && forall t :: t in threads ==> t in s.pc && InLock(s.pc[t]) && lo <= s.pc[t].ticket < hi
    ensures |threads| <= hi - lo
    decreases hi
  {
    if lo == hi {
      assert threads == {};
    } else if last :| last in threads && s.pc[last].ticket == hi - 1 {
      TicketsBound(s, threads - {last}, lo, hi - 1);
      CountOne(threads, threads - {last}, last);
    } else {
      TicketsBound(s, threads, lo, hi - 1);
    }
  }

  /** While tickets are out, some thread has the one that is served. */
  lemma ServedOne(s: State) returns (u: nat)
    requires Inv(s) && s.served < s.drawn
    ensures u in Lockers(s) && s.pc[u].ticket == s.served
  {
    if forall t :: t in Lockers(s) ==> s.pc[t].ticket != s.served {
      forall t | t in Lockers(s) ensures s.served + 1 <= s.pc[t].ticket < s.drawn {
        assert Sane(s, s.pc[t]);
      }
      TicketsBound(s, Lockers(s), s.served + 1, s.drawn);
      assert false;
    }
    u :| u in Lockers(s) && s.pc[u].ticket == s.served;
  }

  /** The thread has the lock, or its next load of cur gives it the lock. */
  ghost predicate Enters(s: State, u: nat) {
    u in s.pc && (Holding(s.pc[u]) || (s.pc[u].Spinning? && exists s1 :: Step(s, u, s1) && Holding(s1.pc[u])))
  }

  /** A successful compare-and-swap of try_lock lets in a second thread exactly if tickets are out. */
  lemma TryIntrudes(s: State, t: nat, s1: State)
    requires Inv(s) && Step(s, t, s1) && s.pc[t].TrySwap? && s.next == s.pc[t].expected
    ensures Holding(s1.pc[t])
    ensures s.served < s.drawn <==> exists u :: u != t && Enters(s1, u)
  {
    if s.served < s.drawn {
      var u := ServedOne(s);
      assert Sane(s, s.pc[u]);
      if s.pc[u].Spinning? {
        assert Step(s1, u, Goto(s1, u, Critical(s.served)));
      }
      assert u != t && Enters(s1, u);
    } else {
      assert Lockers(s) == {};
      forall u | u != t ensures !Enters(s1, u) {
        assert u !in Lockers(s);
      }
    }
  }

  lemma FreshSucceeds(s: State, t: nat)
    requires Inv(s) && t in s.pc && s.pc[t].TrySwap? && s.next == s.pc[t].expected && Fresh(s, t)
    ensures s.served == s.drawn && s.pc[t].desired == (s.drawn + 1) % WORD
  {
    SameResidue(s.pc[t].from, s.drawn);
  }

  lemma StepKeeps(s: State, t: nat, s1: State)
    requires Inv(s) && Step(s, t, s1) && Fresh(s, t)
    ensures Inv(s1)
  {
    assert t in s.pc;
    hide Inv, Fresh, Step;
    match s.pc[t]
    case Idle => StepDraw(s, t, s1);
    case Spinning(_, _) => StepSpin(s, t, s1);
    case Critical(_) => StepUnlock(s, t, s1);
    case Storing(_, _) => StepUnlock(s, t, s1);
    case TryNext(_, _) => StepTryLoad(s, t, s1);
    case TrySwap(_, _, _, _) =>
      if s.next == s.pc[t].expected {
        FreshSucceeds(s, t);
        TrySucceeds(s, t, s1);
      } else {
        StepTryFails(s, t, s1);
      }
  }

  lemma {:induction false} RunKeeps(run: seq<State>, who: seq<nat>, i: nat)
    requires Run(run, who) && i < |run| && forall j :: 0 <= j < i ==> Fresh(run[j], who[j])
    ensures Inv(run[i])
  {
    hide Inv;
    if i == 0 {
      Initially(run[0]);
    } else {
      RunKeeps(run, who, i - 1);
      StepKeeps(run[i - 1], who[i - 1], run[i]);
    }
  }

  /** Mutual exclusion, in spite of the wrap-around, unless some try_lock is overtaken by 2^32 tickets. */
  lemma MutualExclusion(run: seq<State>, who: seq<nat>, i: nat, t: nat, u: nat)
    requires Run(run, who) && i < |run| && forall j :: 0 <= j < i ==> Fresh(run[j], who[j])
    requires t in run[i].pc && u in run[i].pc && Holding(run[i].pc[t]) && Holding(run[i].pc[u])
    ensures t == u
  {
    RunKeeps(run, who, i);
    assert Sane(run[i], run[i].pc[t]) && Sane(run[i], run[i].pc[u]);
  }

  /** Tickets are served in the order in which they were drawn: the holder has the next one. */
  lemma InOrder(run: seq<State>, who: seq<nat>, i: nat, t: nat)
    requires Run(run, who) && i < |run| && forall j :: 0 <= j < i ==> Fresh(run[j], who[j])
    requires t in run[i].pc && Holding(run[i].pc[t])
    ensures run[i].pc[t].ticket == run[i].served
    ensures forall u :: u in run[i].pc && run[i].pc[u].Spinning? ==> run[i].pc[u].ticket > run[i].pc[t].ticket
  {
    RunKeeps(run, who, i);
    var s := run[i];
    forall u | u in s.pc && s.pc[u].Spinning? ensures s.pc[u].ticket > s.pc[t].ticket {
      assert Sane(s, s.pc[u]) && Sane(s, s.pc[t]);
    }
  }

  // ---------------------------------------------------------------- what each call does

  /** Both calls can be made. Undisturbed on a free lock, ticketlock_lock has it after two steps and ticketlock_try_lock
      after three. */
  lemma TakesAlone(s: State, t: nat, s1: State, s2: State, s3: State)
    requires Inv(s) && s.served == s.drawn && t in s.pc && s.pc[t] == Idle
    requires Step(s, t, s1) && Step(s1, t, s2) && Step(s2, t, s3)
    ensures (if s1.pc[t].Spinning? then s2 else s3) == State(s.cur, (s.next + 1) % WORD, s.pc[t := Critical(s.served)], s.served, s.drawn + 1)
    ensures (exists r :: Step(s, t, r) && r.pc[t].Spinning?) && exists r :: Step(s, t, r) && r.pc[t].TryNext?
  {
    assert Step(s, t, Goto(s, t, TryNext(s.cur, s.served)));
    assert Step(s, t, Goto(s.(next := (s.next + 1) % WORD, drawn := s.drawn + 1), t, Spinning(s.drawn, s.next)));
    if s1.pc[t].Spinning? {
      assert s2.pc == s.pc[t := Critical(s.served)];
    } else {
      assert s3.pc == s.pc[t := Critical(s.served)];
    }
  }

  /** Whatever the others do, ticketlock_try_lock fails only if a ticket had been drawn that was not served when it began. */
  lemma TryFailsRightly(s: State, t: nat, s1: State)
    requires Inv(s) && Step(s, t, s1) && (s.pc[t].TryNext? || s.pc[t].TrySwap?) && s1.pc[t] == Idle
    ensures s1 == Goto(s, t, Idle) && s.pc[t].from < s.drawn
  {
    assert Sane(s, s.pc[t]);
  }

  /** Whatever the others do, ticketlock_lock ends only with the lock when its ticket is served. */
  lemma LockEndsServed(s: State, t: nat, s1: State)
    requires Inv(s) && Step(s, t, s1) && s.pc[t].Spinning?
    ensures s1 == if s.pc[t].ticket == s.served then Goto(s, t, Critical(s.served)) else s
  {
    assert Sane(s, s.pc[t]);
    FewTickets(s, t);
    if s.cur == s.pc[t].value {
      SameResidue(s.served, s.pc[t].ticket);
    }
  }

  /** Undisturbed, ticketlock_try_lock fails on a lock in use and leaves it as it was. */
  lemma TryFailsAlone(s: State, t: nat, s1: State, s2: State, s3: State)
    requires Inv(s) && s.served < s.drawn && t in s.pc && s.pc[t] == Idle && s1.pc.Keys == s.pc.Keys && s1.pc[t].TryNext?
    requires Step(s, t, s1) && Step(s1, t, s2) && Step(s2, t, s3)
    ensures s3 == s
  {
    FewTickets(s, t);
    if s.cur == s.next {
      SameResidue(s.served, s.drawn);
    }
    assert s3.pc == s.pc;
  }

  /** Undisturbed, ticketlock_unlock serves the next ticket with its second step. */
  lemma UnlockServes(s: State, t: nat, s1: State, s2: State)
    requires Inv(s) && t in s.pc && s.pc[t].Critical? && Step(s, t, s1) && Step(s1, t, s2)
    ensures s2 == State((s.served + 1) % WORD, s.next, s.pc[t := Idle], s.served + 1, s.drawn)
    ensures forall u :: u in s.pc && s.pc[u].Spinning? && s.pc[u].ticket == s.served + 1 ==> Enters(s2, u)
  {
    NextResidue(s.served);
    assert s2.pc == s.pc[t := Idle];
    forall u | u in s.pc && s.pc[u].Spinning? && s.pc[u].ticket == s.served + 1 ensures Enters(s2, u) {
      assert Sane(s, s.pc[u]);
      assert Step(s2, u, Goto(s2, u, Critical(s.served + 1)));
    }
  }

  // ---------------------------------------------------------------- the run that breaks it

  lemma Joined(run: seq<State>, who: seq<nat>, more: seq<State>, moreWho: seq<nat>)
    requires Steps(run, who) && Steps(more, moreWho) && run[|who|] == more[0]
    ensures Steps(run + more[1..], who + moreWho)
    ensures (run + more[1..])[|who + moreWho|] == more[|moreWho|] && (run + more[1..])[0] == run[0]
  {
    var r, w := run + more[1..], who + moreWho;
    forall i | 0 <= i < |w| ensures Step(r[i], w[i], r[i + 1]) {
      if i < |who| {
        assert Step(run[i], who[i], run[i + 1]);
      } else {
        assert Step(more[i - |who|], moreWho[i - |who|], more[i - |who| + 1]);
      }
    }
  }

  /** Two threads: 0 has begun try_lock, 1 does nothing, and n tickets have been served. */
  ghost function Paused(n: nat): State {
    State(n % WORD, n % WORD, map[0 := TryNext(0, 0), 1 := Idle], n, n)
  }

  /** Thread 1 locks and unlocks once. */
  lemma Round(n: nat) returns (run: seq<State>, who: seq<nat>)
    ensures Steps(run, who) && run[0] == Paused(n) && run[|who|] == Paused(n + 1)
  {
    var s := Paused(n);
    var s1 := Goto(s.(next := (s.next + 1) % WORD, drawn := n + 1), 1, Spinning(n, s.next));
    var s2 := Goto(s1, 1, Critical(n));
    var s3 := Goto(s2, 1, Storing(n, (s.cur + 1) % WORD));
    var s4 := Goto(s3.(cur := (s.cur + 1) % WORD, served := n + 1), 1, Idle);
    NextResidue(n);
    assert s4.pc == Paused(n + 1).pc;
    run, who := [s, s1, s2, s3, s4], [1, 1, 1, 1];
  }

  lemma {:induction false} Rounds(n: nat) returns (run: seq<State>, who: seq<nat>)
    ensures Steps(run, who) && run[0] == Paused(0) && run[|who|] == Paused(n)
  {
    if n == 0 {
      run, who := [Paused(0)], [];
    } else {
      run, who := Rounds(n - 1);
      var more, moreWho := Round(n - 1);
      Joined(run, who, more, moreWho);
      run, who := run + more[1..], who + moreWho;
    }
  }

  /** A try_lock that sleeps between its two loads while the lock is taken 2^32 times succeeds on a held lock. */
  lemma Overtaken() returns (run: seq<State>, who: seq<nat>)
    ensures Run(run, who)
    ensures var s := run[|who|]; 0 in s.pc && 1 in s.pc && Holding(s.pc[0]) && Holding(s.pc[1])
  {
    var start := State(0, 0, map[0 := Idle, 1 := Idle], 0, 0);
    var begun := Paused(0);
    assert begun == Goto(start, 0, TryNext(0, 0));
    run, who := Rounds(WORD - 1);
    Joined([start, begun], [0], run, who);
    run, who := [start, begun] + run[1..], [0] + who;
    var more, moreWho := Caught();
    Joined(run, who, more, moreWho);
    run, who := run + more[1..], who + moreWho;
    assert |start.pc| == 2;
  }

  lemma Caught() returns (run: seq<State>, who: seq<nat>)
    ensures Steps(run, who) && run[0] == Paused(WORD - 1)
    ensures var s := run[|who|]; 0 in s.pc && 1 in s.pc && Holding(s.pc[0]) && Holding(s.pc[1])
  {
    var s := Paused(WORD - 1);
    var s1 := Goto(s.(next := 0, drawn := WORD), 1, Spinning(WORD - 1, WORD - 1));
    var s2 := Goto(s1, 1, Critical(WORD - 1));
    var s3 := Goto(s2, 0, TrySwap(0, 1, 0, WORD));
    var s4 := Goto(s3.(next := 1, drawn := WORD + 1), 0, Critical(WORD));
    run, who := [s, s1, s2, s3, s4], [1, 1, 0, 0];
  }
}
