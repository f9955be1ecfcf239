/** What ends a call of waitpid, getc or gets, over whole runs, and how children are numbered. */
module Waiting {
  import opened Bits
  import opened Options
  import opened Procs
  import opened Lifecycle
  import opened Runs
  import opened Timing
  import opened ProcList

  // ----- kin -----

  /** Process c is a child of p, and its number is n. */
  predicate IsChild(s: State, c: nat, p: nat, n: Word) {
    c < |s.procs| && s.procs[c].parent == Some(p) && s.procs[c].ppid == n
  }

  /** In this step the child of p with number n exits. */
  predicate ChildExits(s: State, e: Event, p: nat, n: Word) {
    e == Exit && s.cur.Some? && IsChild(s, s.cur.value, p, n)
  }

  /** The running process after a step other than an exit. */
  lemma OwnStep(s: State, e: Event)
    requires Inv(s) && Up(s) && Can(s, e) && e != Exit
    ensures var c := s.cur.value;
      && c < |s.procs| && c < |Do(s, e).procs| && Do(s, e).procs[c].status != ZOMBIE
      && Do(s, e).procs[c].parent == s.procs[c].parent && Do(s, e).procs[c].ppid == s.procs[c].ppid
      && (|Do(s, e).procs| == |s.procs| ==> Do(s, e).procs[c].childCount == s.procs[c].childCount)
  {
    hide Inv, Slept, Scheduled, LinkIn, Closed, Exited;
    RunningWaits(s);
    InRing(s);
    ProcsGrow(s, e);
    match e {
      case Timer => ScheduledProcs(s, s.cur.value);
      case Fork => CreatedData(s);
      case ExecExtern(found) => CreatedData(s);
      case Usleep(us) => SleptOwn(s, us / (1000000 / PIT_FREQ));
      case Waitpid(n) => PausedOwn(s);
      case Getc => PausedOwn(s);
      case Gets => PausedOwn(s);
      case Key(_) =>
      case Spawn => CreatedData(s);
    }
    hide Created, Paused;
  }

  /** The running process goes to sleep without a timeout. */
  lemma PausedOwn(s: State)
    requires Inv(s) && Up(s)
    ensures var c := s.cur.value;
      && c < |s.procs| && |Paused(s).procs| == |s.procs| && Paused(s).procs[c] == s.procs[c].(status := SLEEP)
      && Paused(s).waiter == s.waiter != s.cur && s.procs[c].ticks == NEVER
  {
    hide Inv, Slept, Paused, Closed;
    RunningWaits(s);
    InRing(s);
    PausedIsSlept(s);
    SleptOwn(s, NEVER);
    hide Up;
  }

  /** A process that is not running keeps its kin, and does not exit. */
  lemma OtherKin(s: State, e: Event, x: nat)
    requires Inv(s) && Up(s) && Can(s, e) && x < |s.procs| && s.cur != Some(x)
    ensures x < |Do(s, e).procs| && SameKin(s.procs[x], Do(s, e).procs[x])
  {
    hide Inv, Slept, Scheduled, LinkIn, Closed, Exited, Ended, Waits, Reads;
    ProcsGrow(s, e);
    if e == Exit {
      ExitedProc(s, x);
    } else if Passes(s, e) {
      OtherPass(s, e, x);
    } else {
      StillKin(s, e, x);
    }
  }

  lemma StillKin(s: State, e: Event, x: nat)
    requires Inv(s) && Up(s) && Can(s, e) && x < |s.procs| && s.cur != Some(x) && !Passes(s, e)
    ensures x < |Do(s, e).procs| && SameKin(s.procs[x], Do(s, e).procs[x])
  {
    hide Inv, Created, Born;
    ProcsGrow(s, e);
    match e {
      case Fork => BornOther(s, x);
      case ExecExtern(found) => BornOther(s, x);
      case Spawn => CreatedData(s);
      case _ =>
    }
  }

  /** Parent and number never change, and only its own exit makes a process a zombie. */
  lemma KinStep(s: State, e: Event, x: nat)
    requires Inv(s) && Up(s) && Can(s, e) && x < |s.procs|
    ensures x < |Do(s, e).procs|
    ensures Do(s, e).procs[x].parent == s.procs[x].parent && Do(s, e).procs[x].ppid == s.procs[x].ppid
    ensures Do(s, e).procs[x].status == ZOMBIE <==> s.procs[x].status == ZOMBIE || (e == Exit && s.cur == Some(x))
  {
    hide Inv, Do, Up, Can, Closed, Waits, Passes, ChildWakes, KeyWakes;
    if s.cur != Some(x) {
      OtherKin(s, e, x);
      OtherStep(s, e, x);
    } else if e == Exit {
      OwnExit(s);
    } else {
      RunningWaits(s);
      OwnStep(s, e);
    }
  }

  lemma OwnExit(s: State)
    requires Inv(s) && Up(s) && Can(s, Exit)
    ensures var c := s.cur.value;
      && c < |s.procs| && c < |Do(s, Exit).procs| && SameKin(s.procs[c], Do(s, Exit).procs[c])
      && Do(s, Exit).procs[c].status == ZOMBIE
  {
    hide Inv, Closed, Exited, Waits, Reads;
    RunningWaits(s);
    ExitedProc(s, s.cur.value);
    ProcsGrow(s, Exit);
  }

  // ----- waitpid -----

  /** The process is asleep until its child with number n exits. */
  predicate Awaits(s: State, p: nat, n: Word) {
    && p < |s.procs| && s.procs[p].status == SLEEP && s.procs[p].ticks == NEVER && s.procs[p].waitpid == n
    && s.waiter != Some(p)
  }

  lemma AwaitStart(s: State, n: Word)
    requires Inv(s) && Up(s) && Can(s, Waitpid(n))
    ensures Awaits(Do(s, Waitpid(n)), s.cur.value, n)
  {
    hide Inv, Closed, Paused;
    PausedOwn(s);
  }

  lemma AwaitStep(s: State, e: Event, p: nat, n: Word)
    requires Inv(s) && Up(s) && Can(s, e) && Awaits(s, p, n)
    ensures s.cur != Some(p) && p < |Do(s, e).procs|
    ensures if ChildExits(s, e, p, n) then Do(s, e).procs[p].status == ACTIVE && Do(s, e).procs[p].waitpid == NEVER
      else Awaits(Do(s, e), p, n)
  {
    hide Inv, Do, Can, Up, Closed;
    ChildWaker(s, e, p);
    RunningWaits(s);
    OtherStep(s, e, p);
    WaiterAfter(s, e);
  }

  /** Only one child has the number. */
  lemma OneChild(s: State, p: nat, n: Word, c: nat, d: nat)
    requires Inv(s) && IsChild(s, c, p, n) && IsChild(s, d, p, n)
    ensures c == d
  {
    hide Running, Members, AllWait, IdleReady;
  }

  /** A process that waits for a child that has not exited sleeps until the step in which the child exits, and
      is ACTIVE right after it. */
  lemma {:induction false} WaitsExactly(ss: seq<State>, es: seq<Event>, i: nat, j: nat, n: Word, p: nat, c: nat)
    requires Run(ss, es) && Inv(ss[0]) && i < j <= |es| && es[i] == Waitpid(n) && ss[i].cur == Some(p)
    requires IsChild(ss[i], c, p, n) && ss[i].procs[c].status != ZOMBIE
    ensures IsChild(ss[j], c, p, n) && p < |ss[j].procs|
    ensures ss[j].procs[c].status != ZOMBIE ==> Awaits(ss[j], p, n)
    ensures c < |ss[j - 1].procs| && (ss[j - 1].procs[c].status != ZOMBIE && ss[j].procs[c].status == ZOMBIE ==>
      ss[j].procs[p].status == ACTIVE)
    decreases j - i
  {
    hide Inv, Do, Up, Can, Run, Awaits;
    RunSize(ss, es);
    RunStep(ss, es, j - 1);
    if i == j - 1 {
      AwaitStart(ss[i], n);
      AwaitsSleep(ss[j], p, n);
    } else {
      WaitsExactly(ss, es, i, j - 1, n, p, c);
      ProcsGrow(ss[j - 1], es[j - 1]);
      if ss[j - 1].procs[c].status != ZOMBIE {
        AwaitStep(ss[j - 1], es[j - 1], p, n);
        if ChildExits(ss[j - 1], es[j - 1], p, n) {
          OneChild(ss[j - 1], p, n, c, ss[j - 1].cur.value);
        }
      }
    }
    KinStep(ss[j - 1], es[j - 1], c);
  }

  lemma AwaitsSleep(s: State, p: nat, n: Word)
    requires Awaits(s, p, n)
    ensures p < |s.procs| && s.procs[p].status == SLEEP
  {
  }

  /** Every child of p with number n has exited. */
  ghost predicate NoneLeft(s: State, p: nat, n: Word) {
    forall c: nat :: IsChild(s, c, p, n) ==> s.procs[c].status == ZOMBIE
  }

  /** New processes are children of the running one, or of none. */
  lemma NewKin(s: State, e: Event, c: nat)
    requires Inv(s) && Up(s) && Can(s, e) && |s.procs| <= c < |Do(s, e).procs|
    ensures c == |s.procs| && (e.Fork? || e.ExecExtern? || e.Spawn?)
    ensures if e.Spawn? then Do(s, e).procs[c].parent == None else Do(s, e).procs[c].parent == s.cur
  {
    hide Inv, Scheduled, LinkIn, Exited;
    if e == Exit {
      ExitedProcs(s, 0);
    }
    CreatedData(s);
    hide Created;
    RunningWaits(s);
  }

  lemma NoneLeftStep(s: State, e: Event, p: nat, n: Word)
    requires Inv(s) && Up(s) && Can(s, e) && NoneLeft(s, p, n) && s.cur != Some(p)
    ensures NoneLeft(Do(s, e), p, n)
  {
    hide Inv, Do, Up, Can, Closed;
    var t := Do(s, e);
    forall c: nat | IsChild(t, c, p, n) ensures t.procs[c].status == ZOMBIE {
      if c < |s.procs| {
        KinStep(s, e, c);
        assert IsChild(s, c, p, n);
      } else {
        NewKin(s, e, c);
      }
    }
  }

  lemma NoneLeftStart(s: State, n: Word)
    requires Inv(s) && Up(s) && Can(s, Waitpid(n)) && NoneLeft(s, s.cur.value, n)
    ensures NoneLeft(Do(s, Waitpid(n)), s.cur.value, n)
  {
    hide Inv, Do, Up, Can, Closed;
    RunningWaits(s);
    var t := Do(s, Waitpid(n));
    forall c: nat | IsChild(t, c, s.cur.value, n) ensures t.procs[c].status == ZOMBIE {
      if c < |s.procs| {
        KinStep(s, Waitpid(n), c);
        assert IsChild(s, c, s.cur.value, n);
      } else {
        NewKin(s, Waitpid(n), c);
      }
    }
  }

  /** A process that waits for a number that no child of its has, or one that has exited, sleeps for ever. */
  lemma {:induction false} WaitsForever(ss: seq<State>, es: seq<Event>, i: nat, j: nat, n: Word, p: nat)
    requires Run(ss, es) && Inv(ss[0]) && i < j <= |es| && es[i] == Waitpid(n) && ss[i].cur == Some(p)
    requires NoneLeft(ss[i], p, n)
    ensures p < |ss[j].procs| && ss[j].procs[p].status == SLEEP && Awaits(ss[j], p, n) && NoneLeft(ss[j], p, n)
    decreases j - i
  {
    hide Inv, Do, Up, Can, Run, NoneLeft;
    RunSize(ss, es);
    RunStep(ss, es, j - 1);
    if i == j - 1 {
      AwaitStart(ss[i], n);
      NoneLeftStart(ss[i], n);
    } else {
      WaitsForever(ss, es, i, j - 1, n, p);
      AwaitStep(ss[j - 1], es[j - 1], p, n);
      NoneLeftStep(ss[j - 1], es[j - 1], p, n);
      NoneExits(ss[j - 1], es[j - 1], p, n);
    }
  }

  lemma NoneExits(s: State, e: Event, p: nat, n: Word)
    requires Inv(s) && NoneLeft(s, p, n)
    ensures !ChildExits(s, e, p, n)
  {
    RunningWaits(s);
  }

  // ----- getc, gets -----

  /** The process is asleep and has the keyboard. */
  predicate Listens(s: State, p: nat, use: Use) {
    p < |s.procs| && s.procs[p].status == SLEEP && s.use == use && s.waiter == Some(p)
  }

  /** The key ends the call: any key for getc, key 66 for gets. */
  predicate Ends(e: Event, use: Use) {
    e.Key? && (use == GETS ==> e.code == 66)
  }

  lemma ListenStart(s: State, e: Event)
    requires Inv(s) && Up(s) && Can(s, e) && (e == Getc || e == Gets) && s.use == NONE
    ensures Listens(Do(s, e), s.cur.value, if e == Getc then GETC else GETS)
  {
    hide Inv, Closed, Paused;
    PausedOwn(s);
  }

  lemma ListenStep(s: State, e: Event, p: nat, use: Use)
    requires Inv(s) && Up(s) && Can(s, e) && Listens(s, p, use) && use != NONE
    ensures p < |Do(s, e).procs|
    ensures if Ends(e, use) then Do(s, e).procs[p].status == ACTIVE && Do(s, e).use == NONE
      else Listens(Do(s, e), p, use)
  {
    hide Inv, Do, Can, Up, Closed;
    ChildWaker(s, e, p);
    OtherStep(s, e, p);
    ListenerReads(s, p);
    DormantChild(s, e, p);
    UseAfter(s, e);
  }

  lemma ListenerReads(s: State, p: nat)
    requires Inv(s) && s.waiter == Some(p) && p < |s.procs|
    ensures Reads(s.procs[p])
  {
  }

  /** While the keyboard is taken, only the key that ends the call gives it back. */
  lemma UseAfter(s: State, e: Event)
    requires Inv(s) && Up(s) && Can(s, e) && s.use != NONE
    ensures if Ends(e, s.use) then Do(s, e).use == NONE && Do(s, e).waiter == None
      else Do(s, e).use == s.use && Do(s, e).waiter == s.waiter
  {
    hide Exited, Scheduled, LinkIn;
    if e == Exit {
      ExitedProcs(s, 0);
    }
    hide Inv;
  }

  /** A call of getc or gets that gets the keyboard sleeps until the first key, or the first Enter, and is ACTIVE
      right after it. */
  lemma {:induction false} ListensExactly(ss: seq<State>, es: seq<Event>, i: nat, j: nat, p: nat)
    requires Run(ss, es) && Inv(ss[0]) && i < j <= |es| && ss[i].cur == Some(p) && ss[i].use == NONE
    requires es[i] == Getc || es[i] == Gets
    ensures p < |ss[j].procs|
    ensures (forall k :: i < k < j ==> !(es[k].Key? && (es[i] == Gets ==> es[k].code == 66))) ==>
      ss[j].procs[p].status == SLEEP && ss[j].waiter == Some(p) && ss[j].use == (if es[i] == Getc then GETC else GETS)
    ensures (forall k :: i < k < j - 1 ==> !(es[k].Key? && (es[i] == Gets ==> es[k].code == 66))) ==>
      i < j - 1 && es[j - 1].Key? && (es[i] == Gets ==> es[j - 1].code == 66) ==>
      ss[j].procs[p].status == ACTIVE && ss[j].use == NONE
    decreases j - i
  {
    hide Inv, Do, Up, Can, Run;
    RunSize(ss, es);
    RunStep(ss, es, j - 1);
    if i == j - 1 {
      ListenStart(ss[i], es[i]);
    } else {
      ListensExactly(ss, es, i, j - 1, p);
      ProcsGrow(ss[j - 1], es[j - 1]);
      if forall k :: i < k < j - 1 ==> !(es[k].Key? && (es[i] == Gets ==> es[k].code == 66)) {
        ListenStep(ss[j - 1], es[j - 1], p, if es[i] == Getc then GETC else GETS);
      }
    }
  }

  /** While another process has the keyboard, the calls do nothing. */
  lemma KeyboardTaken(s: State, e: Event)
    requires Inv(s) && Up(s) && Can(s, e) && (e == Getc || e == Gets) && s.use != NONE
    ensures Do(s, e) == s && s.procs[s.cur.value].status == ACTIVE
  {
    RunningWaits(s);
  }

  // ----- the numbers of children -----

  /** How many of the first n processes are children of p. */
  function Kids(procs: seq<Info>, p: nat, n: nat): nat
    requires n <= |procs|
  {
    if n == 0 then 0 else Kids(procs, p, n - 1) + if procs[n - 1].parent == Some(p) then 1 else 0
  }

  lemma {:induction false} KidsSame(procs: seq<Info>, a: seq<Info>, p: nat, n: nat)
    requires n <= |procs| && n <= |a| && forall q :: 0 <= q < n ==> a[q].parent == procs[q].parent
    ensures Kids(a, p, n) == Kids(procs, p, n)
  {
    if n > 0 {
      KidsSame(procs, a, p, n - 1);
    }
  }

  /** The k-th child of a process has number k, and child_count counts them. */
  ghost predicate Numbered(procs: seq<Info>) {
    forall p: nat :: p < |procs| ==>
      && procs[p].childCount == Kids(procs, p, |procs|)
      && (procs[p].parent.Some? ==> procs[p].ppid == Kids(procs, procs[p].parent.value, p + 1))
  }

  lemma NumberedSame(procs: seq<Info>, t: seq<Info>)
    requires Numbered(procs) && |t| == |procs| && forall x :: 0 <= x < |t| ==> SameKin(procs[x], t[x])
    ensures Numbered(t)
  {
    forall p: nat | p < |t| ensures Kids(t, p, |t|) == Kids(procs, p, |t|) {
      KidsSame(procs, t, p, |t|);
    }
    forall p: nat | p < |t| && t[p].parent.Some?
      ensures Kids(t, t[p].parent.value, p + 1) == Kids(procs, t[p].parent.value, p + 1)
    {
      KidsSame(procs, t, t[p].parent.value, p + 1);
    }
  }

  /** A process more: a child with the next number, or a process without parent. */
  ghost predicate OneMore(procs: seq<Info>, t: seq<Info>) {
    && |t| == |procs| + 1 && t[|procs|].childCount == 0
    && (forall x :: 0 <= x < |procs| ==>
         && t[x].parent == procs[x].parent && t[x].ppid == procs[x].ppid && Within(procs[x].parent, |procs|)
         && t[x].childCount == procs[x].childCount + if t[|procs|].parent == Some(x) then 1 else 0)
    && match t[|procs|].parent
       case None => true
       case Some(q) => q < |procs| && t[|procs|].ppid == procs[q].childCount + 1
  }

  lemma NumberedMore(procs: seq<Info>, t: seq<Info>)
    requires Numbered(procs) && OneMore(procs, t)
    ensures Numbered(t)
  {
    hide Kids, OneMore;
    forall p: nat | p < |t|
      ensures t[p].childCount == Kids(t, p, |t|)
      ensures t[p].parent.Some? ==> t[p].ppid == Kids(t, t[p].parent.value, p + 1)
    {
      CountMore(procs, t, p);
      NumberMore(procs, t, p);
    }
  }

  lemma CountMore(procs: seq<Info>, t: seq<Info>, p: nat)
    requires Numbered(procs) && OneMore(procs, t) && p < |t|
    ensures t[p].childCount == Kids(t, p, |t|)
  {
    var n := |procs|;
    KidsSame(procs, t, p, n);
    assert Kids(t, p, |t|) == Kids(t, p, n) + if t[n].parent == Some(p) then 1 else 0;
    if p == n {
      NoKids(procs, n, n);
    }
    hide Kids;
  }

  lemma NumberMore(procs: seq<Info>, t: seq<Info>, p: nat)
    requires Numbered(procs) && OneMore(procs, t) && p < |t|
    ensures t[p].parent.Some? ==> t[p].ppid == Kids(t, t[p].parent.value, p + 1)
  {
    if t[p].parent.Some? {
      var q, n := t[p].parent.value, |procs|;
      if p < n {
        KidsSame(procs, t, q, p + 1);
      } else {
        KidsSame(procs, t, q, n);
      }
    }
  }

  lemma {:induction false} NoKids(procs: seq<Info>, p: nat, n: nat)
    requires n <= |procs| && forall x :: 0 <= x < n ==> procs[x].parent != Some(p)
    ensures Kids(procs, p, n) == 0
  {
    if n > 0 {
      NoKids(procs, p, n - 1);
    }
  }

  lemma NumberedStep(s: State, e: Event)
    requires Inv(s) && Up(s) && Can(s, e) && Numbered(s.procs)
    ensures Numbered(Do(s, e).procs)
  {
    hide Inv, Do, Up, Can, Closed, Numbered, SameKin, OneMore;
    ProcsGrow(s, e);
    var t := Do(s, e);
    if |t.procs| == |s.procs| {
      forall x | 0 <= x < |s.procs| ensures SameKin(s.procs[x], t.procs[x]) {
        KinKept(s, e, x);
      }
      NumberedSame(s.procs, t.procs);
    } else {
      NewKin(s, e, |s.procs|);
      BirthMore(s, e);
      NumberedMore(s.procs, t.procs);
    }
  }

  lemma KinKept(s: State, e: Event, x: nat)
    requires Inv(s) && Up(s) && Can(s, e) && x < |s.procs| && |Do(s, e).procs| == |s.procs|
    ensures SameKin(s.procs[x], Do(s, e).procs[x])
  {
    hide Inv, Do, Up, Can, Closed;
    if s.cur != Some(x) {
      OtherKin(s, e, x);
    } else if e == Exit {
      OwnExit(s);
    } else {
      RunningWaits(s);
      OwnStep(s, e);
    }
  }

  lemma BirthMore(s: State, e: Event)
    requires Inv(s) && Up(s) && Can(s, e) && (e.Fork? || e.ExecExtern? || e.Spawn?) && |Do(s, e).procs| > |s.procs|
    ensures OneMore(s.procs, Do(s, e).procs)
  {
    hide LinkIn, Inv, Linked, Created;
    forall x | 0 <= x < |s.procs| ensures InfoClosed(s.procs[x], |s.procs|) {}
    hide Closed;
    RunningWaits(s);
    CreatedData(s);
    if !e.Spawn? {
      hide Born;
      BirthChild(s);
    }
  }

  lemma BirthChild(s: State)
    requires Inv(s) && Up(s) && RootIn(s) && s.cur.value < |s.procs| && s.procs[s.cur.value].childCount < NEVER - 1
    requires forall x :: 0 <= x < |s.procs| ==> InfoClosed(s.procs[x], |s.procs|)
    ensures OneMore(s.procs, Born(s).procs)
  {
    hide LinkIn, Closed, Linked, Created, RootIn, Inv;
    RunningWaits(s);
    CreatedData(s);
    BornSound(s);
    hide Up;
  }

  /** The booted system meets what the next theorem asks of the first state. */
  lemma BootNumbered()
    ensures Inv(BootState()) && Numbered(BootState().procs)
  {
    BootCut();
    var procs := [NewProc(0)];
    assert Kids(procs, 0, 1) == Kids(procs, 0, 0) == 0;
    hide Inv;
  }

  /** In every run from the booted state the children of a process are numbered 1, 2, 3, .. in the order in which
      they are created. */
  lemma {:induction false} ChildrenNumbered(ss: seq<State>, es: seq<Event>, i: nat)
    requires Run(ss, es) && Inv(ss[0]) && Numbered(ss[0].procs) && i < |ss|
    ensures Numbered(ss[i].procs)
  {
    hide Inv, Do, Up, Can, Numbered;
    if i > 0 {
      ChildrenNumbered(ss, es, i - 1);
      RunStep(ss, es, i - 1);
      NumberedStep(ss[i - 1], es[i - 1]);
    }
  }
}
