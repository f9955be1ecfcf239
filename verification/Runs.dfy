/** The properties of whole runs of the process system. */
module Runs {
  import opened Bits
  import opened Options
  import opened Procs
  import opened Lifecycle

  ghost predicate Step(s: State, e: Event, s': State) {
    Up(s) && Can(s, e) && s' == Do(s, e)
  }

  ghost predicate Run(ss: seq<State>, es: seq<Event>) {
    |ss| == |es| + 1 && forall i :: 0 <= i < |es| ==> Step(ss[i], es[i], ss[i + 1])
  }

  /** init_scheduler and the first timer interrupt: the idle process runs. */
  lemma Boot()
    ensures var s := State([], [], None, None, NONE, None);
      Closed(s) && Inv(Scheduled(Created(s)))
  {
    var s := State([], [], None, None, NONE, None);
    var a := Created(s);
    assert a.procs == [Procs.NewProc(0)] && a.ring == [0] && a.first == Some(0) && a.cur == None;
    CreatedLinked(s);
    hide Created, LinkIn;
    BootScheduled(a);
  }

  lemma BootScheduled(a: State)
    requires a == State([Procs.NewProc(0)], [0], Some(0), None, NONE, None) && Closed(a) && Linked(a.procs, a.ring)
    ensures Inv(Scheduled(a))
  {
    var t := a.(cur := Some(0));
    assert From([0], 0) == [0];
    assert Scheduled(a) == t;
    hide Scheduled, From, Linked;
    assert Closed(t) && Family(t.procs) && Members(t);
  }

  // ----- the invariant -----

  lemma InvUp(s: State)
    requires Inv(s)
    ensures Up(s) && Running(s) && Sound(s)
  {
  }

  lemma InvKept(s: State, e: Event)
    requires Inv(s) && Up(s) && Can(s, e)
    ensures Inv(Do(s, e))
  {
    hide Scheduled, Born, Created, Slept, Waited, Reading, Pressed, Exited, Closed, Linked, Members, AllWait, Family;
    match e {
      case Timer => TimerKept(s);
      case Fork => BornSound(s);
      case ExecExtern(found) => if found { BornSound(s); }
      case Usleep(us) =>
        IdleOther(s);
        SleptRunning(s, us / (1000000 / PIT_FREQ));
        SleptSound(s, us / (1000000 / PIT_FREQ));
      case Waitpid(pid) =>
        IdleOther(s);
        WaitedRunning(s, pid);
        WaitedSound(s, pid);
      case Getc =>
        IdleOther(s);
        ReadingRunning(s, GETC);
        ReadingSound(s, GETC);
      case Gets =>
        IdleOther(s);
        ReadingRunning(s, GETS);
        ReadingSound(s, GETS);
      case Key(code) =>
        PressedRunning(s, code);
        PressedSound(s, code);
      case Exit => ExitedSound(s);
      case Spawn => CreatedSound(s);
    }
  }

  lemma TimerKept(s: State)
    requires Inv(s)
    ensures Inv(Scheduled(s))
  {
    assert 0 in s.ring;
    ScheduleEnds(s, 0);
    ScheduledRunning(s);
    hide Scheduled, Linked, Family, Members;
    assert Loose(s);
    ScheduledSound(s);
  }

  lemma {:induction false} RunInv(ss: seq<State>, es: seq<Event>, i: nat)
    requires Run(ss, es) && Inv(ss[0]) && i < |ss|
    ensures Inv(ss[i])
  {
    hide Inv, Do, Up, Can;
    if i > 0 {
      RunInv(ss, es, i - 1);
      assert Step(ss[i - 1], es[i - 1], ss[i - 1 + 1]);
      InvKept(ss[i - 1], es[i - 1]);
    }
  }

  /** A pending waitpid implies SLEEP; child numbers of one parent are distinct; the running process is an
      ACTIVE member of the one cycle that next and prev form, and the members are the processes that have
      not exited. */
  lemma RunSafe(ss: seq<State>, es: seq<Event>, i: nat)
    requires Run(ss, es) && Inv(ss[0]) && i < |ss|
    ensures forall p :: 0 <= p < |ss[i].procs| && ss[i].procs[p].waitpid != 0 && ss[i].procs[p].waitpid != NEVER ==>
      ss[i].procs[p].status == SLEEP
    ensures forall p, r ::
      0 <= p < r < |ss[i].procs| && ss[i].procs[p].parent == ss[i].procs[r].parent && ss[i].procs[p].parent.Some? ==>
      ss[i].procs[p].ppid != ss[i].procs[r].ppid
    ensures Linked(ss[i].procs, ss[i].ring) && ss[i].cur.Some? && ss[i].cur.value in ss[i].ring
    ensures ss[i].cur.value < |ss[i].procs| && ss[i].procs[ss[i].cur.value].status == ACTIVE
    ensures forall p :: 0 <= p < |ss[i].procs| ==> (p in ss[i].ring <==> ss[i].procs[p].status != ZOMBIE)
  {
    RunInv(ss, es, i);
    forall p | 0 <= p < |ss[i].procs| ensures Waits(ss[i].procs[p]) {}
    hide Linked, Closed;
  }

  // ----- what one step does to a process that is not running -----

  /** Whether the step calls schedule. */
  predicate Passes(s: State, e: Event) {
    match e
    case Timer => true
    case Usleep(_) => true
    case Waitpid(_) => true
    case Exit => true
    case Getc => s.use == NONE
    case Gets => s.use == NONE
    case _ => false
  }

  /** A key wakes the process that reads: any key for getc, Enter for gets. */
  predicate KeyWakes(s: State, e: Event, p: nat) {
    s.waiter == Some(p) && e.Key? && (s.use == GETC || (s.use == GETS && e.code == KEY_ENTER))
  }

  predicate ChildWakes(s: State, e: Event, p: nat)
    requires p < |s.procs| && s.cur.Some? && s.cur.value < |s.procs|
  {
    e == Exit && s.cur != Some(p) && WaitsFor(s.procs, p, s.cur.value)
  }

  /** Status, timeout and awaited child of process p after a step. */
  ghost predicate OtherDoes(s: State, e: Event, p: nat, t: Info)
    requires p < |s.procs| && s.cur.Some? && s.cur.value < |s.procs|
  {
    var i := s.procs[p];
    if ChildWakes(s, e, p) then i.status == SLEEP && t.status == ACTIVE && t.ticks == NEVER && t.waitpid == NEVER
    else if KeyWakes(s, e, p) then i.status == SLEEP && t.status == ACTIVE && t.ticks == i.ticks
      && t.waitpid == i.waitpid
    else if Passes(s, e) then t.status == Tick(i).status && t.ticks == Tick(i).ticks && t.waitpid == i.waitpid
    else t.status == i.status && t.ticks == i.ticks && t.waitpid == i.waitpid
  }

  lemma OtherStep(s: State, e: Event, p: nat)
    requires Inv(s) && Up(s) && Can(s, e) && p < |s.procs| && s.cur != Some(p)
    ensures p < |Do(s, e).procs| && OtherDoes(s, e, p, Do(s, e).procs[p])
  {
    hide Inv, Do;
    if e == Exit {
      OtherExit(s, p);
    } else if Passes(s, e) {
      OtherPass(s, e, p);
    } else {
      OtherStill(s, e, p);
    }
  }

  lemma OtherExit(s: State, p: nat)
    requires Inv(s) && Up(s) && Can(s, Exit) && p < |s.procs| && s.cur != Some(p)
    ensures p < |Do(s, Exit).procs| && OtherDoes(s, Exit, p, Do(s, Exit).procs[p])
  {
    hide Inv, Exited, Tick, Closed, Waits, Reads, SameKin, Ended;
    ExitedProcs(s, p);
    ExitedProc(s, p);
  }

  lemma OtherPass(s: State, e: Event, p: nat)
    requires Inv(s) && Up(s) && Can(s, e) && p < |s.procs| && s.cur != Some(p) && Passes(s, e) && e != Exit
    ensures p < |Do(s, e).procs| && Do(s, e).procs[p] == Tick(s.procs[p]) && !KeyWakes(s, e, p) && !ChildWakes(s, e, p)
  {
    hide Scheduled, Slept, Paused, Closed, Linked, Family, AllWait;
    match e {
      case Timer =>
        ScheduledProcs(s, p);
        Gone(s, p);
        hide Inv;
      case Usleep(us) => SleptOther(s, us / (1000000 / PIT_FREQ), p);
      case Waitpid(pid) => PausedOther(s, p);
      case Getc => PausedOther(s, p);
      case Gets => PausedOther(s, p);
      case _ =>
    }
    hide Inv;
  }

  lemma OtherStill(s: State, e: Event, p: nat)
    requires Inv(s) && Up(s) && Can(s, e) && p < |s.procs| && s.cur != Some(p) && !Passes(s, e)
    ensures p < |Do(s, e).procs| && !ChildWakes(s, e, p) && (KeyWakes(s, e, p) ==> s.procs[p].status == SLEEP)
    ensures var i, t := s.procs[p], Do(s, e).procs[p];
      t.status == (if KeyWakes(s, e, p) then ACTIVE else i.status) && t.ticks == i.ticks && t.waitpid == i.waitpid
  {
    match e {
      case Fork => BornOther(s, p);
      case ExecExtern(found) => BornOther(s, p);
      case Spawn => CreatedData(s);
      case _ =>
    }
    assert s.waiter == Some(p) ==> Reads(s.procs[p]);
    hide Inv, Running, Family, Members, Linked, Closed, Born, Created;
  }

  lemma BornOther(s: State, p: nat)
    requires Inv(s) && p < |s.procs| && s.cur != Some(p)
    ensures Closed(s) && s.cur.Some? && |Born(s).procs| == |s.procs| + 1
    ensures Born(s).procs[p] == s.procs[p].(next := Born(s).procs[p].next, prev := Born(s).procs[p].prev)
  {
    CreatedData(s);
  }

  lemma SleptOther(s: State, ticks: Word, p: nat)
    requires Inv(s) && p < |s.procs| && s.cur != Some(p)
    ensures Closed(s) && s.cur.Some? && |Slept(s, ticks).procs| == |s.procs|
    ensures Slept(s, ticks).procs[p] == Tick(s.procs[p])
  {
    hide IdleReady, AllWait, Scheduled;
    Gone(s, p);
    var c := s.cur.value;
    TicksKept(s, c, ticks);
    StatusKept(WithTicks(s, c, ticks), c, SLEEP);
    hide Linked, Family, Members, Closed;
    ScheduledProcs(WithStatus(WithTicks(s, c, ticks), c, SLEEP), p);
  }

  lemma PausedOther(s: State, p: nat)
    requires Inv(s) && p < |s.procs| && s.cur != Some(p)
    ensures Closed(s) && s.cur.Some? && |Paused(s).procs| == |s.procs|
    ensures Paused(s).procs[p] == Tick(s.procs[p])
  {
    PausedIsSlept(s);
    SleptOther(s, NEVER, p);
  }

  /** A sleeping process is woken by its timeout, by the exit of the child it waits for, or by a key it
      reads, and by nothing else. */
  lemma WakesExactly(s: State, e: Event, p: nat)
    requires Inv(s) && Up(s) && Can(s, e) && p < |s.procs| && s.procs[p].status == SLEEP
    ensures s.cur != Some(p) && p < |Do(s, e).procs|
    ensures Do(s, e).procs[p].status == ACTIVE <==>
      || (Passes(s, e) && s.procs[p].ticks == 1)
      || ChildWakes(s, e, p) || KeyWakes(s, e, p)
    ensures Do(s, e).procs[p].status != ACTIVE ==> Do(s, e).procs[p].status == SLEEP
  {
    hide Do, Inv, Up, Can, Closed, Waits, ChildWakes, KeyWakes;
    ChildWaker(s, e, p);
    OtherStep(s, e, p);
    SleeperWaits(s, p);
  }

  lemma SleeperWaits(s: State, p: nat)
    requires Inv(s) && p < |s.procs|
    ensures Waits(s.procs[p])
  {
  }

  /** A process that an exit or a key wakes has no timeout. */
  lemma ChildWaker(s: State, e: Event, p: nat)
    requires Inv(s) && Up(s) && p < |s.procs| && s.procs[p].status == SLEEP
    ensures ChildWakes(s, e, p) || KeyWakes(s, e, p) ==> s.procs[p].ticks == NEVER
    ensures s.cur != Some(p)
  {
    assert Waits(s.procs[p]) && ChildOk(s.procs, s.cur.value);
    if ChildWakes(s, e, p) {
      assert ChildOk(s.procs, p);
    }
  }

  /** A parent is woken by an exit exactly when it waits for that child's number. */
  lemma ExitWakesParent(s: State, q: nat)
    requires Inv(s) && s.cur.Some? && s.cur != Some(0) && Up(s) && s.procs[s.cur.value].parent == Some(q)
    ensures q < |s.procs| && q < |Do(s, Exit).procs|
    ensures var t := Do(s, Exit).procs[q];
      if s.procs[q].waitpid == s.procs[s.cur.value].ppid then s.procs[q].status == SLEEP && t.status == ACTIVE
        && t.waitpid == NEVER
      else t.status == Tick(s.procs[q]).status && t.waitpid == s.procs[q].waitpid
  {
    hide Do;
    assert ChildOk(s.procs, s.cur.value);
    OtherStep(s, Exit, q);
  }

  lemma ZombieStep(s: State, e: Event, p: nat)
    requires Inv(s) && Up(s) && Can(s, e) && p < |s.procs| && s.procs[p].status == ZOMBIE
    ensures p < |Do(s, e).procs| && Do(s, e).procs[p].status == ZOMBIE
  {
    hide Do;
    OtherStep(s, e, p);
    assert Waits(s.procs[p]);
    assert s.waiter == Some(p) ==> Reads(s.procs[p]);
  }

  /** A ZOMBIE never becomes ACTIVE, and never runs again. */
  lemma {:induction false} ZombieForever(ss: seq<State>, es: seq<Event>, i: nat, j: nat, p: nat)
    requires Run(ss, es) && Inv(ss[0]) && i <= j < |ss| && p < |ss[i].procs| && ss[i].procs[p].status == ZOMBIE
    ensures p < |ss[j].procs| && ss[j].procs[p].status == ZOMBIE && ss[j].cur != Some(p) && p !in ss[j].ring
    decreases j - i
  {
    hide Inv, Do, Up, Can;
    RunInv(ss, es, j);
    if i < j {
      ZombieForever(ss, es, i, j - 1, p);
      RunInv(ss, es, j - 1);
      assert Step(ss[j - 1], es[j - 1], ss[j - 1 + 1]);
      ZombieStep(ss[j - 1], es[j - 1], p);
    }
    ZombieOut(ss[j], p);
  }

  lemma ZombieOut(s: State, p: nat)
    requires Inv(s) && p < |s.procs| && s.procs[p].status == ZOMBIE
    ensures s.cur != Some(p) && p !in s.ring
  {
  }
}
