/** Exactly when create_proc keeps the process list one cycle, and when schedule ends. */
module ProcList {
  import opened Bits
  import opened Options
  import opened Procs
  import opened Lifecycle
  import opened Runs
  import opened Timing

  /** An exited process is not the predecessor of the process it still points to. */
  ghost predicate Cut(s: State) {
    forall d :: 0 <= d < |s.procs| && d !in s.ring ==> CutAt(s.procs, d)
  }

  ghost predicate CutAt(procs: seq<Info>, d: nat)
    requires d < |procs|
  {
    procs[d].prev != d && (procs[d].next < |procs| ==> procs[procs[d].next].prev != d)
  }

  /** Without first_proc in the list, the new process is on no cycle. */
  lemma CreateBroken(s: State, ring: seq<nat>)
    requires Closed(s) && Cut(s) && s.first.Some? && s.first.value !in s.ring && Linked(Created(s).procs, ring)
    ensures |s.procs| !in ring
  {
    var t, n, f := Created(s).procs, |s.procs|, s.first.value;
    if n in ring {
      assert CutAt(s.procs, f) && InfoClosed(s.procs[f], n);
      CreatedLinks(s, f);
      LinkedAt(t, ring, Index(ring, n));
      assert f in ring;
      LinkedAt(t, ring, Index(ring, f));
      CreatedLinks(s, s.procs[f].next);
      assert false;
    }
  }

  /** create_proc puts the new process on a cycle with inverse pointers exactly when first_proc is still in
      the list. */
  lemma CreateCycle(s: State)
    requires Inv(s) && Closed(s) && Cut(s)
    ensures (exists ring :: Linked(Created(s).procs, ring) && |s.procs| in ring) <==> RootIn(s)
  {
    if RootIn(s) {
      CreatedLinked(s);
      RingOfCreated(s);
      assert |s.procs| in Created(s).ring;
    } else {
      forall ring | Linked(Created(s).procs, ring) ensures |s.procs| !in ring {
        CreateBroken(s, ring);
      }
    }
  }

  /** first_proc leaves the list exactly when the process it points to exits. */
  lemma ExitRoot(s: State)
    requires Inv(s) && Up(s) && Can(s, Exit)
    ensures RootIn(Do(s, Exit)) <==> RootIn(s) && s.first != s.cur
  {
    hide Inv, Running, Closed, Do, Exited, Can, OtherActive;
    InvUp(s);
    RunningParts(s);
    InRing(s);
    DoExit(s);
    CanExit(s);
    IdleOther(s);
    Exiting(s, s.cur.value);
    ExitedProcs(s, s.cur.value);
    ExitedRunning(s, s.cur.value);
  }

  lemma CutSame(s: State, t: State)
    requires Cut(s) && t.ring == s.ring && |t.procs| == |s.procs|
    requires forall p :: 0 <= p < |s.procs| ==> t.procs[p].next == s.procs[p].next && t.procs[p].prev == s.procs[p].prev
    ensures Cut(t)
  {
    forall d | 0 <= d < |s.procs| && d !in s.ring ensures CutAt(t.procs, d) {
      assert CutAt(s.procs, d);
    }
  }

  lemma CreatedCut(s: State)
    requires Closed(s) && Linked(s.procs, s.ring) && Cut(s) && s.ring != [] && s.first == Some(s.ring[0])
    ensures Cut(Created(s))
  {
    var t := Created(s);
    RingOfCreated(s);
    LinkedAt(s.procs, s.ring, |s.ring| - 1);
    hide Linked, LinkIn, Created;
    forall d | 0 <= d < |t.procs| && d !in t.ring ensures CutAt(t.procs, d) {
      assert CutAt(s.procs, d) && InfoClosed(s.procs[d], |s.procs|);
      CreatedLinks(s, d);
      CreatedLinks(s, s.procs[d].next);
    }
  }

  lemma UnlinkCut(b: State, c: nat)
    requires Closed(b) && Linked(b.procs, b.ring) && Cut(b) && c in b.ring && |b.ring| >= 2
    requires c < |b.procs| && b.procs[c].next < |b.procs| && b.procs[c].prev < |b.procs|
    ensures Cut(b.(procs := Unlink(b.procs, c), ring := Without(b.ring, c)))
  {
    var t := Unlink(b.procs, c);
    UnlinkLinked(b.procs, b.ring, c);
    Neighbours(b.procs, b.ring, c);
    NotAlone(b.procs, b.ring, c);
    hide Linked, Unlink, Without;
    forall d | 0 <= d < |b.procs| && d !in Without(b.ring, c) ensures CutAt(t, d) {
      assert InfoClosed(b.procs[d], |b.procs|);
      assert d != c ==> CutAt(b.procs, d);
      UnlinkLinks(b.procs, c, d);
      UnlinkLinks(b.procs, c, b.procs[d].next);
    }
  }

  lemma NotAlone(procs: seq<Info>, ring: seq<nat>, c: nat)
    requires Linked(procs, ring) && c in ring && |ring| >= 2 && c < |procs|
    ensures procs[c].prev != c && procs[c].next != c && procs[c].prev in ring && procs[c].next in ring
  {
    var k := Index(ring, c);
    LinkedAt(procs, ring, k);
    var j := if k == 0 then |ring| - 1 else k - 1;
    LinkedAt(procs, ring, j);
    LinkedDistinct(procs, ring, j, k);
    if k + 1 < |ring| {
      LinkedDistinct(procs, ring, k, k + 1);
    }
  }

  /** schedule ends exactly when some process of the list is ACTIVE after the tick. */
  lemma ScheduleEndsExactly(s: State)
    requires Closed(s) && s.cur.Some?
    ensures Scheduled(s).cur.Some? <==>
      exists q :: q in s.ring && q < |s.procs| && TickAll(s.procs, s.ring)[q].status == ACTIVE
  {
    var procs, r := TickAll(s.procs, s.ring), From(s.ring, s.cur.value);
    if FirstActive(procs, r) == None {
      forall q | q in s.ring && q < |s.procs| ensures procs[q].status != ACTIVE {
        assert q in r;
      }
    }
  }

  lemma ExitedCut(s: State)
    requires Inv(s) && Up(s) && Can(s, Exit) && Cut(s)
    ensures Cut(Do(s, Exit))
  {
    hide Inv, Running, Do, Exited, Can, OtherActive, Cut;
    InvUp(s);
    RunningParts(s);
    InRing(s);
    DoExit(s);
    CanExit(s);
    IdleOther(s);
    Exiting(s, s.cur.value);
    ExitParts(s, s.cur.value);
  }

  ghost predicate SameLinks(s: State, t: State) {
    && t.ring == s.ring && |t.procs| == |s.procs|
    && forall p :: 0 <= p < |s.procs| ==> t.procs[p].next == s.procs[p].next && t.procs[p].prev == s.procs[p].prev
  }

  lemma ScheduledLinks(s: State)
    requires Closed(s)
    ensures SameLinks(s, Scheduled(s))
  {
    hide Closed, Scheduled;
  }

  lemma ExitParts(s: State, c: nat)
    requires Closed(s) && Linked(s.procs, s.ring) && Cut(s) && OtherActive(s) && s.cur == Some(c) && c in s.ring
    requires c < |s.procs|
    requires Within(s.procs[c].parent, |s.procs|)
    ensures Cut(Exited(s, c))
  {
    var a := s.(procs := Ended(s.procs, c));
    DataKept(s, a);
    CutSame(s, a);
    EndedOther(s, c);
    hide Ended, OtherActive, Cut;
    ExitUnlinks(a, c);
    var q: nat :| q in s.ring && s.cur != Some(q);
    TwoMembers(s.ring, q, c);
    hide Closed, Linked;
    UnlinkCut(Scheduled(a), c);
  }

  lemma ExitUnlinks(a: State, c: nat)
    requires Closed(a) && Linked(a.procs, a.ring) && Cut(a) && c < |a.procs| && Scheduled(a).cur.Some?
    ensures var b := Scheduled(a);
      && Closed(b) && Linked(b.procs, b.ring) && Cut(b) && b.ring == a.ring && |b.procs| == |a.procs|
      && b.procs[c].next < |b.procs| && b.procs[c].prev < |b.procs|
  {
    ScheduledKeeps(a);
    ScheduledLinks(a);
    assert InfoClosed(a.procs[c], |a.procs|);
    hide Closed, Scheduled, Linked;
    CutSame(a, Scheduled(a));
  }

  lemma EndedOther(s: State, c: nat)
    requires Closed(s) && OtherActive(s) && s.cur == Some(c) && c < |s.procs| && Within(s.procs[c].parent, |s.procs|)
    requires Closed(s.(procs := Ended(s.procs, c)))
    ensures exists q: nat :: q in s.ring && s.cur != Some(q)
    ensures Scheduled(s.(procs := Ended(s.procs, c))).cur.Some?
  {
    var q :| q in s.ring && q < |s.procs| && s.cur != Some(q) && s.procs[q].status == ACTIVE;
    ScheduleEnds(s.(procs := Ended(s.procs, c)), q);
  }

  lemma TwoMembers(ring: seq<nat>, p: nat, q: nat)
    requires p in ring && q in ring && p != q
    ensures |ring| >= 2
  {
  }

  lemma CutKept(s: State, e: Event)
    requires Inv(s) && Up(s) && Can(s, e) && Cut(s)
    ensures Cut(Do(s, e))
  {
    hide Do, Inv;
    if e == Exit {
      ExitedCut(s);
    } else if e == Spawn || e == Fork || e == ExecExtern(true) {
      BirthCut(s, e);
    } else {
      hide Cut, Inv, Can;
      LinksSame(s, e);
      CutSame(s, Do(s, e));
    }
  }

  lemma BirthCut(s: State, e: Event)
    requires Inv(s) && Up(s) && Can(s, e) && Cut(s) && (e == Spawn || e == Fork || e == ExecExtern(true))
    ensures Cut(Do(s, e))
  {
    CreatedCut(s);
    RingOfCreated(s);
    hide Inv, Closed, Cut, LinkIn;
    if e != Spawn {
      CutSame(Created(s), Born(s));
    }
  }

  lemma SleptLinks(s: State, ticks: Word)
    requires Closed(s) && s.cur.Some? && s.cur.value < |s.procs|
    ensures SameLinks(s, Slept(s, ticks))
  {
    TicksKept(s, s.cur.value, ticks);
    StatusKept(WithTicks(s, s.cur.value, ticks), s.cur.value, SLEEP);
    hide Closed, Scheduled;
    ScheduledLinks(WithStatus(WithTicks(s, s.cur.value, ticks), s.cur.value, SLEEP));
  }

  /** The other steps leave the pointers alone. */
  lemma LinksSame(s: State, e: Event)
    requires Inv(s) && Up(s) && Can(s, e) && e != Exit && e != Spawn && e != Fork && e != ExecExtern(true)
    ensures SameLinks(s, Do(s, e))
  {
    if e.Usleep? {
      LinksSleep(s, e.us);
    } else if e.Waitpid? || e == Getc || e == Gets {
      LinksPause(s, e);
    } else if e == Timer {
      LinksTimer(s);
    } else {
      hide Inv, Closed;
    }
  }

  lemma LinksTimer(s: State)
    requires Up(s)
    ensures SameLinks(s, Do(s, Timer))
  {
    hide Closed, Scheduled, SameLinks;
    assert Closed(s);
    ScheduledLinks(s);
  }

  lemma LinksSleep(s: State, us: Word)
    requires Up(s)
    ensures SameLinks(s, Do(s, Usleep(us)))
  {
    hide Closed, Slept, Do, SameLinks;
    DoSleep(s, us);
    SleptLinks(s, SleepTicks(us));
  }

  lemma LinksPause(s: State, e: Event)
    requires Inv(s) && Up(s) && (e.Waitpid? || e == Getc || e == Gets)
    ensures SameLinks(s, Do(s, e))
  {
    hide Inv, Closed, Slept, Paused;
    PausedIsSlept(s);
    SleptLinks(s, NEVER);
  }

  lemma {:induction false} RunCut(ss: seq<State>, es: seq<Event>, i: nat)
    requires Run(ss, es) && Inv(ss[0]) && Cut(ss[0]) && i < |ss|
    ensures Inv(ss[i]) && Cut(ss[i])
  {
    hide Inv, Cut, Do, Up, Can;
    RunInv(ss, es, i);
    if i > 0 {
      RunCut(ss, es, i - 1);
      RunStep(ss, es, i - 1);
      CutKept(ss[i - 1], es[i - 1]);
    }
  }

  /** At any point of a run, creating a process keeps the list one cycle exactly when first_proc has not
      exited. */
  lemma RunCreate(ss: seq<State>, es: seq<Event>, i: nat)
    requires Run(ss, es) && Inv(ss[0]) && Cut(ss[0]) && i < |ss|
    ensures Closed(ss[i])
    ensures (exists ring :: Linked(Created(ss[i]).procs, ring) && |ss[i].procs| in ring) <==> RootIn(ss[i])
  {
    RunCut(ss, es, i);
    InvUp(ss[i]);
    hide Inv, Cut, Linked;
    CreateCycle(ss[i]);
  }

  // ----- a run in which the first process of the list is lost -----

  /** The state after init_scheduler and the first timer interrupt. */
  ghost function BootState(): State { State([NewProc(0)], [0], Some(0), Some(0), NONE, None) }

  lemma BootCut()
    ensures var s := State([], [], None, None, NONE, None);
      Closed(s) && Scheduled(Created(s)) == BootState() && Inv(BootState()) && Cut(BootState())
  {
    hide Inv, Index;
    var s := State([], [], None, None, NONE, None);
    Boot();
    var a := Created(s);
    assert a.procs == [NewProc(0)] && a.ring == [0];
    assert From([0], 0) == [0];
    assert Scheduled(a) == BootState();
  }

  /** The second process. */
  ghost function Second(): State {
    State([NewProc(0).(next := 1, prev := 1), NewProc(1).(next := 0, prev := 0)], [1, 0], Some(1), Some(0), NONE, None)
  }

  lemma SpawnedSecond()
    ensures Closed(BootState()) && Created(BootState()) == Second()
  {
    var s := BootState();
    assert s.procs + [NewProc(1)] == [NewProc(0), NewProc(1)];
    assert LinkIn(s.procs, s.first) == Second().procs;
    assert [1] + s.ring == [1, 0];
  }

  lemma SecondRuns()
    requires Closed(Second())
    ensures Scheduled(Second()).cur == Some(1) && Scheduled(Second()).first == Some(1) && RootIn(Scheduled(Second()))
  {
    var s := Second();
    assert Index([1, 0], 0) == 1 + Index([1, 0][1..], 0) == 1;
    assert From(s.ring, 0) == [1, 0];
    assert TickAll(s.procs, s.ring)[1].status == ACTIVE;
  }

  /** Create a process, let the timer choose it, and let it exit: first_proc then points outside the list, and
      the next create_proc breaks it. */
  lemma RootLost() returns (ss: seq<State>, es: seq<Event>)
    ensures Run(ss, es) && ss[0] == BootState() && es == [Spawn, Timer, Exit]
    ensures Closed(ss[3]) && !RootIn(ss[3])
    ensures !exists ring :: Linked(Created(ss[3]).procs, ring) && |ss[3].procs| in ring
  {
    BootCut();
    SpawnedSecond();
    hide Inv, Cut, Linked, Created, Closed, Exited, Scheduled;
    var s0, s1 := BootState(), Second();
    InvUp(s0);
    InvKept(s0, Spawn);
    InvUp(s1);
    SecondRuns();
    var s2 := Scheduled(s1);
    InvKept(s1, Timer);
    InvUp(s2);
    var s3 := Do(s2, Exit);
    ExitRoot(s2);
    ss, es := [s0, s1, s2, s3], [Spawn, Timer, Exit];
    assert Step(s0, Spawn, s1) && Step(s1, Timer, s2) && Step(s2, Exit, s3);
    RunCreate(ss, es, 3);
  }
}
