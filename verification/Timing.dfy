/** When a sleeping process wakes, and how long an ACTIVE process waits for its turn. */
module Timing {
  import opened Bits
  import opened Options
  import opened Procs
  import opened Lifecycle
  import opened Runs

  /** The calls of schedule in steps i..j. */
  function Count(ss: seq<State>, es: seq<Event>, i: nat, j: nat): nat
    requires i <= j <= |es| && |ss| == |es| + 1
  {
    if i == j then 0 else Count(ss, es, i, j - 1) + if Passes(ss[j - 1], es[j - 1]) then 1 else 0
  }

  // ----- timed sleep -----

  /** The process is asleep, and wakes with the k-th call of schedule from now. */
  predicate Napping(i: Info, k: nat) {
    i.status == SLEEP && 1 <= k < NEVER && i.ticks == k && NoChild(i.waitpid)
  }

  lemma NapStep(s: State, e: Event, p: nat, k: nat)
    requires Inv(s) && Up(s) && Can(s, e) && p < |s.procs| && Napping(s.procs[p], k)
    ensures p < |Do(s, e).procs|
    ensures !Passes(s, e) ==> Napping(Do(s, e).procs[p], k)
    ensures Passes(s, e) && k > 1 ==> Napping(Do(s, e).procs[p], k - 1)
    ensures Passes(s, e) && k == 1 ==> Do(s, e).procs[p].status == ACTIVE
  {
    hide Inv, Do, Can, Up, Closed;
    ChildWaker(s, e, p);
    OtherStep(s, e, p);
  }

  /** usleep counts in timer ticks, of which there are 50 in a second. */
  function SleepTicks(us: Word): Word { us / 20000 }

  /** The call of schedule inside the sleep call is the first that counts. */
  lemma NapStart(s: State, us: Word)
    requires Inv(s) && Up(s) && Can(s, Usleep(us))
    ensures var t := Do(s, Usleep(us));
      && s.cur.value < |t.procs|
      && (SleepTicks(us) == 1 ==> t.procs[s.cur.value].status == ACTIVE)
      && (SleepTicks(us) > 1 ==> Napping(t.procs[s.cur.value], SleepTicks(us) - 1))
      && (SleepTicks(us) == 0 ==> Reads(t.procs[s.cur.value]) && t.waiter == s.waiter != s.cur)
  {
    hide Inv, Closed, Do, Slept, SleepTicks, Can, Up, Tick, Napping;
    RunningWaits(s);
    InRing(s);
    DoSleep(s, us);
    SleptOwn(s, SleepTicks(us));
    TickNap(s.procs[s.cur.value], SleepTicks(us));
  }

  lemma DoSleep(s: State, us: Word)
    requires Up(s)
    ensures Do(s, Usleep(us)) == Slept(s, SleepTicks(us)) && SleepTicks(us) < NEVER
  {
    hide Closed, Exited, Scheduled, Born, Created, Slept, Waited, Reading, Pressed;
  }

  lemma TickNap(i: Info, n: Word)
    requires Waits(i) && i.status == ACTIVE && n < NEVER
    ensures var t := Tick(i.(status := SLEEP, ticks := n));
      && (n == 1 ==> t.status == ACTIVE) && (n > 1 ==> Napping(t, n - 1)) && (n == 0 ==> Reads(t))
  {
  }

  lemma RunningWaits(s: State)
    requires Inv(s)
    ensures s.cur.Some? && s.cur.value < |s.procs| && Waits(s.procs[s.cur.value])
    ensures s.procs[s.cur.value].status == ACTIVE
    ensures s.waiter != s.cur && Closed(s)
  {
    assert s.waiter.Some? ==> Reads(s.procs[s.waiter.value]);
  }

  lemma SleptOwn(s: State, ticks: Word)
    requires Closed(s) && s.cur.Some? && s.cur.value < |s.procs| && s.cur.value in s.ring
    ensures |Slept(s, ticks).procs| == |s.procs| && Slept(s, ticks).waiter == s.waiter
    ensures Slept(s, ticks).procs[s.cur.value] == Tick(s.procs[s.cur.value].(status := SLEEP, ticks := ticks))
  {
    TicksKept(s, s.cur.value, ticks);
    StatusKept(WithTicks(s, s.cur.value, ticks), s.cur.value, SLEEP);
    hide Closed, Scheduled;
    ScheduledProcs(WithStatus(WithTicks(s, s.cur.value, ticks), s.cur.value, SLEEP), s.cur.value);
  }

  lemma InRing(s: State)
    requires Up(s)
    ensures s.cur.Some? && s.cur.value in s.ring
  {
  }

  lemma RunStep(ss: seq<State>, es: seq<Event>, k: nat)
    requires Run(ss, es) && Inv(ss[0]) && k < |es|
    ensures Inv(ss[k]) && Up(ss[k]) && Can(ss[k], es[k]) && ss[k + 1] == Do(ss[k], es[k])
  {
    hide Do, Inv;
    RunInv(ss, es, k);
    assert Step(ss[k], es[k], ss[k + 1]);
  }

  /** A process that sleeps n >= 1 ticks stays asleep until the n-th call of schedule, counting the one in
      the sleep call, and is ACTIVE when that call returns. */
  lemma {:induction false} SleepsExactly(ss: seq<State>, es: seq<Event>, i: nat, j: nat, us: Word, p: nat)
    requires Run(ss, es) && Inv(ss[0]) && i < j <= |es| && es[i] == Usleep(us) && ss[i].cur == Some(p)
    requires SleepTicks(us) >= 1
    ensures p < |ss[j].procs|
    ensures Count(ss, es, i, j) < SleepTicks(us) ==> Napping(ss[j].procs[p], SleepTicks(us) - Count(ss, es, i, j))
    ensures Count(ss, es, i, j) == SleepTicks(us) && Passes(ss[j - 1], es[j - 1]) ==> ss[j].procs[p].status == ACTIVE
    decreases j - i
  {
    hide Inv, Do, Up, Can, Run, SleepTicks, Napping;
    RunSize(ss, es);
    RunStep(ss, es, j - 1);
    if i == j - 1 {
      assert Count(ss, es, i, i) == 0;
      NapStart(ss[i], us);
    } else {
      SleepsExactly(ss, es, i, j - 1, us, p);
      if Count(ss, es, i, j - 1) < SleepTicks(us) {
        NapStep(ss[j - 1], es[j - 1], p, SleepTicks(us) - Count(ss, es, i, j - 1));
      } else {
        ProcsGrow(ss[j - 1], es[j - 1]);
      }
    }
  }

  lemma RunSize(ss: seq<State>, es: seq<Event>)
    requires Run(ss, es)
    ensures |ss| == |es| + 1
  {
  }

  lemma ProcsGrow(s: State, e: Event)
    requires Inv(s) && Up(s) && Can(s, e)
    ensures |Do(s, e).procs| >= |s.procs|
  {
    if e == Exit {
      ExitedProcs(s, 0);
    }
  }

  /** A sleep of 0 ticks (less than 20000 microseconds) wraps to no timeout: the process never wakes. */
  lemma {:induction false} SleepsForever(ss: seq<State>, es: seq<Event>, i: nat, j: nat, us: Word, p: nat)
    requires Run(ss, es) && Inv(ss[0]) && i < j <= |es| && es[i] == Usleep(us) && ss[i].cur == Some(p)
    requires SleepTicks(us) == 0
    ensures p < |ss[j].procs| && Reads(ss[j].procs[p]) && ss[j].waiter != Some(p)
    decreases j - i
  {
    hide Inv, Do, Up, Can, Run, SleepTicks, Reads;
    RunSize(ss, es);
    RunStep(ss, es, j - 1);
    if i == j - 1 {
      NapStart(ss[i], us);
    } else {
      SleepsForever(ss, es, i, j - 1, us, p);
      DormantStep(ss[j - 1], es[j - 1], p);
    }
  }

  lemma DormantStep(s: State, e: Event, p: nat)
    requires Inv(s) && Up(s) && Can(s, e) && p < |s.procs| && Reads(s.procs[p]) && s.waiter != Some(p)
    ensures p < |Do(s, e).procs| && Reads(Do(s, e).procs[p]) && Do(s, e).waiter != Some(p)
  {
    hide Inv, Do, Can, Up, Closed;
    ChildWaker(s, e, p);
    OtherStep(s, e, p);
    DormantChild(s, e, p);
    WaiterAfter(s, e);
  }

  lemma DormantChild(s: State, e: Event, p: nat)
    requires Inv(s) && Up(s) && p < |s.procs| && Reads(s.procs[p])
    ensures !ChildWakes(s, e, p)
  {
    assert ChildOk(s.procs, s.cur.value);
    assert s.procs[s.cur.value].parent == Some(p) ==> ChildOk(s.procs, p);
  }

  lemma WaiterAfter(s: State, e: Event)
    requires Inv(s) && Up(s) && Can(s, e)
    ensures Do(s, e).waiter == s.waiter || Do(s, e).waiter == None || Do(s, e).waiter == s.cur
  {
    hide Exited;
    if e == Exit {
      ExitedProcs(s, 0);
    }
    hide Inv;
  }

  // ----- round robin -----

  /** The number of next pointers from c to p: 1 to the successor, |ring| to c itself. */
  function Distance(ring: seq<nat>, c: nat, p: nat): (d: nat)
    requires c in ring && p in ring
    ensures 1 <= d <= |ring|
  {
    if Index(ring, p) > Index(ring, c) then Index(ring, p) - Index(ring, c)
      else Index(ring, p) + |ring| - Index(ring, c)
  }

  lemma IndexOf(ring: seq<nat>, k: nat)
    requires k < |ring| && forall i, j :: 0 <= i < j < |ring| ==> ring[i] != ring[j]
    ensures Index(ring, ring[k]) == k
  {
  }

  /** The search takes the first ACTIVE process. */
  lemma {:induction false} FirstIndex(procs: seq<Info>, r: seq<nat>, k: nat) returns (m: nat)
    requires (forall i :: 0 <= i < |r| ==> r[i] < |procs|) && k < |r| && procs[r[k]].status == ACTIVE
    ensures m <= k && FirstActive(procs, r) == Some(r[m])
  {
    if procs[r[0]].status == ACTIVE {
      m := 0;
    } else {
      m := FirstIndex(procs, r[1..], k - 1);
      m := m + 1;
    }
  }

  lemma AtDistance(ring: seq<nat>, c: nat, p: nat)
    requires c in ring && p in ring
    ensures From(ring, c)[Distance(ring, c, p) - 1] == p
  {
    FromAt(ring, c, Distance(ring, c, p) - 1);
  }

  /** A process on the way from c to p is closer to p. */
  lemma OnTheWay(ring: seq<nat>, c: nat, p: nat, m: nat)
    requires c in ring && p in ring && forall i, j :: 0 <= i < j < |ring| ==> ring[i] != ring[j]
    requires m < Distance(ring, c, p) && m < |From(ring, c)|
    ensures From(ring, c)[m] in ring
    ensures (From(ring, c)[m] == p || Distance(ring, From(ring, c)[m], p) < Distance(ring, c, p))
  {
    FromAt(ring, c, m);
    IndexOf(ring, Turned(|ring|, Index(ring, c) + 1, m));
    hide From;
  }

  /** From c, the search finds p or a process that is closer to p than c is. */
  lemma Closer(procs: seq<Info>, ring: seq<nat>, c: nat, p: nat)
    requires Linked(procs, ring) && c in ring && p in ring && p < |procs| && procs[p].status == ACTIVE
    requires forall i :: 0 <= i < |From(ring, c)| ==> From(ring, c)[i] < |procs|
    ensures var f := FirstActive(procs, From(ring, c));
      f.Some? && f.value in ring && (f == Some(p) || Distance(ring, f.value, p) < Distance(ring, c, p))
  {
    hide From, Distance, FirstActive;
    AtDistance(ring, c, p);
    var m := FirstIndex(procs, From(ring, c), Distance(ring, c, p) - 1);
    OnTheWay(ring, c, p, m);
  }

  lemma ScheduledCloser(a: State, p: nat)
    requires Closed(a) && Linked(a.procs, a.ring) && a.cur.Some? && p in a.ring && p < |a.procs|
    requires Scheduled(a).procs[p].status == ACTIVE
    ensures var t := Scheduled(a);
      && a.cur.value in a.ring && t.cur.Some? && t.cur.value in a.ring
      && (t.cur == Some(p) || Distance(a.ring, t.cur.value, p) < Distance(a.ring, a.cur.value, p))
  {
    hide Linked, From, Distance;
    var procs := TickAll(a.procs, a.ring);
    LinkedData(a.procs, procs, a.ring);
    LinkedFrom(procs, a.ring, a.cur.value);
    Closer(procs, a.ring, a.cur.value, p);
  }

  /** Every step that calls schedule, except an exit, does so in some state a. */
  lemma PassState(s: State, e: Event) returns (a: State)
    requires Inv(s) && Up(s) && Can(s, e) && Passes(s, e) && e != Exit
    ensures Closed(a) && Linked(a.procs, a.ring) && a.cur == s.cur && a.ring == s.ring && |a.procs| == |s.procs|
    ensures Do(s, e).cur == Scheduled(a).cur && |Do(s, e).procs| == |a.procs|
    ensures forall q :: 0 <= q < |a.procs| ==> Do(s, e).procs[q].status == Scheduled(a).procs[q].status
  {
    hide Do, Inv, Closed, Linked, Scheduled, Can;
    InvUp(s);
    RunningParts(s);
    if e == Timer {
      a := s;
    } else {
      var n := if e.Usleep? then SleepTicks(e.us) else NEVER;
      TicksKept(s, s.cur.value, n);
      StatusKept(WithTicks(s, s.cur.value, n), s.cur.value, SLEEP);
      a := WithStatus(WithTicks(s, s.cur.value, n), s.cur.value, SLEEP);
    }
    DoPasses(s, e, a);
  }

  lemma RunningParts(s: State)
    requires Running(s)
    ensures Closed(s) && Linked(s.procs, s.ring)
  {
  }

  lemma DoPasses(s: State, e: Event, a: State)
    requires Inv(s) && Up(s) && Can(s, e) && Passes(s, e) && e != Exit && Closed(a)
    requires if e == Timer then a == s
             else a == WithStatus(WithTicks(s, s.cur.value, if e.Usleep? then SleepTicks(e.us) else NEVER), s.cur.value,
               SLEEP)
    ensures Do(s, e).cur == Scheduled(a).cur && |Do(s, e).procs| == |a.procs|
    ensures forall q :: 0 <= q < |a.procs| ==> Do(s, e).procs[q].status == Scheduled(a).procs[q].status
  {
    hide Inv, Closed, Scheduled, Exited, Born, Created, Pressed;
    PausedIsSlept(s);
  }

  /** While the ring stays as it is, each call of schedule brings the turn closer to an ACTIVE process p. */
  lemma TurnStep(s: State, e: Event, p: nat)
    requires Inv(s) && Up(s) && Can(s, e) && Do(s, e).ring == s.ring && p in s.ring && p < |s.procs|
    requires p < |Do(s, e).procs| && Do(s, e).procs[p].status == ACTIVE
    ensures s.cur.Some? && s.cur.value in s.ring && Do(s, e).cur.Some? && Do(s, e).cur.value in s.ring
    ensures !Passes(s, e) ==> Do(s, e).cur == s.cur
    ensures Passes(s, e) ==>
      || Do(s, e).cur == Some(p)
      || Distance(s.ring, Do(s, e).cur.value, p) < Distance(s.ring, s.cur.value, p)
  {
    hide Inv;
    InRing(s);
    if e == Exit {
      ExitShrinks(s);
    } else if Passes(s, e) {
      var a := PassState(s, e);
      hide Inv, Up, Can, Do, Closed, Linked, Scheduled;
      ScheduledCloser(a, p);
    }
    hide Inv, Closed;
  }

  lemma ExitShrinks(s: State)
    requires Inv(s) && Up(s) && Can(s, Exit)
    ensures Do(s, Exit).ring != s.ring
  {
    hide Inv, Running, Closed, Do, Exited, Can, OtherActive;
    InvUp(s);
    RunningParts(s);
    InRing(s);
    DoExit(s);
    CanExit(s);
    IdleOther(s);
    Exiting(s, s.cur.value);
    ExitedRunning(s, s.cur.value);
  }

  lemma CanExit(s: State)
    requires Up(s) && Can(s, Exit)
    ensures s.cur != Some(0)
  {
    hide Closed;
  }

  lemma DoExit(s: State)
    requires Up(s) && Closed(s) && s.cur.Some? && s.cur.value in s.ring
    ensures Do(s, Exit) == Exited(s, s.cur.value)
  {
    hide Closed, Exited;
  }

  /** p stays in an unchanged ring, ACTIVE, during steps i..j. */
  ghost predicate Steady(ss: seq<State>, i: nat, j: nat, p: nat)
    requires i <= j < |ss|
  {
    && p in ss[i].ring
    && forall k :: i <= k <= j ==> ss[k].ring == ss[i].ring && p < |ss[k].procs| && ss[k].procs[p].status == ACTIVE
  }

  lemma {:induction false} TurnComesCloser(ss: seq<State>, es: seq<Event>, i: nat, j: nat, p: nat)
    requires Run(ss, es) && Inv(ss[0]) && i <= j <= |es| && |ss| == |es| + 1 && Steady(ss, i, j, p)
    requires forall k :: i < k <= j ==> ss[k].cur != Some(p)
    ensures ss[i].cur.Some? && ss[i].cur.value in ss[i].ring && ss[j].cur.Some? && ss[j].cur.value in ss[i].ring
    ensures p in ss[i].ring
    ensures Distance(ss[i].ring, ss[j].cur.value, p) + Count(ss, es, i, j) <= Distance(ss[i].ring, ss[i].cur.value, p)
    decreases j - i
  {
    hide Inv, Do, Up, Can, Run, Distance;
    if i == j {
      RunUp(ss, es, i);
    } else {
      TurnComesCloser(ss, es, i, j - 1, p);
      RunStep(ss, es, j - 1);
      assert ss[j - 1].ring == ss[i].ring && ss[j].ring == ss[i].ring;
      TurnStep(ss[j - 1], es[j - 1], p);
    }
  }

  lemma RunUp(ss: seq<State>, es: seq<Event>, i: nat)
    requires Run(ss, es) && Inv(ss[0]) && i < |ss|
    ensures ss[i].cur.Some? && ss[i].cur.value in ss[i].ring
  {
    RunInv(ss, es, i);
    InRing(ss[i]);
  }

  /** Bounded waiting: a process that stays ACTIVE in an unchanged ring of n processes is chosen by one of
      any n calls of schedule. */
  lemma BoundedWaiting(ss: seq<State>, es: seq<Event>, i: nat, j: nat, p: nat)
    requires Run(ss, es) && Inv(ss[0]) && i <= j <= |es| && |ss| == |es| + 1 && Steady(ss, i, j, p)
    requires Count(ss, es, i, j) >= |ss[i].ring|
    ensures exists k :: i < k <= j && ss[k].cur == Some(p)
  {
    if forall k :: i < k <= j ==> ss[k].cur != Some(p) {
      TurnComesCloser(ss, es, i, j, p);
    }
  }
}
