/** What every run of system calls, key events and timer interrupts keeps. */
module Lifecycle {
  import opened Bits
  import opened Options
  import opened Procs

  /** ExecExtern tells whether there was an executable; a file that is none is an Exit of the caller. */
  datatype Event =
    | Timer | Fork | ExecExtern(found: bool) | Usleep(us: Word) | Waitpid(pid: Word)
    | Getc | Gets | Key(code: nat) | Exit | Spawn

  /** The ring holds exactly the processes that have not exited, and new processes come first. */
  ghost predicate Members(s: State) {
    && (forall p :: 0 <= p < |s.procs| ==> (p in s.ring <==> s.procs[p].status != ZOMBIE))
    && (s.first.Some? && s.first.value in s.ring ==> s.ring != [] && s.first == Some(s.ring[0]))
  }

  /** Process 0 is idle, which makes no system calls. */
  ghost predicate IdleReady(s: State) {
    s.procs != [] && s.procs[0].status == ACTIVE && s.procs[0].parent == None
  }

  predicate NoChild(w: Word) { w == 0 || w == NEVER }

  /** Only sleeping processes wait; a sleeping process waits for one thing. */
  predicate Waits(i: Info) {
    && (i.status != SLEEP ==> i.ticks == NEVER && NoChild(i.waitpid))
    && (i.ticks != NEVER ==> i.ticks > 0 && NoChild(i.waitpid))
  }

  ghost predicate AllWait(s: State) {
    && (forall p :: 0 <= p < |s.procs| ==> Waits(s.procs[p]))
    && (s.use != NONE <==> s.waiter.Some?)
    && (s.waiter.Some? ==> s.waiter.value < |s.procs| && Reads(s.procs[s.waiter.value]))
  }

  /** A process the keyboard wrapper can wake. */
  predicate Reads(i: Info) { i.status == SLEEP && i.ticks == NEVER && NoChild(i.waitpid) }

  /** Children are younger than their parent, and numbered by it without repetition. */
  ghost predicate Family(procs: seq<Info>) {
    && (forall p :: 0 <= p < |procs| ==> ChildOk(procs, p))
    && (forall p, r :: 0 <= p < r < |procs| && procs[p].parent == procs[r].parent && procs[p].parent.Some? ==>
         procs[p].ppid != procs[r].ppid)
  }

  ghost predicate ChildOk(procs: seq<Info>, p: nat)
    requires p < |procs|
  {
    && procs[p].childCount < NEVER
    && (procs[p].parent.Some? ==>
         && procs[p].parent.value < p
         && 1 <= procs[p].ppid <= procs[procs[p].parent.value].childCount)
  }

  ghost predicate Inv(s: State) {
    Running(s) && Members(s) && IdleReady(s) && AllWait(s) && Family(s.procs)
  }

  /** What a step needs: only processes other than idle make system calls, a process is created while
      first_proc is in the list, and a parent does not run out of child numbers. */
  predicate Can(s: State, e: Event)
    requires s.cur.Some? && s.cur.value < |s.procs|
  {
    match e
    case Timer => true
    case Key(_) => true
    case Spawn => RootIn(s)
    case Fork => s.cur != Some(0) && RootIn(s) && s.procs[s.cur.value].childCount < NEVER - 1
    case ExecExtern(found) => s.cur != Some(0) && (found ==> RootIn(s) && s.procs[s.cur.value].childCount < NEVER - 1)
    case _ => s.cur != Some(0)
  }

  /** first_proc has not exited. */
  predicate RootIn(s: State) { s.first.Some? && s.first.value in s.ring }

  /** The state of a system that is up: the pointers are sound, and a process is running. */
  ghost predicate Up(s: State) {
    Closed(s) && s.cur.Some? && s.cur.value < |s.procs| && (s.use != NONE ==> s.waiter.Some?)
  }

  ghost function Do(s: State, e: Event): State
    requires Up(s)
  {
    match e
    case Timer => Scheduled(s)
    case Fork => Born(s)
    case ExecExtern(found) => if found then Born(s) else s
    case Usleep(us) => Slept(s, us / (1000000 / PIT_FREQ))
    case Waitpid(pid) => Waited(s, pid)
    case Getc => Reading(s, GETC)
    case Gets => Reading(s, GETS)
    case Key(code) => Pressed(s, code)
    case Exit => Exited(s, s.cur.value)
    case Spawn => Created(s)
  }

  // ----- the scheduler -----

  /** schedule changes the processes of the ring by one tick, and no others. */
  lemma ScheduledProcs(s: State, p: nat)
    requires Closed(s) && s.cur.Some? && p < |s.procs|
    ensures Scheduled(s).procs[p] == if p in s.ring then Tick(s.procs[p]) else s.procs[p]
  {
  }

  lemma TickWaits(i: Info)
    requires LooseWaits(i)
    ensures Waits(Tick(i)) && (i.status == ZOMBIE <==> Tick(i).status == ZOMBIE)
    ensures Reads(i) ==> Tick(i) == i
    ensures i.status == ACTIVE ==> Tick(i) == i
    ensures SameKin(i, Tick(i))
  {
  }

  predicate SameKin(i: Info, j: Info) {
    i.parent == j.parent && i.ppid == j.ppid && i.childCount == j.childCount
  }

  lemma FamilySame(procs: seq<Info>, a: seq<Info>)
    requires Family(procs) && |a| == |procs|
    requires forall p :: 0 <= p < |procs| ==> SameKin(procs[p], a[p])
    ensures Family(a)
  {
    forall p | 0 <= p < |procs| ensures ChildOk(a, p) {
      assert ChildOk(procs, p);
    }
  }

  /** Everything but Running, so that it holds inside steps too. */
  ghost predicate Sound(s: State) {
    Members(s) && IdleReady(s) && AllWait(s) && Family(s.procs)
  }

  /** Before schedule: a process that has just gone to sleep may have a timeout of 0. */
  ghost predicate Loose(s: State) {
    && Members(s) && IdleReady(s) && Family(s.procs)
    && (forall p :: 0 <= p < |s.procs| ==> LooseWaits(s.procs[p]))
    && (s.use != NONE <==> s.waiter.Some?)
    && (s.waiter.Some? ==> s.waiter.value < |s.procs| && Reads(s.procs[s.waiter.value]))
  }

  predicate LooseWaits(i: Info) { Waits(i) || (i.status == SLEEP && NoChild(i.waitpid)) }

  lemma ScheduledSound(s: State)
    requires Closed(s) && s.cur.Some? && Loose(s)
    ensures Sound(Scheduled(s))
  {
    var t := Scheduled(s);
    hide Family, Members, Tick, Waits, LooseWaits, SameKin, Reads;
    forall p | 0 <= p < |s.procs|
      ensures Waits(t.procs[p]) && (s.procs[p].status == ZOMBIE <==> t.procs[p].status == ZOMBIE)
      ensures Reads(s.procs[p]) || s.procs[p].status == ACTIVE ==> t.procs[p] == s.procs[p]
      ensures SameKin(s.procs[p], t.procs[p])
    {
      assert LooseWaits(s.procs[p]);
      Gone(s, p);
      ScheduledProc(s, p);
    }
    hide Scheduled, Closed;
    FamilySame(s.procs, t.procs);
    MembersSame(s, t);
  }

  lemma ScheduledProc(s: State, p: nat)
    requires Closed(s) && s.cur.Some? && p < |s.procs| && LooseWaits(s.procs[p])
    requires p in s.ring || s.procs[p].status == ZOMBIE
    ensures var t := Scheduled(s);
      && Waits(t.procs[p]) && (s.procs[p].status == ZOMBIE <==> t.procs[p].status == ZOMBIE)
      && (Reads(s.procs[p]) || s.procs[p].status == ACTIVE ==> t.procs[p] == s.procs[p])
      && SameKin(s.procs[p], t.procs[p])
  {
    hide Closed, Scheduled, Waits, Reads;
    ScheduledProcs(s, p);
    TickWaits(s.procs[p]);
  }

  lemma Gone(s: State, p: nat)
    requires Members(s) && p < |s.procs|
    ensures p in s.ring || s.procs[p].status == ZOMBIE
  {
  }

  lemma MembersSame(s: State, t: State)
    requires Members(s) && t.ring == s.ring && t.first == s.first && |t.procs| == |s.procs|
    requires forall p :: 0 <= p < |s.procs| ==> (s.procs[p].status == ZOMBIE <==> t.procs[p].status == ZOMBIE)
    ensures Members(t)
  {
  }

  // ----- sleeping -----

  lemma IdleOther(s: State)
    requires Inv(s) && s.cur != Some(0)
    ensures OtherActive(s)
  {
    assert 0 in s.ring;
  }

  /** The running process has gone to sleep, but schedule has not yet been called. */
  lemma AsleepLoose(s: State, ticks: Word)
    requires Inv(s) && s.cur != Some(0)
    ensures var a := WithStatus(WithTicks(s, s.cur.value, ticks), s.cur.value, SLEEP);
      Closed(a) && Loose(a) && (ticks == NEVER ==> Reads(a.procs[s.cur.value]))
  {
    var c := s.cur.value;
    var a := WithStatus(WithTicks(s, c, ticks), c, SLEEP);
    DataKept(s, a);
    hide Closed, Linked;
    assert Waits(s.procs[c]);
    forall p | 0 <= p < |s.procs| ensures LooseWaits(a.procs[p]) && SameKin(s.procs[p], a.procs[p]) {
      assert Waits(s.procs[p]);
    }
    FamilySame(s.procs, a.procs);
    hide Family;
    MembersSame(s, a);
  }

  lemma SleptSound(s: State, ticks: Word)
    requires Inv(s) && s.cur != Some(0)
    ensures Sound(Slept(s, ticks))
  {
    AsleepLoose(s, ticks);
    hide Loose, Sound, Inv, Closed, Scheduled;
    ScheduledSound(WithStatus(WithTicks(s, s.cur.value, ticks), s.cur.value, SLEEP));
  }

  lemma PausedIsSlept(s: State)
    requires Inv(s)
    ensures Closed(s) && s.cur.Some? && s.cur.value < |s.procs| && Paused(s) == Slept(s, NEVER)
    ensures s.procs[s.cur.value].status == ACTIVE
  {
    assert Waits(s.procs[s.cur.value]);
    assert WithTicks(s, s.cur.value, NEVER) == s;
  }

  lemma PausedSound(s: State)
    requires Inv(s) && s.cur != Some(0)
    ensures Closed(s) && s.cur.Some? && Sound(Paused(s)) && Reads(Paused(s).procs[s.cur.value])
    ensures |Paused(s).procs| == |s.procs|
    ensures s.waiter.Some? ==> s.waiter != s.cur
  {
    PausedIsSlept(s);
    SleptSound(s, NEVER);
    AsleepLoose(s, NEVER);
    var a := WithStatus(WithTicks(s, s.cur.value, NEVER), s.cur.value, SLEEP);
    assert s.waiter.Some? ==> Reads(s.procs[s.waiter.value]);
    hide Loose, Sound, Inv, Closed, Scheduled;
    ScheduledProcs(a, s.cur.value);
    TickWaits(a.procs[s.cur.value]);
  }

  lemma WaitedSound(s: State, pid: Word)
    requires Inv(s) && s.cur != Some(0)
    ensures Sound(Waited(s, pid))
  {
    hide Paused, Inv, Running, Closed, Family, Members;
    PausedSound(s);
    PausedIsSlept(s);
    var a, t := Paused(s), Waited(s, pid);
    FamilySame(a.procs, t.procs);
    MembersSame(a, t);
  }

  lemma ReadingSound(s: State, use: Use)
    requires Inv(s) && s.cur != Some(0) && use != NONE
    ensures Sound(Reading(s, use))
  {
    hide Paused, Running, Family;
    PausedSound(s);
    MembersSame(s, s);
  }

  lemma PressedSound(s: State, code: nat)
    requires Inv(s)
    ensures Sound(Pressed(s, code))
  {
    var t := Pressed(s, code);
    hide Running;
    FamilySame(s.procs, t.procs);
    hide Family;
    MembersSame(s, t);
  }

  // ----- creation -----

  /** A new process without kin, or a child of p numbered with p's next number. */
  lemma CreatedSound(s: State)
    requires Inv(s) && RootIn(s)
    ensures Sound(Created(s)) && Running(Created(s))
  {
    var t, n := Created(s), |s.procs|;
    CreatedLinked(s);
    RingOfCreated(s);
    CreatedData(s);
    hide Created, Linked, Running, Closed;
    forall p | 0 <= p < n ensures SameKin(s.procs[p], t.procs[p]) && ChildOk(t.procs, p) {
      assert ChildOk(s.procs, p);
    }
    FamilyMore(s.procs, t.procs);
    hide Family;
    CreatedMembers(s, t);
  }

  lemma FamilyMore(procs: seq<Info>, t: seq<Info>)
    requires Family(procs) && |t| == |procs| + 1 && t[|procs|].parent == None && t[|procs|].childCount == 0
    requires forall p :: 0 <= p < |procs| ==> SameKin(procs[p], t[p])
    ensures Family(t)
  {
    forall p | 0 <= p < |t| ensures ChildOk(t, p) {
      assert p < |procs| ==> ChildOk(procs, p);
    }
  }

  lemma CreatedMembers(s: State, t: State)
    requires Members(s) && t.ring == [|s.procs|] + s.ring && t.first == Some(|s.procs|) && |t.procs| == |s.procs| + 1
    requires (forall k :: 0 <= k < |s.ring| ==> s.ring[k] < |s.procs|) && t.procs[|s.procs|].status == ACTIVE
    requires forall p :: 0 <= p < |s.procs| ==> t.procs[p].status == s.procs[p].status
    ensures Members(t)
  {
    assert forall p :: p in s.ring ==> p < |s.procs|;
  }

  lemma BornSound(s: State)
    requires Inv(s) && RootIn(s) && s.procs[s.cur.value].childCount < NEVER - 1
    ensures Sound(Born(s)) && Running(Born(s))
    ensures var n, number := |s.procs|, s.procs[s.cur.value].childCount + 1;
      Born(s).procs[n].parent == s.cur && Born(s).procs[n].ppid == number == Born(s).procs[s.cur.value].childCount
  {
    hide LinkIn;
    BornRunning(s);
    CreatedSound(s);
    CreatedData(s);
    var a, t := Created(s), Born(s);
    hide Created, Running, Linked, Closed;
    FamilyBorn(s.procs, a.procs, t.procs, s.cur.value);
    hide Family;
    MembersSame(a, t);
  }

  lemma FamilyBorn(procs: seq<Info>, a: seq<Info>, t: seq<Info>, c: nat)
    requires Family(procs) && |a| == |procs| + 1 && c < |procs| && procs[c].childCount < NEVER - 1
    requires a[|procs|].childCount == 0
    requires forall p :: 0 <= p < |procs| ==> SameKin(procs[p], a[p])
    requires a[c].childCount < NEVER - 1 &&
      t == a[c := a[c].(childCount := a[c].childCount + 1)]
            [|procs| := a[|procs|].(parent := Some(c), ppid := a[c].childCount + 1)]
    ensures Family(t)
  {
    forall p | 0 <= p < |t| ensures ChildOk(t, p) {
      assert p < |procs| ==> ChildOk(procs, p);
    }
    forall p | 0 <= p < |procs| && procs[p].parent == Some(c) ensures procs[p].ppid != a[c].childCount + 1 {
      assert ChildOk(procs, p);
    }
  }

  // ----- exit -----

  /** What an exit does to process x, apart from the links. */
  lemma ExitedProcs(s: State, x: nat)
    requires Inv(s) && s.cur != Some(0) && x < |s.procs|
    ensures var c, t := s.cur.value, Exited(s, s.cur.value);
      && c in s.ring && Within(s.procs[c].parent, |s.procs|) && |t.procs| == |s.procs|
      && t.procs[x] == (if x in s.ring then Tick(Ended(s.procs, c)[x]) else Ended(s.procs, c)[x])
           .(next := t.procs[x].next, prev := t.procs[x].prev)
      && t.use == s.use && t.waiter == s.waiter && t.first == s.first
  {
    hide TickAll, From, IdleReady, Waits;
    var c := s.cur.value;
    assert InfoClosed(s.procs[c], |s.procs|);
    var a := s.(procs := Ended(s.procs, c));
    DataKept(s, a);
    assert InfoClosed(a.procs[c], |a.procs|);
    hide Linked, Family, Members, AllWait, Ended;
    ScheduledProcs(a, x);
    ScheduledProcs(a, c);
    var b := Scheduled(a);
    hide Scheduled, Closed;
    assert b.procs[c].next < |b.procs| && b.procs[c].prev < |b.procs|;
    UnlinkLinks(b.procs, c, x);
  }

  /** Process x is the parent of c and waits for it. */
  predicate WaitsFor(procs: seq<Info>, x: nat, c: nat)
    requires x < |procs| && c < |procs|
  {
    procs[c].parent == Some(x) && procs[x].waitpid == procs[c].ppid
  }

  lemma EndedProc(procs: seq<Info>, c: nat, x: nat)
    requires c < |procs| && x < |procs| && Within(procs[c].parent, |procs|) && procs[c].parent != Some(c)
    requires Waits(procs[x]) && procs[c].status == ACTIVE && (procs[c].parent.Some? ==> !NoChild(procs[c].ppid))
    ensures var e := Ended(procs, c)[x];
      && Waits(e) && SameKin(procs[x], e)
      && e == (if x == c then procs[x].(status := ZOMBIE)
               else if WaitsFor(procs, x, c) then procs[x].(waitpid := NEVER, status := ACTIVE) else procs[x])
    ensures x != c && WaitsFor(procs, x, c) ==> procs[x].status == SLEEP && procs[x].ticks == NEVER && !Reads(procs[x])
  {
  }

  /** The exiting process is gone; its parent is woken exactly when it waits for this child; every other
      process has had one tick. */
  ghost predicate ExitDoes(s: State, c: nat, x: nat, t: Info)
    requires x < |s.procs| && c < |s.procs|
  {
    if x == c then t.status == ZOMBIE && t.ticks == NEVER && NoChild(t.waitpid)
    else if WaitsFor(s.procs, x, c) then s.procs[x].status == SLEEP && t.status == ACTIVE && t.ticks == NEVER
      && t.waitpid == NEVER
    else t.status == Tick(s.procs[x]).status && t.ticks == Tick(s.procs[x]).ticks && t.waitpid == s.procs[x].waitpid
  }

  lemma ExitedProc(s: State, x: nat)
    requires Inv(s) && s.cur != Some(0) && x < |s.procs|
    ensures var c, t := s.cur.value, Exited(s, s.cur.value).procs[x];
      ExitDoes(s, c, x, t) && Waits(t) && SameKin(s.procs[x], t) && (Reads(s.procs[x]) ==> Reads(t))
  {
    ExitedProcs(s, x);
    var c, t := s.cur.value, Exited(s, s.cur.value).procs[x];
    Exiting(s, x);
    hide Inv, Exited, Ended;
    EndedProc(s.procs, c, x);
    EndedTick(s, c, x, Ended(s.procs, c)[x], t);
  }

  lemma EndedTick(s: State, c: nat, x: nat, e: Info, t: Info)
    requires c < |s.procs| && x < |s.procs| && (x in s.ring || s.procs[x].status == ZOMBIE) && Waits(s.procs[x])
    requires Waits(s.procs[c])
    requires s.procs[c].status == ACTIVE && Waits(e) && SameKin(s.procs[x], e)
    requires e == (if x == c then s.procs[x].(status := ZOMBIE)
                   else if WaitsFor(s.procs, x, c) then s.procs[x].(waitpid := NEVER, status := ACTIVE) else s.procs[x])
    requires x != c && WaitsFor(s.procs, x, c) ==>
      s.procs[x].status == SLEEP && s.procs[x].ticks == NEVER && !Reads(s.procs[x])
    requires t == (if x in s.ring then Tick(e) else e).(next := t.next, prev := t.prev)
    ensures ExitDoes(s, c, x, t) && Waits(t) && SameKin(s.procs[x], t) && (Reads(s.procs[x]) ==> Reads(t))
  {
    TickWaits(e);
  }

  lemma Exiting(s: State, x: nat)
    requires Inv(s) && s.cur != Some(0) && x < |s.procs|
    ensures var c := s.cur.value;
      && c < |s.procs| && s.procs[c].status == ACTIVE && Within(s.procs[c].parent, |s.procs|)
           && s.procs[c].parent != Some(c)
      && (s.procs[c].parent.Some? ==> !NoChild(s.procs[c].ppid))
      && Waits(s.procs[x]) && Waits(s.procs[c]) && (x in s.ring || s.procs[x].status == ZOMBIE)
  {
    var c := s.cur.value;
    assert ChildOk(s.procs, c) && Waits(s.procs[x]) && Waits(s.procs[c]);
    if s.procs[c].parent.Some? {
      assert ChildOk(s.procs, s.procs[c].parent.value);
    }
  }

  lemma ExitedSound(s: State)
    requires Inv(s) && s.cur != Some(0)
    ensures Sound(Exited(s, s.cur.value)) && Running(Exited(s, s.cur.value))
  {
    hide IdleReady, OtherActive;
    var c, t := s.cur.value, Exited(s, s.cur.value);
    IdleOther(s);
    Exiting(s, 0);
    ExitedRunning(s, c);
    ExitedProcs(s, c);
    hide Exited, Running, Linked, Closed, ExitDoes;
    forall x | 0 <= x < |s.procs|
      ensures Waits(t.procs[x]) && SameKin(s.procs[x], t.procs[x]) && (Reads(s.procs[x]) ==> Reads(t.procs[x]))
      ensures ExitDoes(s, c, x, t.procs[x])
    {
      ExitedProc(s, x);
    }
    FamilySame(s.procs, t.procs);
    hide Family, Waits, Reads, SameKin;
    ExitedMembers(s, t);
  }

  lemma ExitedMembers(s: State, t: State)
    requires Members(s) && IdleReady(s) && s.cur.Some? && s.cur != Some(0) && s.cur.value < |s.procs|
    requires |t.procs| == |s.procs|
    requires t.first == s.first && (forall x :: x in t.ring <==> x in s.ring && x != s.cur.value)
    requires s.ring[0] != s.cur.value ==> t.ring != [] && t.ring[0] == s.ring[0]
    requires forall x :: 0 <= x < |s.procs| ==>
      ExitDoes(s, s.cur.value, x, t.procs[x]) && SameKin(s.procs[x], t.procs[x])
    ensures Members(t) && IdleReady(t)
  {
  }
}
