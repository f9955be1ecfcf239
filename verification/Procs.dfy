/** The process list and the scheduler as steps on values. A process is named by its pid; get_pid numbers
    processes from 0, so that the process table is a sequence. The class in module Scheduler is proved to
    take these steps. */
module Procs {
  import opened Bits
  import opened Options

  datatype Status = ACTIVE | SLEEP | ZOMBIE
  datatype Use = NONE | GETC | GETS

  /** What syscall_exec_extern finds under its path. */
  datatype Image = NO_FILE | NO_EXECUTABLE | EXECUTABLE

  /** (unsigned) -1: no timeout, or no child waited for. */
  const NEVER: Word := 0xffff_ffff
  const PIT_FREQ := 50
  const KEY_ENTER := 66

  /** The fields of struct proc that scheduling depends on. ppid is the number the parent gave its child. */
  datatype Info = Info(ppid: Word, waitpid: Word, childCount: Word, ticks: Word, status: Status,
                       parent: Option<nat>, next: nat, prev: nat)

  /** The processes, the list they form, first_proc, current_proc, and the statics of the keyboard wrapper. */
  datatype State = State(procs: seq<Info>, ring: seq<nat>, first: Option<nat>, cur: Option<nat>,
                         use: Use, waiter: Option<nat>)

  predicate Within(o: Option<nat>, n: nat) { o.Some? ==> o.value < n }

  predicate InfoClosed(i: Info, n: nat) {
    i.next < n && i.prev < n && Within(i.parent, n)
  }

  /** All pointers lead to processes, and the scheduler starts from a member of the ring. */
  ghost predicate Closed(s: State) {
    && (forall p :: 0 <= p < |s.procs| ==> InfoClosed(s.procs[p], |s.procs|))
    && (forall k :: 0 <= k < |s.ring| ==> s.ring[k] < |s.procs|)
    && Within(s.first, |s.procs|) && Within(s.waiter, |s.procs|) && (s.first.Some? <==> s.procs != [])
    && (s.cur.Some? ==> s.cur.value in s.ring)
    && (s.cur == None && s.first.Some? ==> s.first.value in s.ring)
  }

  // ----- the ring -----

  function Succ(ring: seq<nat>, i: nat): nat
    requires i < |ring|
  {
    if i + 1 < |ring| then ring[i + 1] else ring[0]
  }

  /** The processes of ring are one cycle, and next and prev are inverse on it. */
  ghost predicate Linked(procs: seq<Info>, ring: seq<nat>) {
    && (forall i :: 0 <= i < |ring| ==> ring[i] < |procs|)
    && (forall i, j :: 0 <= i < j < |ring| ==> ring[i] != ring[j])
    && (forall i: nat {:trigger Succ(ring, i)} :: i < |ring| ==>
         procs[ring[i]].next == Succ(ring, i) && procs[Succ(ring, i)].prev == ring[i])
  }

  function Index(ring: seq<nat>, c: nat): (k: nat)
    requires c in ring
    ensures k < |ring| && ring[k] == c
  {
    if ring[0] == c then 0 else 1 + Index(ring[1..], c)
  }

  /** The ring from the successor of c on, back to c. */
  function From(ring: seq<nat>, c: nat): (r: seq<nat>)
    requires c in ring
    ensures |r| == |ring| && r[|r| - 1] == c && forall p :: p in r <==> p in ring
  {
    ring[Index(ring, c) + 1..] + ring[..Index(ring, c) + 1]
  }

  function Without(ring: seq<nat>, c: nat): seq<nat>
    requires c in ring
  {
    ring[..Index(ring, c)] + ring[Index(ring, c) + 1..]
  }

  function Turned(n: nat, k: nat, i: nat): (j: nat)
    requires k <= n && i < n
    ensures j < n
  {
    if i < n - k then k + i else i - (n - k)
  }

  lemma RotatedAt(ring: seq<nat>, k: nat, i: nat)
    requires k <= |ring| && i < |ring|
    ensures (ring[k..] + ring[..k])[i] == ring[Turned(|ring|, k, i)]
  {
  }

  lemma FromIndex(ring: seq<nat>, c: nat, i: nat)
    requires c in ring && i < |ring|
    ensures From(ring, c)[i] == ring[Turned(|ring|, Index(ring, c) + 1, i)]
  {
    hide Index, Turned;
    RotatedAt(ring, Index(ring, c) + 1, i);
  }

  lemma FromAt(ring: seq<nat>, c: nat, i: nat)
    requires c in ring && i < |ring|
    ensures var r, j := From(ring, c), Turned(|ring|, Index(ring, c) + 1, i);
      r[i] == ring[j] && Succ(r, i) == Succ(ring, j)
  {
    hide From, Index;
    FromIndex(ring, c, i);
    FromIndex(ring, c, if i + 1 < |ring| then i + 1 else 0);
  }

  lemma LinkedAt(procs: seq<Info>, ring: seq<nat>, i: nat)
    requires Linked(procs, ring) && i < |ring|
    ensures ring[i] < |procs| && Succ(ring, i) < |procs| && procs[ring[i]].next == Succ(ring, i)
    ensures procs[Succ(ring, i)].prev == ring[i]
  {
  }

  lemma LinkedFrom(procs: seq<Info>, ring: seq<nat>, c: nat)
    requires Linked(procs, ring) && c in ring
    ensures Linked(procs, From(ring, c))
    ensures forall i :: 0 <= i < |From(ring, c)| ==> From(ring, c)[i] < |procs|
  {
    var r, k, n := From(ring, c), Index(ring, c) + 1, |ring|;
    hide Index, From, Succ;
    forall i: nat | i < n
      ensures r[i] == ring[Turned(n, k, i)] && r[i] < |procs|
      ensures procs[r[i]].next == Succ(r, i) && Succ(r, i) < |procs| && procs[Succ(r, i)].prev == r[i]
    {
      FromAt(ring, c, i);
      LinkedAt(procs, ring, Turned(n, k, i));
    }
    forall i, j | 0 <= i < j < n ensures r[i] != r[j] {
      Distinct(ring, Turned(n, k, i), Turned(n, k, j));
    }
    hide Linked;
    LinkedIntro(procs, r);
  }

  lemma Distinct(ring: seq<nat>, i: nat, j: nat)
    requires i < |ring| && j < |ring| && i != j
    requires forall i, j :: 0 <= i < j < |ring| ==> ring[i] != ring[j]
    ensures ring[i] != ring[j]
  {
  }

  lemma LinkedIntro(procs: seq<Info>, ring: seq<nat>)
    requires forall i :: 0 <= i < |ring| ==> ring[i] < |procs|
    requires forall i, j :: 0 <= i < j < |ring| ==> ring[i] != ring[j]
    requires forall i: nat {:trigger Succ(ring, i)} :: i < |ring| ==>
      procs[ring[i]].next == Succ(ring, i) && procs[Succ(ring, i)].prev == ring[i]
    ensures Linked(procs, ring)
  {
  }

  // ----- schedule -----

  /** What the tick pass does to one process. */
  function Tick(i: Info): Info {
    if i.status == SLEEP && i.ticks != NEVER then
      if Decremented(i.ticks) == 0 then i.(ticks := NEVER, status := ACTIVE) else i.(ticks := Decremented(i.ticks))
    else i
  }

  /** -- on an unsigned word. */
  function Decremented(t: Word): Word { if t == 0 then NEVER else t - 1 }

  function TickAll(procs: seq<Info>, members: seq<nat>): (r: seq<Info>)
    ensures |r| == |procs|
    ensures forall i :: 0 <= i < |r| ==> r[i] == if i in members then Tick(procs[i]) else procs[i]
  {
    seq(|procs|, i requires 0 <= i < |procs| => if i in members then Tick(procs[i]) else procs[i])
  }

  /** The process LOOK_FOR_ACTIVE_PROC stops at; None if it goes round for ever. */
  function FirstActive(procs: seq<Info>, r: seq<nat>): (p: Option<nat>)
    requires forall k :: 0 <= k < |r| ==> r[k] < |procs|
    ensures p.Some? ==> p.value in r && procs[p.value].status == ACTIVE
    ensures p == None ==> forall k :: 0 <= k < |r| ==> procs[r[k]].status != ACTIVE
  {
    if r == [] then None else if procs[r[0]].status == ACTIVE then Some(r[0]) else FirstActive(procs, r[1..])
  }

  function Scheduled(s: State): (r: State)
    requires Closed(s)
    ensures r.ring == s.ring && r.first == s.first && r.use == s.use && r.waiter == s.waiter && |r.procs| == |s.procs|
    ensures forall i :: 0 <= i < |r.procs| ==> r.procs[i] == s.procs[i] || r.procs[i] == Tick(s.procs[i])
  {
    if s.cur.Some? then
      var procs := TickAll(s.procs, s.ring);
      s.(procs := procs, cur := FirstActive(procs, From(s.ring, s.cur.value)))
    else if s.first.Some? then
      s.(cur := FirstActive(s.procs, From(s.ring, s.first.value)))
    else s
  }

  /** A process other than the running one is ACTIVE, as the idle process always is. */
  ghost predicate OtherActive(s: State) {
    exists q :: q in s.ring && q < |s.procs| && s.cur != Some(q) && s.procs[q].status == ACTIVE
  }

  /** Then schedule comes to its end. */
  lemma ScheduleEnds(s: State, q: nat)
    requires Closed(s) && s.cur.Some? && q in s.ring && q < |s.procs| && s.procs[q].status == ACTIVE
    ensures Scheduled(s).cur.Some?
  {
    var procs, r := TickAll(s.procs, s.ring), From(s.ring, s.cur.value);
    assert q in r && procs[q].status == ACTIVE;
  }

  // ----- create, fork -----

  function NewProc(n: nat): Info { Info(0, 0, 0, NEVER, ACTIVE, None, n, n) }

  function WithNext(procs: seq<Info>, p: nat, q: nat): (r: seq<Info>)
    requires p < |procs|
    ensures |r| == |procs|
  {
    procs[p := procs[p].(next := q)]
  }

  function WithPrev(procs: seq<Info>, p: nat, q: nat): (r: seq<Info>)
    requires p < |procs|
    ensures |r| == |procs|
  {
    procs[p := procs[p].(prev := q)]
  }

  /** The pointer surgery of create_proc. */
  function LinkIn(procs: seq<Info>, first: Option<nat>): (r: seq<Info>)
    requires forall p :: 0 <= p < |procs| ==> InfoClosed(procs[p], |procs|)
    requires Within(first, |procs|) && (first.Some? <==> procs != [])
    ensures |r| == |procs| + 1
  {
    var n, a := |procs|, procs + [NewProc(|procs|)];
    if n == 0 then a
    else
      assert InfoClosed(procs[first.value], n);
      var b := WithPrev(WithNext(a, n, first.value), n, a[first.value].prev);
      WithPrev(WithNext(b, b[first.value].prev, n), first.value, n)
  }

  function Created(s: State): (r: State)
    requires Closed(s)
    ensures Closed(r)
  {
    var n := |s.procs|;
    s.(procs := LinkIn(s.procs, s.first), first := Some(n),
       ring := if s.ring == [] || s.first == Some(s.ring[0]) then [n] + s.ring else s.ring + [n])
  }

  /** create_proc, then the assignments of proc_fork and syscall_exec_extern. */
  function Born(s: State): (r: State)
    requires Closed(s) && s.cur.Some?
    ensures Closed(r)
  {
    var n, p, a := |s.procs|, s.cur.value, Created(s).procs;
    var number := (a[p].childCount + 1) % 0x1_0000_0000;
    Created(s).(procs := a[p := a[p].(childCount := number)][n := a[n].(parent := Some(p), ppid := number)])
  }

  // ----- sleep, wait, exit -----

  function WithStatus(s: State, p: nat, status: Status): State
    requires p < |s.procs|
  {
    s.(procs := s.procs[p := s.procs[p].(status := status)])
  }

  function WithTicks(s: State, p: nat, ticks: Word): State
    requires p < |s.procs|
  {
    s.(procs := s.procs[p := s.procs[p].(ticks := ticks)])
  }

  /** A state that differs in data fields only is as closed and as linked. */
  lemma DataKept(s: State, a: State)
    requires Closed(s) && a == s.(procs := a.procs) && |a.procs| == |s.procs|
    requires forall p :: 0 <= p < |s.procs| ==>
      s.procs[p].next == a.procs[p].next && s.procs[p].prev == a.procs[p].prev && s.procs[p].parent == a.procs[p].parent
    ensures Closed(a) && (Linked(s.procs, s.ring) ==> Linked(a.procs, a.ring))
  {
    forall p | 0 <= p < |s.procs| ensures InfoClosed(a.procs[p], |a.procs|) {
      assert InfoClosed(s.procs[p], |s.procs|);
    }
  }

  /** The current process goes to sleep. */
  function Paused(s: State): (r: State)
    requires Closed(s) && s.cur.Some?
    ensures |r.procs| == |s.procs| && r.ring == s.ring && r.first == s.first && r.use == s.use && r.waiter == s.waiter
  {
    StatusKept(s, s.cur.value, SLEEP);
    Scheduled(WithStatus(s, s.cur.value, SLEEP))
  }

  /** It goes to sleep with a timeout. */
  function Slept(s: State, ticks: Word): State
    requires Closed(s) && s.cur.Some?
  {
    TicksKept(s, s.cur.value, ticks);
    Paused(WithTicks(s, s.cur.value, ticks))
  }

  function Waited(s: State, pid: Word): State
    requires Closed(s) && s.cur.Some?
  {
    Paused(s).(procs := Paused(s).procs[s.cur.value := Paused(s).procs[s.cur.value].(waitpid := pid)])
  }

  /** The process becomes a zombie and its parent is told. */
  function Ended(procs: seq<Info>, p: nat): (r: seq<Info>)
    requires p < |procs| && Within(procs[p].parent, |procs|)
    ensures |r| == |procs|
    ensures forall i :: 0 <= i < |r| ==>
      r[i].next == procs[i].next && r[i].prev == procs[i].prev && r[i].parent == procs[i].parent
  {
    var a := procs[p := procs[p].(status := ZOMBIE)];
    match procs[p].parent
    case Some(q) =>
      if a[q].waitpid == a[p].ppid then a[q := a[q].(waitpid := NEVER, status := ACTIVE)] else a
    case None => a
  }

  /** The pointer surgery of proc_kill. */
  function Unlink(procs: seq<Info>, p: nat): (r: seq<Info>)
    requires p < |procs| && procs[p].next < |procs| && procs[p].prev < |procs|
    ensures |r| == |procs|
  {
    var a := WithNext(procs, procs[p].prev, procs[p].next);
    WithPrev(a, a[p].next, a[p].prev)
  }

  /** proc_kill: the process leaves the list, after another one was scheduled if it was running. */
  function Killed(s: State, p: nat): State
    requires Closed(s) && s.cur.Some? && p in s.ring
  {
    assert InfoClosed(s.procs[p], |s.procs|);
    var b := if s.cur == Some(p) then Scheduled(s) else s;
    b.(procs := Unlink(b.procs, p), ring := Without(b.ring, p))
  }

  /** proc_exit. */
  function Exited(s: State, p: nat): State
    requires Closed(s) && s.cur.Some? && p in s.ring
  {
    assert InfoClosed(s.procs[p], |s.procs|);
    DataKept(s, s.(procs := Ended(s.procs, p)));
    Killed(s.(procs := Ended(s.procs, p)), p)
  }

  // ----- the keyboard -----

  function Reading(s: State, use: Use): State
    requires Closed(s) && s.cur.Some?
  {
    if s.use == NONE then
      Paused(s).(use := use, waiter := s.cur)
    else s
  }

  function Pressed(s: State, code: nat): State
    requires Closed(s) && (s.use != NONE ==> s.waiter.Some?)
  {
    if s.use == GETC || (s.use == GETS && code == KEY_ENTER) then
      var w := s.waiter.value;
      s.(procs := s.procs[w := s.procs[w].(status := ACTIVE)], use := NONE, waiter := None)
    else s
  }

  // ----- what the steps keep of pointers and ring -----

  lemma StatusKept(s: State, p: nat, status: Status)
    requires Closed(s) && p < |s.procs|
    ensures Closed(WithStatus(s, p, status))
    ensures (Linked(s.procs, s.ring) ==> Linked(WithStatus(s, p, status).procs, s.ring))
  {
    DataKept(s, WithStatus(s, p, status));
  }

  lemma TicksKept(s: State, p: nat, ticks: Word)
    requires Closed(s) && p < |s.procs|
    ensures Closed(WithTicks(s, p, ticks)) && (Linked(s.procs, s.ring) ==> Linked(WithTicks(s, p, ticks).procs, s.ring))
    ensures OtherActive(s) ==> OtherActive(WithTicks(s, p, ticks))
  {
    DataKept(s, WithTicks(s, p, ticks));
    if OtherActive(s) {
      var q :| q in s.ring && q < |s.procs| && s.cur != Some(q) && s.procs[q].status == ACTIVE;
      assert WithTicks(s, p, ticks).procs[q].status == ACTIVE;
    }
  }

  lemma SleepEnds(s: State)
    requires Closed(s) && s.cur.Some? && OtherActive(s)
    ensures Closed(WithStatus(s, s.cur.value, SLEEP)) && Scheduled(WithStatus(s, s.cur.value, SLEEP)).cur.Some?
  {
    StatusKept(s, s.cur.value, SLEEP);
    var q :| q in s.ring && q < |s.procs| && s.cur != Some(q) && s.procs[q].status == ACTIVE;
    ScheduleEnds(WithStatus(s, s.cur.value, SLEEP), q);
  }

  lemma ScheduledKeeps(s: State)
    requires Closed(s) && Scheduled(s).cur.Some?
    ensures Closed(Scheduled(s)) && (Linked(s.procs, s.ring) ==> Linked(Scheduled(s).procs, s.ring))
    ensures Scheduled(s).procs[Scheduled(s).cur.value].status == ACTIVE
  {
    hide FirstActive, From, Index;
    var a := s.(procs := Scheduled(s).procs);
    DataKept(s, a);
  }

  /** The links create_proc changes. */
  lemma CreatedLinks(s: State, x: nat)
    requires Closed(s) && s.procs != [] && x < |s.procs|
    ensures var t, n, f := Created(s).procs, |s.procs|, s.first.value;
      && f < n && s.procs[f].prev < n && t[n].next == f && t[n].prev == s.procs[f].prev
      && t[x].next == (if x == s.procs[f].prev then n else s.procs[x].next)
      && t[x].prev == (if x == f then n else s.procs[x].prev)
  {
    assert InfoClosed(s.procs[s.first.value], |s.procs|);
  }

  /** create_proc adds the new process just before the one that was first. */
  lemma CreatedLinked(s: State)
    requires Closed(s) && Linked(s.procs, s.ring)
    requires (if s.procs == [] then s.ring == [] else s.ring != [] && s.first == Some(s.ring[0]))
    ensures Linked(Created(s).procs, Created(s).ring)
  {
    var t, n, m := Created(s), |s.procs|, |s.ring|;
    if n > 0 {
      hide Linked;
      forall i: nat | i <= m
        ensures t.ring[i] < |t.procs| && Succ(t.ring, i) < |t.procs|
        ensures t.procs[t.ring[i]].next == Succ(t.ring, i) && t.procs[Succ(t.ring, i)].prev == t.ring[i]
      {
        CreatedAt(s, i);
      }
      CreatedDistinct(s);
      LinkedIntro(t.procs, t.ring);
    }
  }

  lemma CreatedDistinct(s: State)
    requires Closed(s) && Linked(s.procs, s.ring) && s.ring != [] && s.first == Some(s.ring[0])
    ensures forall i, j :: 0 <= i < j < |Created(s).ring| ==> Created(s).ring[i] != Created(s).ring[j]
  {
  }

  lemma CreatedAt(s: State, i: nat)
    requires Closed(s) && Linked(s.procs, s.ring) && s.ring != [] && s.first == Some(s.ring[0]) && i <= |s.ring|
    ensures var t := Created(s);
      && t.ring[i] < |t.procs| && Succ(t.ring, i) < |t.procs|
      && t.procs[t.ring[i]].next == Succ(t.ring, i) && t.procs[Succ(t.ring, i)].prev == t.ring[i]
  {
    var t, n, m := Created(s), |s.procs|, |s.ring|;
    hide LinkIn, Created, Linked;
    assert t.ring == [n] + s.ring && |t.procs| == n + 1 by { RingOfCreated(s); }
    LinkedAt(s.procs, s.ring, m - 1);
    CreatedLinks(s, s.ring[0]);
    CreatedLinks(s, s.ring[m - 1]);
    if i > 0 {
      LinkedAt(s.procs, s.ring, i - 1);
      CreatedLinks(s, s.ring[i - 1]);
      if i < m {
        CreatedLinks(s, s.ring[i]);
        LinkedDistinct(s.procs, s.ring, i - 1, m - 1);
        LinkedDistinct(s.procs, s.ring, i, 0);
      }
    }
  }

  lemma RingOfCreated(s: State)
    requires Closed(s) && s.ring != [] && s.first == Some(s.ring[0])
    ensures Created(s).ring == [|s.procs|] + s.ring && |Created(s).procs| == |s.procs| + 1
  {
  }

  lemma LinkedDistinct(procs: seq<Info>, ring: seq<nat>, i: nat, j: nat)
    requires Linked(procs, ring) && i < |ring| && j < |ring| && i != j
    ensures ring[i] != ring[j]
  {
  }

  lemma UnlinkLinks(procs: seq<Info>, p: nat, x: nat)
    requires p < |procs| && procs[p].next < |procs| && procs[p].prev < |procs| && x < |procs|
    ensures Unlink(procs, p)[x].next == if x == procs[p].prev then procs[p].next else procs[x].next
    ensures Unlink(procs, p)[x].prev == if x == procs[p].next then procs[p].prev else procs[x].prev
    ensures Unlink(procs, p)[x] == procs[x].(next := Unlink(procs, p)[x].next, prev := Unlink(procs, p)[x].prev)
  {
  }

  /** The place of the ring that place i of the ring without p was. */
  function Place(ring: seq<nat>, p: nat, i: nat): nat
    requires p in ring
  {
    if i < Index(ring, p) then i else i + 1
  }

  lemma WithoutAt(ring: seq<nat>, p: nat, i: nat)
    requires p in ring && i + 1 < |ring| && forall i, j :: 0 <= i < j < |ring| ==> ring[i] != ring[j]
    ensures |Without(ring, p)| == |ring| - 1 && Place(ring, p, i) < |ring|
    ensures Without(ring, p)[i] == ring[Place(ring, p, i)] != p
    ensures var y := Succ(ring, Place(ring, p, i));
      Succ(Without(ring, p), i) == if y == p then Succ(ring, Index(ring, p)) else y
  {
  }

  /** The neighbours of p. */
  lemma Neighbours(procs: seq<Info>, ring: seq<nat>, p: nat)
    requires Linked(procs, ring) && p in ring
    ensures p < |procs| && procs[p].next < |procs| && procs[p].prev < |procs|
    ensures procs[procs[p].next].prev == p && procs[procs[p].prev].next == p
    ensures procs[p].next == Succ(ring, Index(ring, p))
  {
    var k := Index(ring, p);
    LinkedAt(procs, ring, k);
    LinkedAt(procs, ring, if k == 0 then |ring| - 1 else k - 1);
  }

  lemma UnlinkAt(procs: seq<Info>, ring: seq<nat>, p: nat, i: nat)
    requires Linked(procs, ring) && p in ring && i + 1 < |ring| && p < |procs| && procs[p].next < |procs|
    requires procs[p].prev < |procs|
    ensures var t, r := Unlink(procs, p), Without(ring, p);
      && |r| == |ring| - 1 && r[i] < |procs| && Succ(r, i) < |procs|
      && t[r[i]].next == Succ(r, i) && t[Succ(r, i)].prev == r[i]
  {
    WithoutAt(ring, p, i);
    Neighbours(procs, ring, p);
    var j := Place(ring, p, i);
    LinkedAt(procs, ring, j);
    LinkedAt(procs, ring, Index(ring, p));
    hide Linked, Unlink, Without, Place, Succ, Index;
    UnlinkLinks(procs, p, ring[j]);
    UnlinkLinks(procs, p, Succ(ring, j));
    UnlinkLinks(procs, p, procs[p].next);
  }

  /** An exit unlinks exactly the exiting process. */
  lemma UnlinkLinked(procs: seq<Info>, ring: seq<nat>, p: nat)
    requires Linked(procs, ring) && p in ring && p < |procs| && procs[p].next < |procs| && procs[p].prev < |procs|
    ensures Linked(Unlink(procs, p), Without(ring, p))
    ensures forall x :: x in Without(ring, p) <==> x in ring && x != p
  {
    var t, r := Unlink(procs, p), Without(ring, p);
    WithoutMembers(ring, p);
    forall i: nat | i < |r|
      ensures r[i] < |t| && Succ(r, i) < |t| && t[r[i]].next == Succ(r, i) && t[Succ(r, i)].prev == r[i]
    {
      UnlinkAt(procs, ring, p, i);
    }
    hide Linked, Unlink, Without, Succ;
    LinkedIntro(t, r);
  }

  lemma WithoutMembers(ring: seq<nat>, p: nat)
    requires p in ring && forall i, j :: 0 <= i < j < |ring| ==> ring[i] != ring[j]
    ensures |Without(ring, p)| == |ring| - 1
    ensures forall i, j :: 0 <= i < j < |Without(ring, p)| ==> Without(ring, p)[i] != Without(ring, p)[j]
    ensures forall x :: x in Without(ring, p) <==> x in ring && x != p
  {
    var r, k := Without(ring, p), Index(ring, p);
    forall x | x in ring && x != p ensures x in r {
      var j :| 0 <= j < |ring| && ring[j] == x;
      assert r[if j < k then j else j - 1] == x;
    }
  }

  lemma LinkedData(procs: seq<Info>, a: seq<Info>, ring: seq<nat>)
    requires Linked(procs, ring) && |procs| == |a|
    requires forall p :: 0 <= p < |procs| ==> procs[p].next == a[p].next && procs[p].prev == a[p].prev
    ensures Linked(a, ring)
  {
  }

  // ----- the list stays one cycle -----

  /** The ring is one cycle, and the running process is an ACTIVE member of it. */
  ghost predicate Running(s: State) {
    && Closed(s) && Linked(s.procs, s.ring)
    && s.cur.Some? && s.cur.value < |s.procs| && s.procs[s.cur.value].status == ACTIVE
  }

  lemma ScheduledRunning(s: State)
    requires Closed(s) && Linked(s.procs, s.ring) && Scheduled(s).cur.Some?
    ensures Running(Scheduled(s))
  {
    ScheduledKeeps(s);
  }

  lemma PausedRunning(s: State)
    requires Running(s) && OtherActive(s)
    ensures Running(Paused(s))
  {
    SleepEnds(s);
    StatusKept(s, s.cur.value, SLEEP);
    hide Linked, Closed, Scheduled;
    ScheduledRunning(WithStatus(s, s.cur.value, SLEEP));
  }

  lemma SleptRunning(s: State, ticks: Word)
    requires Running(s) && OtherActive(s)
    ensures Running(Slept(s, ticks))
  {
    TicksKept(s, s.cur.value, ticks);
    PausedRunning(WithTicks(s, s.cur.value, ticks));
  }

  lemma WaitedRunning(s: State, pid: Word)
    requires Running(s) && OtherActive(s)
    ensures Running(Waited(s, pid))
  {
    hide Paused, OtherActive;
    PausedRunning(s);
    DataKept(Paused(s), Waited(s, pid));
    hide Closed, Linked;
  }

  lemma ReadingRunning(s: State, use: Use)
    requires Running(s) && OtherActive(s)
    ensures Running(Reading(s, use))
  {
    PausedRunning(s);
    hide Linked, Paused;
    ClosedParts(Paused(s), Paused(s).(use := use, waiter := s.cur));
  }

  lemma ClosedParts(a: State, b: State)
    requires Closed(a) && b == a.(use := b.use, waiter := b.waiter) && Within(b.waiter, |a.procs|)
    ensures Closed(b)
  {
  }

  lemma PressedRunning(s: State, code: nat)
    requires Running(s) && (s.use != NONE ==> s.waiter.Some?)
    ensures Running(Pressed(s, code))
  {
    if s.use == GETC || (s.use == GETS && code == KEY_ENTER) {
      var a := WithStatus(s, s.waiter.value, ACTIVE);
      StatusKept(s, s.waiter.value, ACTIVE);
      hide Linked;
      ClosedParts(a, Pressed(s, code));
    }
  }

  /** With first_proc in the list, a new process is linked in just before it. */
  lemma BornRunning(s: State)
    requires Running(s) && s.first == Some(s.ring[0])
    ensures Running(Born(s)) && Born(s).ring == [|s.procs|] + s.ring && Born(s).first == Some(Born(s).ring[0])
  {
    CreatedLinked(s);
    RingOfCreated(s);
    CreatedData(s);
    hide Linked, LinkIn;
    LinkedData(Created(s).procs, Born(s).procs, Created(s).ring);
  }

  /** Creating a process changes links only. */
  lemma CreatedData(s: State)
    requires Closed(s)
    ensures |Created(s).procs| == |s.procs| + 1
    ensures Created(s).procs[|s.procs|] ==
      NewProc(|s.procs|).(next := Created(s).procs[|s.procs|].next, prev := Created(s).procs[|s.procs|].prev)
    ensures forall p :: 0 <= p < |s.procs| ==>
      Created(s).procs[p] == s.procs[p].(next := Created(s).procs[p].next, prev := Created(s).procs[p].prev)
  {
  }

  /** An exit of any process of the list, first or not, unlinks exactly that process; the running process
      is a member of what remains. */
  lemma ExitedRunning(s: State, p: nat)
    requires Running(s) && p in s.ring && (s.cur == Some(p) ==> OtherActive(s)) && s.procs[p].parent != Some(p)
    ensures Running(Exited(s, p)) && forall x :: x in Exited(s, p).ring <==> x in s.ring && x != p
    ensures s.ring[0] != p ==> Exited(s, p).ring != [] && Exited(s, p).ring[0] == s.ring[0]
  {
    var a := s.(procs := Ended(s.procs, p));
    assert InfoClosed(s.procs[p], |s.procs|);
    DataKept(s, a);
    EndedActive(s, p);
    var b := if s.cur == Some(p) then Scheduled(a) else a;
    if s.cur == Some(p) {
      var q :| q in s.ring && q < |s.procs| && s.cur != Some(q) && s.procs[q].status == ACTIVE;
      ScheduleEnds(a, q);
      ScheduledRunning(a);
    }
    hide Scheduled, Ended;
    assert b.procs[p].status == ZOMBIE by { ScheduledZombie(a, p); }
    UnlinkRunning(b, p);
  }

  lemma EndedActive(s: State, p: nat)
    requires p < |s.procs| && Within(s.procs[p].parent, |s.procs|) && s.procs[p].parent != Some(p)
    ensures Ended(s.procs, p)[p].status == ZOMBIE
    ensures forall q :: 0 <= q < |s.procs| && q != p && s.procs[q].status == ACTIVE ==>
      Ended(s.procs, p)[q].status == ACTIVE
  {
  }

  lemma ScheduledZombie(a: State, p: nat)
    requires Closed(a) && p < |a.procs| && a.procs[p].status == ZOMBIE
    ensures Scheduled(a).procs[p].status == ZOMBIE
  {
  }

  lemma UnlinkRunning(b: State, p: nat)
    requires Running(b) && p in b.ring && p < |b.procs| && b.procs[p].status == ZOMBIE
    requires b.procs[p].next < |b.procs| && b.procs[p].prev < |b.procs|
    ensures var r := b.(procs := Unlink(b.procs, p), ring := Without(b.ring, p));
      && Running(r) && (forall x :: x in r.ring <==> x in b.ring && x != p)
      && (b.ring[0] != p ==> r.ring != [] && r.ring[0] == b.ring[0])
  {
    var r := b.(procs := Unlink(b.procs, p), ring := Without(b.ring, p));
    UnlinkLinked(b.procs, b.ring, p);
    hide Linked;
    forall x | 0 <= x < |b.procs| ensures InfoClosed(r.procs[x], |r.procs|) && r.procs[x].status == b.procs[x].status {
      UnlinkLinks(b.procs, p, x);
      assert InfoClosed(b.procs[x], |b.procs|);
    }
  }
}
