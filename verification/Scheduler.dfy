/** The process structures, the scheduler, and the system calls that put processes to sleep and wake them.
    A system call is one step: schedule chooses the process that runs next, and the code after the call to
    schedule still runs before that process does. */
module Scheduler {
  import opened Bits
  import opened Options
  import opened Procs

  class Proc {
    const pid: nat
    var ppid: Word
    var waitpid: Word
    var childCount: Word
    var ticksUtilWake: Word
    var status: Status
    var parent: Proc?
    var next: Proc
    var prev: Proc

    constructor (pid: nat)
      ensures this.pid == pid && next == this && prev == this && parent == null
      ensures View() == Procs.NewProc(pid)
    {
      this.pid := pid;
      ppid, waitpid, childCount := 0, 0, 0;
      ticksUtilWake := NEVER;
      status := ACTIVE;
      parent := null;
      next := this;
      prev := this;
    }

    ghost function View(): Info
      reads this
    {
      Info(ppid, waitpid, childCount, ticksUtilWake, status, Pid(parent), next.pid, prev.pid)
    }
  }

  ghost function Pid(p: Proc?): Option<nat> { if p == null then None else Some(p.pid) }

  class Scheduler {
    var firstProc: Proc?
    var currentProc: Proc?
    var procCount: nat
    var use: Use
    var proc: Proc?
    ghost var table: seq<Proc>
    ghost var procs: seq<Info>
    ghost var ring: seq<nat>

    constructor ()
      ensures Valid() && View() == State([], [], None, None, NONE, None)
    {
      firstProc, currentProc, procCount, use, proc := null, null, 0, NONE, null;
      table, procs, ring := [], [], [];
    }

    ghost function View(): State
      reads this
    {
      State(procs, ring, Pid(firstProc), Pid(currentProc), use, Pid(proc))
    }

    ghost predicate Known(p: Proc)
      reads this
    {
      p.pid < |table| && table[p.pid] == p
    }

    /** Every pointer leads to a process of the table, and procs is what the structures hold. */
    ghost predicate Pointers()
      reads this, table
    {
      && procCount == |table| == |procs| && (forall i :: 0 <= i < |table| ==> table[i].pid == i)
      && (forall i {:trigger procs[i]} {:trigger table[i].View()} :: 0 <= i < |table| ==> table[i].View() == procs[i])
      && (forall i {:trigger table[i].next} :: 0 <= i < |table| ==> Known(table[i].next))
      && (forall i {:trigger table[i].prev} :: 0 <= i < |table| ==> Known(table[i].prev))
      && (forall i {:trigger table[i].parent} :: 0 <= i < |table| && table[i].parent != null ==> Known(table[i].parent))
      && (firstProc != null ==> Known(firstProc)) && (currentProc != null ==> Known(currentProc))
      && (proc != null ==> Known(proc))
    }

    ghost predicate Valid()
      reads this, table
    {
      Pointers() && Closed(View()) && (use != NONE ==> proc != null)
    }

    method ProcWake(p: Proc) returns (r: int)
      requires Pointers() && Known(p)
      modifies p`status, this`procs
      ensures Pointers()
      ensures View() == old(View()).(procs := old(procs)[p.pid := old(procs)[p.pid].(status := ACTIVE)])
      ensures r == if old(p.status) != ACTIVE then 0 else -1
    {
      if p.status != ACTIVE {
        p.status := ACTIVE;
        r := 0;
      } else {
        r := -1;
      }
      procs := procs[p.pid := p.View()];
    }

    /** The processes after the current one, and back to it, in the order of the next pointers. */
    lemma Follow(r: seq<nat>, i: nat)
      requires Pointers() && Linked(procs, r) && i < |r|
      ensures r[i] < |table| && table[r[i]].next == table[Succ(r, i)] && table[r[i]].pid == r[i]
      ensures Known(table[r[i]].next) && table[r[i]].next.pid == Succ(r, i)
    {
      LinkedAt(procs, r, i);
      assert table[r[i]].View() == procs[r[i]];
      assert Known(table[r[i]].next);
    }

    /** The body of the first loop of schedule. */
    method TickProc(p: Proc)
      requires Pointers() && Known(p)
      modifies p`ticksUtilWake, p`status, this`procs
      ensures Pointers() && procs == old(procs)[p.pid := Tick(old(procs)[p.pid])]
    {
      hide Pointers;
      Facts(p);
      if p.status == SLEEP && p.ticksUtilWake != NEVER {
        SetTimeout(p, Decremented(p.ticksUtilWake));
        Facts(p);
        if p.ticksUtilWake == 0 {
          SetTimeout(p, NEVER);
          SetStatus(p, ACTIVE);
        }
      }
    }

    /** The first loop: every process of the ring is visited once. */
    method TickPass()
      requires Pointers() && Linked(procs, ring) && currentProc != null && currentProc.pid in ring
      modifies this`procs, table
      ensures Pointers() && procs == TickAll(old(procs), ring)
    {
      hide Pointers, Linked, TickAll, From, Succ, Tick;
      ghost var r, before := From(ring, currentProc.pid), procs;
      LinkedFrom(procs, ring, currentProc.pid);
      TickNone(before, r);
      Globals();
      var p: Proc := currentProc;
      ghost var i := 0;
      var again := true;
      while again
        invariant Pointers() && i <= |r| && procs == TickAll(before, r[..i])
        invariant Known(p) && p.pid == r[if i == 0 then |r| - 1 else i - 1]
        invariant again <==> i < |r|
        decreases |r| - i
      {
        TickLinks(before, r, r[..i]);
        Follow(r, if i == 0 then |r| - 1 else i - 1);
        TickOne(before, r, i);
        p := p.next;
        TickProc(p);
        i := i + 1;
        again := p != currentProc;
      }
      TickSame(before, r, ring);
    }

    method Advance(ghost r: seq<nat>, ghost i: nat)
      requires Pointers() && Linked(procs, r) && i < |r| && currentProc != null && currentProc.pid == r[i]
      modifies this`currentProc
      ensures Pointers() && currentProc != null && currentProc.pid == Succ(r, i)
      ensures (currentProc.status == procs[Succ(r, i)].status)
    {
      hide Linked, Succ;
      Follow(r, i);
      LinkedAt(procs, r, i);
      currentProc := currentProc.next;
      assert table[Succ(r, i)].View() == procs[Succ(r, i)];
    }

    /** LOOK_FOR_ACTIVE_PROC. */
    method LookForActive()
      requires Pointers() && Linked(procs, ring) && currentProc != null && currentProc.pid in ring
      requires FirstActive(procs, From(ring, currentProc.pid)).Some?
      modifies this`currentProc
      ensures Pointers() && Pid(currentProc) == FirstActive(procs, From(ring, old(currentProc.pid)))
    {
      hide Linked, From, Succ, FirstActive, Pointers, ActiveFrom;
      ghost var r, i := From(ring, currentProc.pid), 0;
      LinkedFrom(procs, ring, currentProc.pid);
      ghost var goal := FirstActive(procs, r);
      SuccFirst(procs, r);
      Advance(r, |r| - 1);
      while currentProc.status != ACTIVE
        invariant Pointers() && i < |r| && currentProc != null && currentProc.pid == r[i]
        invariant currentProc.status == procs[r[i]].status
        invariant ActiveFrom(procs, r, i, goal)
        decreases |r| - i
      {
        SuccNext(procs, r, i, goal);
        Advance(r, i);
        i := i + 1;
      }
      ActiveHere(procs, r, i, goal);
    }

    /** The interrupt handler of the timer, also called by sleep and exit. It ends when it finds an ACTIVE
        process; activating that process is not modelled. */
    method Schedule()
      requires Valid() && Linked(procs, ring)
      requires firstProc != null ==> Scheduled(View()).cur.Some?
      modifies this`currentProc, this`procs, table
      ensures Pointers() && View() == Scheduled(old(View()))
    {
      hide Linked, From, TickAll, FirstActive;
      if currentProc != null {
        TickLinks(procs, ring, ring);
        TickPass();
        LookForActive();
      } else {
        if firstProc != null {
          currentProc := firstProc;
          LookForActive();
        }
      }
    }

    // ----- assignments through pointers -----

    method SetNext(p: Proc, q: Proc)
      requires Pointers() && Known(p) && Known(q)
      modifies p`next, this`procs
      ensures Pointers() && procs == WithNext(old(procs), p.pid, q.pid)
    {
      assert p.View() == procs[p.pid];
      p.next := q;
      procs := procs[p.pid := p.View()];
    }

    method SetPrev(p: Proc, q: Proc)
      requires Pointers() && Known(p) && Known(q)
      modifies p`prev, this`procs
      ensures Pointers() && procs == WithPrev(old(procs), p.pid, q.pid)
    {
      assert p.View() == procs[p.pid];
      p.prev := q;
      procs := procs[p.pid := p.View()];
    }

    lemma Facts(p: Proc)
      requires Pointers() && Known(p)
      ensures p.View() == procs[p.pid] && |procs| == |table| == procCount
      ensures Known(p.next) && Known(p.prev) && p.next.pid == procs[p.pid].next && p.prev.pid == procs[p.pid].prev
      ensures p.parent != null ==> Known(p.parent)
      ensures Pid(p.parent) == procs[p.pid].parent
    {
      assert table[p.pid].View() == procs[p.pid];
      assert Known(table[p.pid].next) && Known(table[p.pid].prev);
    }

    lemma Globals()
      requires Pointers()
      ensures |procs| == |table| == procCount
      ensures firstProc != null ==> Known(firstProc)
      ensures currentProc != null ==> Known(currentProc)
      ensures proc != null ==> Known(proc)
    {
    }

    method SetFirst(p: Proc, ghost ring: seq<nat>)
      requires Pointers() && Known(p)
      modifies this`firstProc, this`ring
      ensures Pointers() && firstProc == p && this.ring == ring
    {
      firstProc := p;
      this.ring := ring;
    }

    // ----- creation -----

    /** malloc and get_pid: a structure linked to itself. */
    method NewProc() returns (p: Proc)
      requires Pointers()
      modifies this`procCount, this`table, this`procs
      ensures Pointers() && fresh(p) && table == old(table) + [p] && p.pid == |old(table)| && Known(p)
      ensures procs == old(procs) + [Procs.NewProc(p.pid)]
    {
      p := new Proc(procCount);
      procCount := procCount + 1;
      table := table + [p];
      procs := procs + [p.View()];
    }

    /** The end of create_proc: p becomes the predecessor of first_proc, or a ring of its own. */
    method LinkProc(p: Proc, ghost before: seq<Info>)
      requires Pointers() && Known(p) && p.pid == |before| && procs == before + [Procs.NewProc(p.pid)]
      requires Within(Pid(firstProc), |before|) && (firstProc != null <==> before != [])
      requires forall q :: 0 <= q < |before| ==> InfoClosed(before[q], |before|)
      modifies this`procs, table
      ensures Pointers() && procs == LinkIn(before, Pid(firstProc))
    {
      hide Pointers, View;
      Globals();
      if procCount == 1 {
        SetNext(p, p);
        SetPrev(p, p);
      } else {
        SetNext(p, firstProc);
        Facts(firstProc);
        SetPrev(p, firstProc.prev);
        Facts(firstProc);
        SetNext(firstProc.prev, p);
        SetPrev(firstProc, p);
      }
    }

    method CreateProc() returns (p: Proc)
      requires Valid()
      modifies this`firstProc, this`procCount, this`table, this`procs, this`ring, table
      ensures Valid() && View() == Created(old(View()))
      ensures fresh(p) && table == old(table) + [p] && p.pid == |old(table)|
    {
      hide Pointers, LinkIn;
      ghost var s := View();
      Globals();
      p := NewProc();
      Globals();
      LinkProc(p, s.procs);
      SetFirst(p, Created(s).ring);
      Globals();
    }

    // ----- sleeping and waiting -----

    method SetStatus(p: Proc, status: Status)
      requires Pointers() && Known(p)
      modifies p`status, this`procs
      ensures Pointers() && procs == old(procs)[p.pid := old(procs)[p.pid].(status := status)]
    {
      assert p.View() == procs[p.pid];
      p.status := status;
      procs := procs[p.pid := p.View()];
    }

    method SetTimeout(p: Proc, ticks: Word)
      requires Pointers() && Known(p)
      modifies p`ticksUtilWake, this`procs
      ensures Pointers() && procs == old(procs)[p.pid := old(procs)[p.pid].(ticks := ticks)]
    {
      assert p.View() == procs[p.pid];
      p.ticksUtilWake := ticks;
      procs := procs[p.pid := p.View()];
    }

    method SetWaitpid(p: Proc, pid: Word)
      requires Pointers() && Known(p)
      modifies p`waitpid, this`procs
      ensures Pointers() && procs == old(procs)[p.pid := old(procs)[p.pid].(waitpid := pid)]
    {
      assert p.View() == procs[p.pid];
      p.waitpid := pid;
      procs := procs[p.pid := p.View()];
    }

    method ProcSleep(p: Proc) returns (r: int)
      requires Valid() && Linked(procs, ring) && Known(p) && (p == currentProc ==> OtherActive(View()))
      modifies this`currentProc, this`procs, table
      ensures Pointers()
      ensures r == if old(procs)[p.pid].status == SLEEP then -1 else 0
      ensures r == -1 ==> View() == old(View())
      ensures r == 0 && p != old(currentProc) ==> View() == WithStatus(old(View()), p.pid, SLEEP)
      ensures r == 0 && p == old(currentProc) ==> View() == Scheduled(WithStatus(old(View()), p.pid, SLEEP))
    {
      hide Pointers, Linked, Scheduled;
      Globals();
      Facts(p);
      if p.status != SLEEP {
        ghost var s := View();
        SetStatus(p, SLEEP);
        StatusKept(s, p.pid, SLEEP);
        if p == currentProc {
          SleepEnds(s);
          Schedule();
        }
      } else {
        return -1;
      }
      return 0;
    }

    method ProcWaitpid(p: Proc, pid: Word)
      requires Valid() && Linked(procs, ring) && Known(p)
      requires p == currentProc ==> Running(View()) && OtherActive(View())
      modifies this`currentProc, this`procs, table
      ensures Valid() && p.pid < |old(procs)|
      ensures p == old(currentProc) ==> Running(View()) && View() == Waited(old(View()), pid)
      ensures p != old(currentProc) ==>
        View() == old(View()).(procs := old(procs)[p.pid := old(procs)[p.pid].(status := SLEEP, waitpid := pid)])
    {
      hide Pointers, Scheduled, Linked, Closed, Running;
      ghost var s := View();
      Globals();
      Facts(p);
      if p == currentProc {
        RunningFacts();
        WaitedRunning(s, pid);
        RunningClosed(Waited(s, pid));
      } else {
        DataKept(s, s.(procs := s.procs[p.pid := s.procs[p.pid].(status := SLEEP, waitpid := pid)]));
      }
      var r := ProcSleep(p);
      Globals();
      SetWaitpid(p, pid);
      if p == old(currentProc) {
        assert View() == Waited(s, pid);
      } else {
        assert procs == s.procs[p.pid := s.procs[p.pid].(status := SLEEP, waitpid := pid)];
        assert View() == s.(procs := procs);
      }
    }

    lemma RunningClosed(s: State)
      requires Running(s)
      ensures Closed(s)
    {
    }

    lemma RunningFacts()
      requires Valid() && Running(View())
      ensures currentProc != null && Known(currentProc) && currentProc.pid < |procs|
      ensures procs[currentProc.pid].status == ACTIVE
      ensures Closed(View()) && Linked(procs, ring) && |procs| == |table|
      ensures (firstProc != null ==> Known(firstProc)) && (proc != null ==> Known(proc))
    {
    }

    method SyscallWaitpid(ebx: Word)
      requires Valid() && Running(View()) && OtherActive(View())
      modifies this`currentProc, this`procs, table
      ensures Valid() && Running(View()) && View() == Waited(old(View()), ebx)
    {
      ProcWaitpid(currentProc, ebx);
    }

    method SyscallUsleep(ebx: Word)
      requires Valid() && Running(View()) && OtherActive(View())
      modifies this`currentProc, this`procs, table
      ensures Valid() && Running(View()) && View() == Slept(old(View()), ebx / (1000000 / PIT_FREQ))
    {
      hide Pointers, Scheduled, Linked, Closed;
      RunningFacts();
      var p := currentProc;
      ghost var s := View();
      SleptRunning(s, ebx / (1000000 / PIT_FREQ));
      SetTimeout(p, ebx / (1000000 / PIT_FREQ));
      TicksKept(s, p.pid, ebx / (1000000 / PIT_FREQ));
      var _ := ProcSleep(p);
    }

    // ----- fork and exec_extern -----

    method SetParent(p: Proc, parent: Proc)
      requires Pointers() && Known(p) && Known(parent)
      modifies p`parent, this`procs
      ensures Pointers() && procs == old(procs)[p.pid := old(procs)[p.pid].(parent := Some(parent.pid))]
    {
      assert p.View() == procs[p.pid];
      p.parent := parent;
      procs := procs[p.pid := p.View()];
    }

    method SetNumber(p: Proc, ppid: Word)
      requires Pointers() && Known(p)
      modifies p`ppid, this`procs
      ensures Pointers() && procs == old(procs)[p.pid := old(procs)[p.pid].(ppid := ppid)] && p.ppid == ppid
    {
      assert p.View() == procs[p.pid];
      p.ppid := ppid;
      procs := procs[p.pid := p.View()];
    }

    /** ++p->child_count. */
    method CountChild(p: Proc) returns (number: Word)
      requires Pointers() && Known(p)
      modifies p`childCount, this`procs
      ensures number == (old(procs)[p.pid].childCount + 1) % 0x1_0000_0000
      ensures Pointers() && procs == old(procs)[p.pid := old(procs)[p.pid].(childCount := number)]
    {
      assert p.View() == procs[p.pid];
      number := (p.childCount + 1) % 0x1_0000_0000;
      p.childCount := number;
      procs := procs[p.pid := p.View()];
    }

    /** What both do once the new process exists: it becomes a numbered child of the current one. */
    method Adopt(child: Proc)
      requires Pointers() && Known(child) && currentProc != null && child != currentProc
      modifies this`procs, table
      ensures Pointers()
      ensures currentProc.pid != child.pid && currentProc.pid < |old(procs)| && child.pid < |old(procs)|
      ensures child.ppid == (old(procs)[currentProc.pid].childCount + 1) % 0x1_0000_0000
      ensures procs == old(procs)[currentProc.pid := old(procs)[currentProc.pid].(childCount := child.ppid)]
        [child.pid := old(procs)[child.pid].(parent := Some(currentProc.pid), ppid := child.ppid, status := ACTIVE)]
    {
      hide Pointers;
      Globals();
      SetParent(child, currentProc);
      var number := CountChild(currentProc);
      SetNumber(child, number);
      SetStatus(child, ACTIVE);
    }

    /** fork on the current process: the process list's part of it. */
    method SyscallFork() returns (ebx: Word)
      requires Valid() && Running(View()) && firstProc != null && firstProc.pid == ring[0]
      modifies this`firstProc, this`procCount, this`table, this`procs, this`ring, table
      ensures Valid() && Running(View()) && View() == Born(old(View())) && firstProc != null && firstProc.pid == ring[0]
      ensures ebx == procs[|old(procs)|].ppid
    {
      hide Pointers, Linked, Closed, LinkIn;
      RunningFacts();
      ghost var s := View();
      BornRunning(s);
      var child := CreateProc();
      Globals();
      CreatedData(s);
      Adopt(child);
      ebx := child.ppid;
    }

    // ----- exit -----

    method ProcKill(p: Proc)
      requires Valid() && Linked(procs, ring) && Known(p) && p.pid in ring && currentProc != null
      requires p == currentProc ==> Scheduled(View()).cur.Some?
      modifies this`currentProc, this`procs, this`ring, table
      ensures Pointers() && View() == Killed(old(View()), p.pid)
    {
      hide Pointers, Linked, Scheduled, Unlink;
      Globals();
      if p == currentProc {
        Schedule();
        Globals();
      }
      Unchain(p);
    }

    /** The two assignments that take p out of the list. */
    method Unchain(p: Proc)
      requires Pointers() && Known(p) && p.pid in ring
      modifies this`procs, this`ring, table
      ensures Pointers() && p.pid < |old(procs)| && old(procs)[p.pid].next < |old(procs)|
      ensures old(procs)[p.pid].prev < |old(procs)|
      ensures View() == old(View()).(procs := Unlink(old(procs), p.pid), ring := Without(old(ring), p.pid))
    {
      hide Pointers, Without;
      Globals();
      Facts(p);
      SetNext(p.prev, p.next);
      Facts(p);
      SetPrev(p.next, p.prev);
      SetRing(Without(ring, p.pid));
    }

    ghost method SetRing(ring: seq<nat>)
      requires Pointers()
      modifies this`ring
      ensures Pointers() && this.ring == ring
    {
      this.ring := ring;
    }

    method ProcExit(p: Proc, status: int) returns (r: int)
      requires Valid() && Running(View()) && Known(p) && p.pid in ring && (p == currentProc ==> OtherActive(View()))
      requires procs[p.pid].parent != Some(p.pid)
      modifies this`currentProc, this`procs, this`ring, table
      ensures Valid() && Running(View()) && View() == Exited(old(View()), p.pid) && r == status
    {
      hide Pointers, Linked, Closed, Scheduled, Killed;
      ghost var s := View();
      RunningFacts();
      ExitedRunning(s, p.pid);
      EndProc(p);
      EndedFacts(s, p.pid);
      ProcKill(p);
      Globals();
      return status;
    }

    /** The first part of proc_exit. */
    method EndProc(p: Proc)
      requires Pointers() && Known(p) && procs[p.pid].parent != Some(p.pid)
      modifies this`procs, table
      ensures Pointers() && p.pid < |old(procs)| && Within(old(procs)[p.pid].parent, |old(procs)|)
      ensures View() == old(View()).(procs := Ended(old(procs), p.pid))
    {
      hide Pointers, Ended;
      ghost var was := procs;
      Globals();
      Facts(p);
      SetStatus(p, ZOMBIE);
      Facts(p);
      if p.parent != null {
        Facts(p.parent);
        if p.parent.waitpid == p.ppid {
          SetWaitpid(p.parent, NEVER);
          Facts(p.parent);
          Facts(p);
          var _ := ProcWake(p.parent);
          EndedWoken(was, p.pid, p.parent.pid);
        } else {
          EndedQuiet(was, p.pid);
        }
      } else {
        EndedQuiet(was, p.pid);
      }
    }

    /** A page fault ends the running process. */
    method Pagefault()
      requires Valid() && Running(View()) && OtherActive(View())
      requires procs[currentProc.pid].parent != Some(currentProc.pid)
      modifies this`currentProc, this`procs, this`ring, table
      ensures Valid() && Running(View()) && View() == Exited(old(View()), old(currentProc.pid))
    {
      var _ := ProcExit(currentProc, 1);
    }

    /** load_elf32 returns NULL for a file that is no executable, and run_elf32 reads through the pointer. */
    method SyscallExecExtern(file: Image, ebx: Word) returns (ebx': Word)
      requires Valid() && Running(View())
      requires file == EXECUTABLE ==> firstProc != null && firstProc.pid == ring[0]
      requires file == NO_EXECUTABLE ==> OtherActive(View()) && procs[currentProc.pid].parent != Some(currentProc.pid)
      modifies this`firstProc, this`currentProc, this`procCount, this`table, this`procs, this`ring, table
      ensures Valid() && Running(View())
      ensures View() == match file
        case NO_FILE => old(View())
        case NO_EXECUTABLE => Exited(old(View()), old(currentProc.pid))
        case EXECUTABLE => Born(old(View()))
      ensures file == EXECUTABLE ==> firstProc != null && firstProc.pid == ring[0]
      ensures ebx' == if file == EXECUTABLE then procs[|old(procs)|].ppid else ebx
    {
      ebx' := ebx;
      match file {
        case NO_FILE =>
        case NO_EXECUTABLE => Pagefault();
        case EXECUTABLE => ebx' := SyscallFork();
      }
    }

    method SyscallExit(ebx: Word)
      requires Valid() && Running(View()) && OtherActive(View())
      requires procs[currentProc.pid].parent != Some(currentProc.pid)
      modifies this`currentProc, this`procs, this`ring, table
      ensures Valid() && Running(View()) && View() == Exited(old(View()), old(currentProc.pid))
    {
      var _ := ProcExit(currentProc, ebx);
    }

    // ----- the keyboard -----

    method GetcSyscallWrapper()
      requires Valid() && Running(View()) && OtherActive(View())
      modifies this`currentProc, this`procs, this`use, this`proc, table
      ensures Valid() && Running(View()) && View() == Reading(old(View()), GETC)
    {
      hide Pointers, Linked, Closed, Scheduled;
      RunningFacts();
      ReadingRunning(View(), GETC);
      if use == NONE {
        var p := currentProc;
        var _ := ProcSleep(p);
        Globals();
        SetWaiter(GETC, p);
      }
    }

    method GetsSyscallWrapper()
      requires Valid() && Running(View()) && OtherActive(View())
      modifies this`currentProc, this`procs, this`use, this`proc, table
      ensures Valid() && Running(View()) && View() == Reading(old(View()), GETS)
    {
      hide Pointers, Linked, Closed, Scheduled;
      RunningFacts();
      ReadingRunning(View(), GETS);
      if use == NONE {
        var p := currentProc;
        var _ := ProcSleep(p);
        Globals();
        SetWaiter(GETS, p);
      }
    }

    method SetWaiter(use: Use, p: Proc?)
      requires Pointers() && (p != null ==> Known(p))
      modifies this`use, this`proc
      ensures Pointers() && this.use == use && this.proc == p
    {
      this.use := use;
      this.proc := p;
    }

    /** A key event; the line the characters are collected in is not modelled. */
    method SyscallStep(code: nat)
      requires Valid() && Running(View())
      modifies this`procs, this`use, this`proc, table
      ensures Valid() && Running(View()) && View() == Pressed(old(View()), code)
    {
      hide Pointers, Linked, Closed;
      RunningFacts();
      PressedRunning(View(), code);
      if use != NONE {
        match use {
          case GETC =>
            var _ := ProcWake(proc);
            SetWaiter(NONE, null);
          case GETS =>
            if code == KEY_ENTER {
              var _ := ProcWake(proc);
              SetWaiter(NONE, null);
            }
          case NONE =>
        }
      }
    }
  }

  lemma EndedFacts(s: State, p: nat)
    requires Running(s) && p in s.ring && (s.cur == Some(p) ==> OtherActive(s)) && p < |s.procs|
    requires Within(s.procs[p].parent, |s.procs|) && s.procs[p].parent != Some(p)
    ensures var a := s.(procs := Ended(s.procs, p));
      && Closed(a) && Linked(a.procs, a.ring) && (s.cur == Some(p) ==> Scheduled(a).cur.Some?)
      && Exited(s, p) == Killed(a, p)
  {
    var a := s.(procs := Ended(s.procs, p));
    DataKept(s, a);
    EndedActive(s, p);
    if s.cur == Some(p) {
      var q :| q in s.ring && q < |s.procs| && s.cur != Some(q) && s.procs[q].status == ACTIVE;
      ScheduleEnds(a, q);
    }
  }

  /** The stores of proc_exit when the parent waits for the process. */
  lemma EndedWoken(procs: seq<Info>, p: nat, q: nat)
    requires p < |procs| && q < |procs| && p != q && procs[p].parent == Some(q) && procs[q].waitpid == procs[p].ppid
    ensures var a := procs[p := procs[p].(status := ZOMBIE)]; var b := a[q := a[q].(waitpid := NEVER)];
      Ended(procs, p) == b[q := b[q].(status := ACTIVE)]
  {
  }

  lemma EndedQuiet(procs: seq<Info>, p: nat)
    requires p < |procs| && Within(procs[p].parent, |procs|) && procs[p].parent != Some(p)
    requires procs[p].parent.Some? ==> procs[procs[p].parent.value].waitpid != procs[p].ppid
    ensures Ended(procs, p) == procs[p := procs[p].(status := ZOMBIE)]
  {
  }

  lemma TickNone(procs: seq<Info>, r: seq<nat>)
    ensures TickAll(procs, r[..0]) == procs
  {
  }

  lemma TickLinks(procs: seq<Info>, r: seq<nat>, members: seq<nat>)
    requires Linked(procs, r)
    ensures Linked(TickAll(procs, members), r)
  {
  }

  lemma TickOne(procs: seq<Info>, r: seq<nat>, i: nat)
    requires Linked(procs, r) && i < |r|
    ensures r[i] < |procs| && TickAll(procs, r[..i])[r[i]] == procs[r[i]]
    ensures Succ(r, if i == 0 then |r| - 1 else i - 1) == r[i]
    ensures i < |r| - 1 ==> r[i] != r[|r| - 1]
    ensures TickAll(procs, r[..i + 1]) == TickAll(procs, r[..i])[r[i] := Tick(procs[r[i]])]
  {
    hide TickAll, Tick, Linked, Succ;
    LinkedAt(procs, r, i);
    LinkedAll(procs, r);
    TickMore(procs, r, i);
    SuccPlace(r, i);
    if i < |r| - 1 {
      LinkedDistinct(procs, r, i, |r| - 1);
    }
  }

  lemma LinkedAll(procs: seq<Info>, r: seq<nat>)
    requires Linked(procs, r)
    ensures forall i, j :: 0 <= i < j < |r| ==> r[i] != r[j]
  {
  }

  lemma SuccPlace(r: seq<nat>, i: nat)
    requires i < |r|
    ensures Succ(r, if i == 0 then |r| - 1 else i - 1) == r[i]
  {
  }

  lemma TickMore(procs: seq<Info>, r: seq<nat>, i: nat)
    requires i < |r| && r[i] < |procs| && forall i, j :: 0 <= i < j < |r| ==> r[i] != r[j]
    ensures TickAll(procs, r[..i])[r[i]] == procs[r[i]]
    ensures TickAll(procs, r[..i + 1]) == TickAll(procs, r[..i])[r[i] := Tick(procs[r[i]])]
  {
    hide Tick;
    assert r[..i + 1] == r[..i] + [r[i]];
  }

  /** The search still finds goal from place i on. */
  ghost predicate ActiveFrom(procs: seq<Info>, r: seq<nat>, i: nat, goal: Option<nat>) {
    i <= |r| && (forall k :: 0 <= k < |r| ==> r[k] < |procs|) && goal.Some? && FirstActive(procs, r[i..]) == goal
  }

  lemma SuccFirst(procs: seq<Info>, r: seq<nat>)
    requires Linked(procs, r) && r != []
    ensures Succ(r, |r| - 1) == r[0]
    ensures FirstActive(procs, r).Some? ==> ActiveFrom(procs, r, 0, FirstActive(procs, r))
  {
    assert r[0..] == r;
  }

  lemma SuccNext(procs: seq<Info>, r: seq<nat>, i: nat, goal: Option<nat>)
    requires i < |r| && ActiveFrom(procs, r, i, goal) && procs[r[i]].status != ACTIVE
    ensures i + 1 < |r| && Succ(r, i) == r[i + 1] && ActiveFrom(procs, r, i + 1, goal)
  {
    assert r[i..][1..] == r[i + 1..];
  }

  lemma ActiveHere(procs: seq<Info>, r: seq<nat>, i: nat, goal: Option<nat>)
    requires i < |r| && ActiveFrom(procs, r, i, goal) && procs[r[i]].status == ACTIVE
    ensures goal == Some(r[i])
  {
  }

  lemma TickSame(procs: seq<Info>, r: seq<nat>, ring: seq<nat>)
    requires forall p :: p in r <==> p in ring
    ensures TickAll(procs, r[..|r|]) == TickAll(procs, ring)
  {
    assert r[..|r|] == r;
  }
}
