/** syscall_exec_extern as a whole: the file's image decides what happens to the contexts and to the processes. */
module Exec {
  import opened Bits
  import opened Options
  import opened Mmu
  import opened Spaces
  import opened Contexts
  import opened ElfFormat
  import opened Image
  import opened Loader
  import Pmm
  import Procs
  import Scheduler
  import Vmm

  /** The image of the file that was looked up; None for NULL. */
  ghost function Outcome(file: Option<Word>, img: seq<Byte>): Procs.Image
    requires file.Some? ==> ImageOk(img)
  {
    if file == None then Procs.NO_FILE else if Loadable(img) then Procs.EXECUTABLE else Procs.NO_EXECUTABLE
  }

  /** The read through NULL still faults after the loading. */
  lemma NullStays(s: Sys, s': Sys)
    requires Coherent(s) && Keeps(s, s', s.ctxs) && s.cur in s.ctxs
    ensures s'.cur == s.cur && (Tr(s, s.cur, 0) == None ==> Tr(s', s.cur, 0) == None)
  {
  }

  /** A child is created exactly when there is a file and it is an executable; then the new context holds its
      segments and nothing else. A file that is none costs the caller its life, with the new context left
      behind, empty. Page 0 must not be mapped, as the fault is what ends the caller. */
  method SyscallExecExtern(sched: Scheduler.Scheduler, vmm: Vmm.Vmm, file: Option<Word>, ebx: Word,
                           ghost img: seq<Byte>, ghost t: nat, ghost d: nat, ghost anchors: seq<Index>)
      returns (ebx': Word, ghost context: Option<Context>)
    requires sched.Valid() && Procs.Running(sched.View()) && vmm.Valid()
    requires file.Some? ==> ImageOk(img) && Prepared(vmm.View(), file.value, img, t, d, anchors, PagesUsed(img))
    requires file.Some? && !Loadable(img) ==> Tr(vmm.View(), vmm.current, 0) == None
    requires Outcome(file, img) == Procs.EXECUTABLE ==> sched.firstProc != null && sched.firstProc.pid == sched.ring[0]
    requires Outcome(file, img) == Procs.NO_EXECUTABLE ==>
      Procs.OtherActive(sched.View()) && sched.procs[sched.currentProc.pid].parent != Some(sched.currentProc.pid)
    modifies sched, sched.table, vmm`ram, vmm`roles, vmm`contexts, vmm.pmm, vmm.pmm.bitmap
    ensures sched.Valid() && Procs.Running(sched.View()) && vmm.Valid()
    ensures sched.View() == match Outcome(file, img)
      case NO_FILE => old(sched.View())
      case NO_EXECUTABLE => Procs.Exited(old(sched.View()), old(sched.currentProc.pid))
      case EXECUTABLE => Procs.Born(old(sched.View()))
    ensures ebx' == if Outcome(file, img) == Procs.EXECUTABLE then sched.procs[|old(sched.procs)|].ppid else ebx
    ensures file == None ==> vmm.View() == old(vmm.View())
    ensures Outcome(file, img) == Procs.NO_EXECUTABLE ==> Tr(vmm.View(), vmm.current, 0) == None
    ensures context.Some? == file.Some?
    ensures context.Some? ==>
      && context.value in vmm.contexts && context.value !in old(vmm.contexts)
      && Keeps(old(vmm.View()), vmm.View(), old(vmm.contexts))
      && OnlyLoaded(vmm.View(), context.value, img, HeadersUsed(img))
      && (Loadable(img) ==> InMemory(vmm.View(), context.value, img))
  {
    hide InMemory, Unasked, Number;
    hide Procs.Running, Procs.OtherActive, Prepared, OnlyLoaded, ImageOk, Loadable, Keeps, HeadersUsed, PagesUsed;
    hide Scheduler.Scheduler.Valid, Scheduler.Scheduler.Pointers, Procs.Closed, Procs.Born, Procs.Exited, Procs.Linked;
    hide Pmm.Pmm.Valid, Pmm.Pmm.View, Pmm.Pmm.Free, Pmm.FreeFrames, Coherent, Walk;
    context := None;
    var image := Procs.NO_FILE;
    ghost var s := vmm.View();
    ContextFacts(s, vmm.current);
    if file.Some? {
      var c, entry := LoadNew(vmm, file.value, img, t, d, anchors);
      context := Some(c);
      NullStays(s, vmm.View());
      image := if entry.Some? then Procs.EXECUTABLE else Procs.NO_EXECUTABLE;
    }
    ebx' := sched.SyscallExecExtern(image, ebx);
  }
}
