/** A state such as init_vmm hands over: one directory that maps itself, and one kernel table through which
    the directory is reached. */
module Boot {
  import opened Bits
  import opened Options
  import opened Mmu
  import opened Find
  import opened Spaces
  import opened Contexts

  const DIRECTORY: Frame := 1
  const TABLE: Frame := 2
  const DIRECTORY_PAGE: PageNo := 768 * 1024

  function Directory(): Table { ZeroTable()[KERNEL := TABLE * PAGE_SIZE + 3][SELF := DIRECTORY * PAGE_SIZE + 3] }

  function KernelTable(): Table { ZeroTable()[0 := DIRECTORY * PAGE_SIZE + 3] }

  function Memory(): (m: Ram)
    ensures m[DIRECTORY] == Directory() && m[TABLE] == KernelTable()
  {
    var zero: Ram := seq<Table>(0x10_0000, _ => ZeroTable());
    zero[DIRECTORY := Directory()][TABLE := KernelTable()]
  }

  function Kernel(): Context { Context(DIRECTORY_PAGE * PAGE_SIZE, DIRECTORY * PAGE_SIZE) }

  function Start(free: set<Frame>): Sys {
    Sys(Memory(), Kernel(), {Kernel()}, map[DIRECTORY := Role.Directory(DIRECTORY), TABLE := Role.KernelTable(KERNEL)],
      free)
  }

  lemma BootWalk()
    ensures Walk(Memory(), DIRECTORY, DIRECTORY_PAGE) == Some(DIRECTORY)
    ensures Walk(Memory(), DIRECTORY, DIRECTORY_PAGE + 1) == None
  {
    hide Memory;
  }

  /** It meets everything the operations ask for: the invariant, and a kernel page for temporary mappings. */
  lemma BootReady(free: set<Frame>)
    requires 0 !in free && DIRECTORY !in free && TABLE !in free
    ensures Coherent(Start(free)) && KernelSlot(Start(free)) == DIRECTORY_PAGE + 1 && WindowReady(Start(free))
  {
    hide Memory;
    var s := Start(free);
    BootWalk();
    assert DirectoryOk(s, DIRECTORY);
    assert ContextOk(s, Kernel());
    assert Unmapped(s.ram, DIRECTORY, DIRECTORY_PAGE + 1) && !Unmapped(s.ram, DIRECTORY, DIRECTORY_PAGE);
    assert LowestUnmapped(s.ram, DIRECTORY, DIRECTORY_PAGE) == LowestUnmapped(s.ram, DIRECTORY, DIRECTORY_PAGE + 1) ==
      DIRECTORY_PAGE + 1;
    assert s.ram[TABLE][0] != 0;
  }
}
