// Page and address arithmetic of inc/mmu.h and inc/memlayout.h.  Addresses are
// 32-bit values held in `nat`; a page-table word is frame * PGSIZE plus twelve
// permission bits.
module Mmu {
  const PGSIZE := 4096
  const NPTENTRIES := 1024
  const PTE_P := 1
  const PTE_W := 2
  const PTE_U := 4
  const PTE_COW := 0x800
  const MPENTRY_PAGE := 7  // PGNUM(MPENTRY_PADDR)

  const UTOP := 0xeec00000
  const UVPT := 0xef400000
  const UPDES := 955   // PDX(UTOP): directory entries below it are the user's
  const UPAGES_TOTAL := 955 * 1024
  const UVPT_PDX := 957
  const UXSTACK_PAGE := 955 * 1024 - 1  // PGNUM(UXSTACKTOP - PGSIZE)
  const PFTEMP_PAGE := 2047             // PGNUM(PFTEMP)

  // One address space page or one directory slot: (directory frame, index).
  type Slot = (nat, nat)
  type Word = w: nat | w < 0x1_0000_0000

  // struct PageInfo: pp_link as an index into `pages` (or NULL) and the 16-bit pp_ref.
  const NULL := -1
  const REF_MOD := 0x10000
  datatype PageInfo = PageInfo(link: int, refs: nat)

  predicate Has(perm: nat, bit: nat)
    requires bit > 0
  {
    (perm / bit) % 2 == 1
  }

  // perm | PTE_P
  function Present(perm: nat): nat {
    if perm % 2 == 1 then perm else perm + 1
  }
}
