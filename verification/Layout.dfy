/** Constants the memory managers share (mmu.h, memlayout.h). */
module Layout {

  const PGSIZE: nat := 4096
  const KERNBASE: nat := 0x8000_0000
  const PHYSTOP: nat := 0xE00_0000
}
