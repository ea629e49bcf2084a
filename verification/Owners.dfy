/** Who a heap allocation belongs to: a process slot and the part it plays there. */
module Owners {
  datatype Role =
    | ProcessStruct
    | ElfFile
    | Image
    | Stack
    | Task
    | Chunk
    | Directory
    | PageTable(index: nat)
    | Allocation(slot: nat)

  datatype Owner = Owner(pid: nat, role: Role)
}
