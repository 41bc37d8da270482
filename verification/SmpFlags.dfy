// The two bits of cpu_info_t.flags (smp.h:54-55), which halter and waker update by separate load and store.
module SmpFlags {
  datatype Flags = Flags(halt: bool, halted: bool)

  const CLEAR := Flags(false, false)

  // MASK_SET(flags, HALT|HALTED) on a loaded value (smp.c:76)
  function SetHalt(t: Flags): Flags
  {
    Flags(true, true)
  }

  // MASK_CLEAR(flags, HALT) on a loaded value (smp.c:93)
  function ClearHalt(t: Flags): Flags
  {
    t.(halt := false)
  }

  // MASK_CLEAR(flags, HALTED) on a loaded value (smp.c:81)
  function ClearHalted(t: Flags): Flags
  {
    t.(halted := false)
  }
}
