/** Memory-mapped registers: a register file is a map from byte offsets to words. */
module Mmio {
  datatype Write = Write(reg: nat, val: nat)

  type Regs = map<nat, nat>

  /** readl */
  function Rd(regs: Regs, reg: nat): nat {
    if reg in regs then regs[reg] else 0
  }

  /** writel to a register that stores what is written */
  function Wr(regs: Regs, reg: nat, val: nat): Regs {
    regs[reg := val]
  }
}
