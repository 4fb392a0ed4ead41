/** Physical memory as the allocators see it: 64-bit words, named by the byte address they start at. */
module PhysicalMemory {

  /** Contents of the aligned words; a word nobody wrote yet reads as 0. */
  type Ram = map<int, int>

  function Load(w: Ram, a: int): int {
    if a in w then w[a] else 0
  }

  function Store(w: Ram, a: int, v: int): Ram {
    w[a := v]
  }

  /** First byte of a 4 KiB frame, and the frame a byte lies in. */
  function Addr(frame: nat): nat {
    frame * 4096
  }

  function FrameOf(a: nat): nat {
    a / 4096
  }

  class Memory {
    var w: Ram

    constructor (initial: Ram)
      ensures w == initial
    {
      w := initial;
    }
  }
}
