/** The walker's per-frame record: a tagged union over the two record layouts
    of the debug-help library, with a uniform view of the program-counter,
    stack and frame-pointer addresses whichever layout is active. */
module Frames {
  import opened Windows

  /** STACKFRAME_EX, the record StackWalkEx fills in. Every field other than
      the three addresses this core reads or writes (return address, backing
      store, parameters, inline-frame context, ...) is packed into `rest`;
      an all-zero record has `rest == 0`. */
  datatype StackFrameEx = StackFrameEx(AddrPC: Address64, AddrFrame: Address64, AddrStack: Address64, rest: nat)

  /** STACKFRAME64, the record StackWalk64 fills in, packed the same way. */
  datatype StackFrame64 = StackFrame64(AddrPC: Address64, AddrFrame: Address64, AddrStack: Address64, rest: nat)

  /** `mem::zeroed()` of either record. */
  const ZeroFrameEx: StackFrameEx := StackFrameEx(ZeroAddress, ZeroAddress, ZeroAddress, 0)
  const ZeroFrame64: StackFrame64 := StackFrame64(ZeroAddress, ZeroAddress, ZeroAddress, 0)

  /** One stack frame: `New` when the walk uses StackWalkEx, `Old` when it uses StackWalk64. */
  datatype Frame = New(ex: StackFrameEx) | Old(legacy: StackFrame64) {

    /** The AddrPC record of the active layout. */
    function AddrPc(): (a: Address64)
      ensures New? ==> a == ex.AddrPC
      ensures Old? ==> a == legacy.AddrPC
    {
      match this
      case New(n) => n.AddrPC
      case Old(o) => o.AddrPC
    }

    /** The AddrStack record of the active layout. */
    function AddrStack(): (a: Address64)
      ensures New? ==> a == ex.AddrStack
      ensures Old? ==> a == legacy.AddrStack
    {
      match this
      case New(n) => n.AddrStack
      case Old(o) => o.AddrStack
    }

    /** The AddrFrame record of the active layout (read only by the
        specification; the walker itself only writes it). */
    function AddrFrame(): Address64 {
      match this
      case New(n) => n.AddrFrame
      case Old(o) => o.AddrFrame
    }

    /** The fields of the active layout other than the three addresses. */
    function Rest(): nat {
      match this
      case New(n) => n.rest
      case Old(o) => o.rest
    }

    /** The instruction pointer: the AddrPC offset of whichever layout is
        active, as a pointer of the target `arch`. */
    function Ip(arch: Arch): (p: nat)
      ensures p < arch.PointerLimit()
      ensures New? ==> p == AsPointer(ex.AddrPC.Offset, arch)
      ensures Old? ==> p == AsPointer(legacy.AddrPC.Offset, arch)
    {
      AsPointer(AddrPc().Offset, arch)
    }

    /** The stack pointer: the AddrStack offset of whichever layout is active. */
    function Sp(arch: Arch): (p: nat)
      ensures p < arch.PointerLimit()
      ensures New? ==> p == AsPointer(ex.AddrStack.Offset, arch)
      ensures Old? ==> p == AsPointer(legacy.AddrStack.Offset, arch)
    {
      AsPointer(AddrStack().Offset, arch)
    }

    /** The address used to look the frame's symbol up: always the instruction pointer. */
    function SymbolAddress(arch: Arch): (p: nat)
      ensures p == Ip(arch)
      ensures p == AsPointer(AddrPc().Offset, arch)
    {
      Ip(arch)
    }

    /** Writing `a` through `addr_pc_mut()`: the layout and every other field stay as they were. */
    function WithAddrPc(a: Address64): (f: Frame)
      ensures f.New? == New?
      ensures f.AddrPc() == a
      ensures f.AddrStack() == AddrStack() && f.AddrFrame() == AddrFrame() && f.Rest() == Rest()
      ensures a == AddrPc() ==> f == this
    {
      match this
      case New(n) => New(n.(AddrPC := a))
      case Old(o) => Old(o.(AddrPC := a))
    }

    /** Writing `a` through `addr_frame_mut()`: the layout and every other field stay as they were. */
    function WithAddrFrame(a: Address64): (f: Frame)
      ensures f.New? == New?
      ensures f.AddrFrame() == a
      ensures f.AddrPc() == AddrPc() && f.AddrStack() == AddrStack() && f.Rest() == Rest()
      ensures a == AddrFrame() ==> f == this
    {
      match this
      case New(n) => New(n.(AddrFrame := a))
      case Old(o) => Old(o.(AddrFrame := a))
    }

    /** Writing `a` through `addr_stack_mut()`: the layout and every other field stay as they were. */
    function WithAddrStack(a: Address64): (f: Frame)
      ensures f.New? == New?
      ensures f.AddrStack() == a
      ensures f.AddrPc() == AddrPc() && f.AddrFrame() == AddrFrame() && f.Rest() == Rest()
      ensures a == AddrStack() ==> f == this
    {
      match this
      case New(n) => New(n.(AddrStack := a))
      case Old(o) => Old(o.(AddrStack := a))
    }
  }

  /** The uniform view is complete: a frame is determined by its layout, its
      three addresses and its other fields, so the `With` writers above, which
      fix all of these, change nothing they do not name. */
  lemma FrameDeterminedByView(f: Frame, g: Frame)
    requires f.New? == g.New?
    requires f.AddrPc() == g.AddrPc() && f.AddrStack() == g.AddrStack() && f.AddrFrame() == g.AddrFrame()
    requires f.Rest() == g.Rest()
    ensures f == g
  {
  }
}
