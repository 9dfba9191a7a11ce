/** The small slice of the Windows debug-help ABI that the MSVC stack walker
    touches: fixed-width integers, ADDRESS64 records, the machine tags and the
    registers of a captured CONTEXT that seed a walk. */
module Windows {

  /** Unsigned integers of the widths the Windows headers use (WORD, DWORD, DWORD64). */
  type u16 = x: int | 0 <= x < 0x1_0000
  type u32 = x: int | 0 <= x < 0x1_0000_0000
  type u64 = x: int | 0 <= x < 0x1_0000_0000_0000_0000

  datatype Option<+T> = None | Some(value: T)

  /** ADDRESS_MODE; the numeric values are 0..3 in declaration order, so an
      all-zero record is in AddrMode1616. */
  datatype AddressMode = AddrMode1616 | AddrMode1632 | AddrModeReal | AddrModeFlat

  /** ADDRESS64: an offset, a segment selector and an addressing mode. */
  datatype Address64 = Address64(Offset: u64, Segment: u16, Mode: AddressMode)

  /** The ADDRESS64 of an all-zero (`mem::zeroed`) record. */
  const ZeroAddress: Address64 := Address64(0, 0, AddrMode1616)

  /** IMAGE_FILE_MACHINE_* values, the machine tag handed to the walking primitive. */
  const IMAGE_FILE_MACHINE_I386: u16 := 0x014c
  const IMAGE_FILE_MACHINE_ARMNT: u16 := 0x01c4
  const IMAGE_FILE_MACHINE_AMD64: u16 := 0x8664
  const IMAGE_FILE_MACHINE_ARM64: u16 := 0xAA64

  /** The target architectures the walker is built for. */
  datatype Arch = X86_64 | X86 | AArch64 | Arm {
    /** One more than the largest value of a pointer (`*mut c_void`) on this target. */
    function PointerLimit(): (n: nat)
      ensures n == 0x1_0000_0000 || n == 0x1_0000_0000_0000_0000
    {
      match this
      case X86_64 => 0x1_0000_0000_0000_0000
      case AArch64 => 0x1_0000_0000_0000_0000
      case X86 => 0x1_0000_0000
      case Arm => 0x1_0000_0000
    }
  }

  /** `x as *mut c_void` for a DWORD64 `x`: the integer is cut to the pointer
      width of the target, so the upper half is lost on 32-bit targets. */
  function AsPointer(x: u64, arch: Arch): (p: nat)
    ensures p < arch.PointerLimit()
    ensures x < arch.PointerLimit() ==> p == x
    ensures (x - p) % arch.PointerLimit() == 0
  {
    x % arch.PointerLimit()
  }

  /** The registers of each architecture's CONTEXT that seed a walk:
      the program counter, the stack pointer and the frame-chain register. */
  datatype ContextAmd64 = ContextAmd64(Rip: u64, Rsp: u64, Rbp: u64)
  datatype ContextX86 = ContextX86(Eip: u32, Esp: u32, Ebp: u32)
  datatype ContextArm64 = ContextArm64(Pc: u64, Sp: u64, Fp: u64)
  datatype ContextArm = ContextArm(Pc: u32, Sp: u32, R11: u32)

  /** A captured CONTEXT. Its layout is fixed by the build target, so the
      constructor in use names the architecture the walker was compiled for. */
  datatype Context =
    | Amd64(amd64: ContextAmd64)
    | I386(x86: ContextX86)
    | Arm64(arm64: ContextArm64)
    | ArmNt(arm: ContextArm)
  {
    function Arch(): Arch {
      match this
      case Amd64(_) => X86_64
      case I386(_) => X86
      case Arm64(_) => AArch64
      case ArmNt(_) => Arm
    }
  }
}
