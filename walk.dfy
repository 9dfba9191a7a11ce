/** The MSVC stack walk: seeding a frame record from a captured register
    context (`init_frame`) and the loop of `trace`, which picks one of the two
    walking primitives of the debug-help library, advances it frame by frame
    and hands each frame to a visitor until the visitor stops the walk or the
    primitive reports that there is nothing more.

    Everything the walk calls into is a parameter here: the captured context,
    the outcome of bringing the debug-help library up, and the two walking
    primitives, each an oracle from (call number, arguments, record, context)
    to the next record and context, or to failure. */
module Walk {
  import opened Windows
  import opened Frames

  // ---------------------------------------------------------------------------
  // init_frame

  /** The machine tag init_frame returns for each target. */
  function MachineTag(arch: Arch): u16 {
    match arch
    case X86_64 => IMAGE_FILE_MACHINE_AMD64
    case X86 => IMAGE_FILE_MACHINE_I386
    case AArch64 => IMAGE_FILE_MACHINE_ARM64
    case Arm => IMAGE_FILE_MACHINE_ARMNT
  }

  /** The program-counter, stack-pointer and frame-chain registers of a
      context, widened to DWORD64 (`as u64`). */
  function SeedRegisters(ctx: Context): (u64, u64, u64) {
    match ctx
    case Amd64(c) => (c.Rip, c.Rsp, c.Rbp)
    case I386(c) => (c.Eip, c.Esp, c.Ebp)
    case Arm64(c) => (c.Pc, c.Sp, c.Fp)
    case ArmNt(c) => (c.Pc, c.Sp, c.R11)
  }

  /** `a` with its offset replaced and its mode set to flat; the segment is kept. */
  function Flat(a: Address64, offset: u64): Address64 {
    a.(Offset := offset, Mode := AddrModeFlat)
  }

  /** The frame init_frame leaves behind. */
  function Initialized(frame: Frame, ctx: Context): (f: Frame)
    ensures f.New? == frame.New?
    ensures ctx.Amd64? ==> f.AddrPc().Offset == ctx.amd64.Rip && f.AddrStack().Offset == ctx.amd64.Rsp
                           && f.AddrFrame().Offset == ctx.amd64.Rbp
    ensures ctx.I386? ==> f.AddrPc().Offset == ctx.x86.Eip && f.AddrStack().Offset == ctx.x86.Esp
                          && f.AddrFrame().Offset == ctx.x86.Ebp
    ensures ctx.Arm64? ==> f.AddrPc().Offset == ctx.arm64.Pc && f.AddrStack().Offset == ctx.arm64.Sp
                           && f.AddrFrame().Offset == ctx.arm64.Fp
    ensures ctx.ArmNt? ==> f.AddrPc().Offset == ctx.arm.Pc && f.AddrStack().Offset == ctx.arm.Sp
                           && f.AddrFrame().Offset == ctx.arm.R11
    ensures f.AddrPc().Mode == AddrModeFlat && f.AddrStack().Mode == AddrModeFlat && f.AddrFrame().Mode == AddrModeFlat
    ensures f.AddrPc().Segment == frame.AddrPc().Segment && f.AddrStack().Segment == frame.AddrStack().Segment
            && f.AddrFrame().Segment == frame.AddrFrame().Segment
    ensures f.Rest() == frame.Rest()
  {
    var (pc, sp, fp) := SeedRegisters(ctx);
    frame
      .WithAddrPc(Flat(frame.AddrPc(), pc))
      .WithAddrStack(Flat(frame.AddrStack(), sp))
      .WithAddrFrame(Flat(frame.AddrFrame(), fp))
  }

  /** init_frame: copy the target's PC, SP and frame-chain registers into the
      frame one field at a time, set every mode to flat, and return the
      machine tag. The frame is passed in and out by value (`&mut Frame`). */
  method InitFrame(frame: Frame, ctx: Context) returns (f: Frame, image: u16)
    ensures f == Initialized(frame, ctx)
    ensures image == MachineTag(ctx.Arch())
  {
    f := frame;
    match ctx
    case Amd64(c) =>
      f := f.WithAddrPc(f.AddrPc().(Offset := c.Rip));
      f := f.WithAddrPc(f.AddrPc().(Mode := AddrModeFlat));
      f := f.WithAddrStack(f.AddrStack().(Offset := c.Rsp));
      f := f.WithAddrStack(f.AddrStack().(Mode := AddrModeFlat));
      f := f.WithAddrFrame(f.AddrFrame().(Offset := c.Rbp));
      f := f.WithAddrFrame(f.AddrFrame().(Mode := AddrModeFlat));
      image := IMAGE_FILE_MACHINE_AMD64;
    case I386(c) =>
      f := f.WithAddrPc(f.AddrPc().(Offset := c.Eip));
      f := f.WithAddrPc(f.AddrPc().(Mode := AddrModeFlat));
      f := f.WithAddrStack(f.AddrStack().(Offset := c.Esp));
      f := f.WithAddrStack(f.AddrStack().(Mode := AddrModeFlat));
      f := f.WithAddrFrame(f.AddrFrame().(Offset := c.Ebp));
      f := f.WithAddrFrame(f.AddrFrame().(Mode := AddrModeFlat));
      image := IMAGE_FILE_MACHINE_I386;
    case Arm64(c) =>
      f := f.WithAddrPc(f.AddrPc().(Offset := c.Pc));
      f := f.WithAddrPc(f.AddrPc().(Mode := AddrModeFlat));
      f := f.WithAddrStack(f.AddrStack().(Offset := c.Sp));
      f := f.WithAddrStack(f.AddrStack().(Mode := AddrModeFlat));
      f := f.WithAddrFrame(f.AddrFrame().(Offset := c.Fp));
      f := f.WithAddrFrame(f.AddrFrame().(Mode := AddrModeFlat));
      image := IMAGE_FILE_MACHINE_ARM64;
    case ArmNt(c) =>
      f := f.WithAddrPc(f.AddrPc().(Offset := c.Pc));
      f := f.WithAddrPc(f.AddrPc().(Mode := AddrModeFlat));
      f := f.WithAddrStack(f.AddrStack().(Offset := c.Sp));
      f := f.WithAddrStack(f.AddrStack().(Mode := AddrModeFlat));
      f := f.WithAddrFrame(f.AddrFrame().(Offset := c.R11));
      f := f.WithAddrFrame(f.AddrFrame().(Mode := AddrModeFlat));
      image := IMAGE_FILE_MACHINE_ARMNT;
  }

  /** Right after init_frame, `ip()` and `sp()` read back the context's
      program counter and stack pointer on every target: the registers of the
      32-bit targets fit a pointer, so the pointer cast loses nothing. */
  lemma InitializedPointers(frame: Frame, ctx: Context)
    ensures var f := Initialized(frame, ctx);
      match ctx
      case Amd64(c) => f.Ip(X86_64) == c.Rip && f.Sp(X86_64) == c.Rsp
      case I386(c) => f.Ip(X86) == c.Eip && f.Sp(X86) == c.Esp
      case Arm64(c) => f.Ip(AArch64) == c.Pc && f.Sp(AArch64) == c.Sp
      case ArmNt(c) => f.Ip(Arm) == c.Pc && f.Sp(Arm) == c.Sp
  {
  }

  // ---------------------------------------------------------------------------
  // The walking primitives

  /** Where the primitive looks up function tables and module bases: the
      kernel's RtlLookupFunctionEntry on 64-bit targets (it also knows about
      code generated at run time), the symbol engine's own
      SymFunctionTableAccess64/SymGetModuleBase64 on 32-bit ones. */
  datatype Resolver = RtlLookupFunctionEntry | SymbolEngineTables

  function SelectResolver(arch: Arch): (r: Resolver)
    ensures r == RtlLookupFunctionEntry <==> (arch == X86_64 || arch == AArch64)
    ensures r == SymbolEngineTables <==> (arch == X86 || arch == Arm)
  {
    if arch.PointerLimit() == 0x1_0000_0000_0000_0000 then RtlLookupFunctionEntry else SymbolEngineTables
  }

  /** What every call of the primitive receives besides the frame and the
      context: the machine tag (`image as DWORD`) and the resolver pair. */
  datatype WalkArgs = WalkArgs(image: u32, resolver: Resolver)

  /** StackWalkEx and StackWalk64 as oracles: given the number of earlier
      calls, the arguments, the record and the context, either the record and
      context updated to the caller's frame (TRUE) or failure. Each writes
      only its own record layout, as the raw pointer it receives is typed. */
  type StepEx = (nat, WalkArgs, StackFrameEx, Context) -> Option<(StackFrameEx, Context)>
  type Step64 = (nat, WalkArgs, StackFrame64, Context) -> Option<(StackFrame64, Context)>

  /** The loaded debug-help library: StackWalkEx when the library exports it,
      StackWalk64 always. `depth` bounds the number of calls its primitives
      answer TRUE: every walk of it ends by the primitive's own failure at
      the latest on call number `depth`. */
  datatype SymbolEngine = SymbolEngine(StackWalkEx: Option<StepEx>, StackWalk64: Step64, depth: nat)

  /** The primitive one walk uses. */
  datatype Primitive = WalkEx(stepEx: StepEx) | Walk64(step64: Step64)

  /** Everything that stays fixed for one walk. */
  datatype Walker = Walker(primitive: Primitive, args: WalkArgs, depth: nat)

  /** The frame's layout is the one the primitive writes. */
  predicate Drives(p: Primitive, f: Frame) {
    p.WalkEx? == f.New?
  }

  /** Call number `i` of the walker's primitive on `frame` and `ctx`. */
  function Advance(w: Walker, i: nat, frame: Frame, ctx: Context): (r: Option<(Frame, Context)>)
    requires Drives(w.primitive, frame)
    ensures i >= w.depth ==> r.None?
    ensures r.Some? ==> Drives(w.primitive, r.value.0)
  {
    if i >= w.depth then None
    else match w.primitive
      case WalkEx(step) =>
        (match step(i, w.args, frame.ex, ctx)
         case None => None
         case Some((next, ctx')) => Some((New(next), ctx')))
      case Walk64(step) =>
        (match step(i, w.args, frame.legacy, ctx)
         case None => None
         case Some((next, ctx')) => Some((Old(next), ctx')))
  }

  /** The frame and context after `n` calls of the primitive from `frame0`
      and `ctx0` if all of them succeed; None if one of them fails. */
  function Unwind(w: Walker, frame0: Frame, ctx0: Context, n: nat): (r: Option<(Frame, Context)>)
    requires Drives(w.primitive, frame0)
    ensures r.Some? ==> Drives(w.primitive, r.value.0)
    ensures n > w.depth ==> r.None?
  {
    if n == 0 then Some((frame0, ctx0))
    else match Unwind(w, frame0, ctx0, n - 1)
      case None => None
      case Some((f, c)) => Advance(w, n - 1, f, c)
  }

  /** The frame after `n` successful calls of the primitive, if they all succeed. */
  function FrameAfter(w: Walker, frame0: Frame, ctx0: Context, n: nat): Option<Frame>
    requires Drives(w.primitive, frame0)
  {
    match Unwind(w, frame0, ctx0, n)
    case None => None
    case Some((f, _)) => Some(f)
  }

  /** `frames[k]` is the frame the primitive produced on its successful call number k. */
  predicate Follows(w: Walker, frame0: Frame, ctx0: Context, frames: seq<Frame>)
    requires Drives(w.primitive, frame0)
  {
    forall k | 0 <= k < |frames| :: FrameAfter(w, frame0, ctx0, k + 1) == Some(frames[k])
  }

  /** One more successful call of the primitive extends what `Follows` covers. */
  lemma FollowsExtend(w: Walker, frame0: Frame, ctx0: Context, frames: seq<Frame>, next: Frame, ctx: Context)
    requires Drives(w.primitive, frame0)
    requires Follows(w, frame0, ctx0, frames)
    requires Unwind(w, frame0, ctx0, |frames| + 1) == Some((next, ctx))
    ensures Follows(w, frame0, ctx0, frames + [next])
  {
  }

  // ---------------------------------------------------------------------------
  // The loop of trace

  /** The visitor (`FnMut(&Frame) -> bool`): its answer may depend on every
      frame it has been handed so far, the last of which is the current one. */
  type Visitor = seq<Frame> -> bool

  /** Every callback on `frames` so far asked the walk to go on. */
  predicate AllContinued(visit: Visitor, frames: seq<Frame>) {
    forall k | 0 < k <= |frames| :: visit(frames[..k])
  }

  /** How a walk ended: the primitive failed, the visitor asked to stop, or
      the debug-help library could not be brought up. */
  datatype Ending = Exhausted | Stopped | Unavailable

  /** What a walk does, as seen from outside: the frames handed to the
      visitor, in order, and the number of calls of the walking primitive. */
  datatype WalkResult = WalkResult(visited: seq<Frame>, calls: nat, ending: Ending)

  /** The rest of a walk that has handed `seen` to the visitor and now holds
      `frame` and `ctx`; the primitive has been called `|seen|` times. */
  function WalkFrom(w: Walker, visit: Visitor, frame: Frame, ctx: Context, seen: seq<Frame>): (r: WalkResult)
    requires Drives(w.primitive, frame)
    ensures |seen| <= |r.visited| && r.visited[..|seen|] == seen
    ensures r.ending != Unavailable
    ensures r.calls == |r.visited| + (if r.ending == Exhausted then 1 else 0)
    ensures forall k | |seen| <= k < |r.visited| :: Drives(w.primitive, r.visited[k])
    decreases w.depth - |seen|
  {
    match Advance(w, |seen|, frame, ctx)
    case None => WalkResult(seen, |seen| + 1, Exhausted)
    case Some((next, ctx')) =>
      var seen' := seen + [next];
      if !visit(seen') then WalkResult(seen', |seen'|, Stopped)
      else WalkFrom(w, visit, next, ctx', seen')
  }

  /** The loop of trace, run on the frame init_frame produced: call the
      primitive; on failure stop; otherwise hand the updated frame to the
      visitor and stop if it answers false. */
  method RunWalk(w: Walker, frame0: Frame, ctx0: Context, visit: Visitor) returns (r: WalkResult)
    requires Drives(w.primitive, frame0)
    ensures r == WalkFrom(w, visit, frame0, ctx0, [])
  {
    var frame, ctx := frame0, ctx0;
    var seen: seq<Frame> := [];
    var calls: nat := 0;
    while true
      invariant calls == |seen| <= w.depth
      invariant Drives(w.primitive, frame)
      invariant WalkFrom(w, visit, frame, ctx, seen) == WalkFrom(w, visit, frame0, ctx0, [])
      decreases w.depth - calls
    {
      var next := Advance(w, calls, frame, ctx);
      calls := calls + 1;
      if next.None? {
        return WalkResult(seen, calls, Exhausted);
      }
      frame, ctx := next.value.0, next.value.1;
      seen := seen + [frame];
      if !visit(seen) {
        return WalkResult(seen, calls, Stopped);
      }
    }
  }

  /** The walk from its first frame: every visited frame is a successful step
      of the primitive, in order; every callback but the last asked to go on;
      the walk stops early exactly when the last callback said false, and
      otherwise because the next call of the primitive failed. */
  lemma {:induction false} WalkFromFollowsPrimitive(w: Walker, visit: Visitor, frame0: Frame, ctx0: Context,
                                                    frame: Frame, ctx: Context, seen: seq<Frame>)
    requires Drives(w.primitive, frame0)
    requires Unwind(w, frame0, ctx0, |seen|) == Some((frame, ctx))
    requires Follows(w, frame0, ctx0, seen)
    requires AllContinued(visit, seen)
    ensures var r := WalkFrom(w, visit, frame, ctx, seen);
      && Follows(w, frame0, ctx0, r.visited)
      && (forall k | 0 < k < |r.visited| :: visit(r.visited[..k]))
      && (r.ending == Stopped ==> |r.visited| > 0 && !visit(r.visited))
      && (r.ending == Exhausted ==> AllContinued(visit, r.visited) && Unwind(w, frame0, ctx0, |r.visited| + 1).None?)
    decreases w.depth - |seen|
  {
    match Advance(w, |seen|, frame, ctx)
    case None =>
    case Some((next, ctx')) =>
      var seen' := seen + [next];
      assert Unwind(w, frame0, ctx0, |seen'|) == Some((next, ctx'));
      FollowsExtend(w, frame0, ctx0, seen, next, ctx');
      assert forall k | 0 < k <= |seen| :: seen'[..k] == seen[..k];
      assert seen'[..|seen'|] == seen';
      if visit(seen') {
        WalkFromFollowsPrimitive(w, visit, frame0, ctx0, next, ctx', seen');
      }
  }

  // ---------------------------------------------------------------------------
  // trace

  /** The walker trace sets up for a loaded library and a captured context:
      StackWalkEx when available, StackWalk64 otherwise. */
  function WalkerFor(engine: SymbolEngine, ctx: Context): (w: Walker)
    ensures w.primitive.WalkEx? <==> engine.StackWalkEx.Some?
    ensures w.primitive.WalkEx? ==> Some(w.primitive.stepEx) == engine.StackWalkEx
    ensures w.primitive.Walk64? ==> w.primitive.step64 == engine.StackWalk64
    ensures w.args.image == MachineTag(ctx.Arch()) && w.args.resolver == SelectResolver(ctx.Arch())
    ensures w.depth == engine.depth
  {
    var args := WalkArgs(MachineTag(ctx.Arch()), SelectResolver(ctx.Arch()));
    match engine.StackWalkEx
    case Some(step) => Walker(WalkEx(step), args, engine.depth)
    case None => Walker(Walk64(engine.StackWalk64), args, engine.depth)
  }

  /** The zeroed record of the chosen layout, seeded by init_frame. */
  function InitialFrame(engine: SymbolEngine, ctx: Context): (f: Frame)
    ensures f.New? == engine.StackWalkEx.Some?
    ensures Drives(WalkerFor(engine, ctx).primitive, f)
    ensures var (pc, sp, fp) := SeedRegisters(ctx);
      && f.AddrPc() == Address64(pc, 0, AddrModeFlat)
      && f.AddrStack() == Address64(sp, 0, AddrModeFlat)
      && f.AddrFrame() == Address64(fp, 0, AddrModeFlat)
    ensures f.Rest() == 0
    ensures f.AddrPc().Segment == 0 && f.AddrStack().Segment == 0 && f.AddrFrame().Segment == 0
  {
    Initialized(if engine.StackWalkEx.Some? then New(ZeroFrameEx) else Old(ZeroFrame64), ctx)
  }

  /** A whole call of trace: `init` is the outcome of bringing the debug-help
      library up. */
  function TraceSpec(ctx: Context, init: Option<SymbolEngine>, visit: Visitor): (r: WalkResult)
    ensures init.None? ==> r == WalkResult([], 0, Unavailable)
    ensures init.Some? ==> r.ending != Unavailable
    ensures init.Some? ==> forall k | 0 <= k < |r.visited| :: r.visited[k].New? == init.value.StackWalkEx.Some?
  {
    match init
    case None => WalkResult([], 0, Unavailable)
    case Some(engine) => WalkFrom(WalkerFor(engine, ctx), visit, InitialFrame(engine, ctx), ctx, [])
  }

  /** trace: bring the library up (returning without any callback if that
      fails), pick StackWalkEx or StackWalk64 and the matching record layout,
      seed the record with init_frame and run the loop. */
  method Trace(ctx: Context, init: Option<SymbolEngine>, visit: Visitor) returns (r: WalkResult)
    ensures r == TraceSpec(ctx, init, visit)
  {
    if init.None? {
      return WalkResult([], 0, Unavailable);
    }
    var engine := init.value;
    var resolver := SelectResolver(ctx.Arch());
    match engine.StackWalkEx
    case Some(stackWalkEx) =>
      var frame, image := InitFrame(New(ZeroFrameEx), ctx);
      // The layout survives init_frame, so the `unreachable!()` arm of the
      // source is unreachable: RunWalk's precondition needs `frame.New?`.
      r := RunWalk(Walker(WalkEx(stackWalkEx), WalkArgs(image, resolver), engine.depth), frame, ctx, visit);
    case None =>
      var frame, image := InitFrame(Old(ZeroFrame64), ctx);
      r := RunWalk(Walker(Walk64(engine.StackWalk64), WalkArgs(image, resolver), engine.depth), frame, ctx, visit);
  }

  // ---------------------------------------------------------------------------
  // Properties of trace

  /** The visitor is called exactly once per successful call of the
      primitive, in order, on the frame that call produced. */
  lemma TraceVisitsEverySuccessfulStep(ctx: Context, engine: SymbolEngine, visit: Visitor)
    ensures Follows(WalkerFor(engine, ctx), InitialFrame(engine, ctx), ctx, TraceSpec(ctx, Some(engine), visit).visited)
  {
    WalkFromFollowsPrimitive(WalkerFor(engine, ctx), visit, InitialFrame(engine, ctx), ctx, InitialFrame(engine, ctx), ctx, []);
  }

  /** Early exit: the walk is stopped by the visitor exactly when its last
      callback answered false; then the primitive was called once per
      callback and never again. Every earlier callback answered true, so if
      the k-th callback answers false exactly k callbacks have happened. */
  lemma TraceEarlyExit(ctx: Context, engine: SymbolEngine, visit: Visitor)
    ensures var r := TraceSpec(ctx, Some(engine), visit);
      && (r.ending == Stopped <==> |r.visited| > 0 && !visit(r.visited))
      && (r.ending == Stopped ==> r.calls == |r.visited|)
      && (forall k | 0 < k <= |r.visited| :: !visit(r.visited[..k]) ==> k == |r.visited| && r.calls == k)
  {
    var r := TraceSpec(ctx, Some(engine), visit);
    WalkFromFollowsPrimitive(WalkerFor(engine, ctx), visit, InitialFrame(engine, ctx), ctx, InitialFrame(engine, ctx), ctx, []);
    assert r.visited[..|r.visited|] == r.visited;
  }

  /** The walk ends when the primitive fails: unless the visitor stopped it,
      the last call of the primitive (one more than the callbacks) failed. */
  lemma TraceStopsWhenPrimitiveFails(ctx: Context, engine: SymbolEngine, visit: Visitor)
    ensures var r := TraceSpec(ctx, Some(engine), visit);
      r.ending == Exhausted ==>
        && r.calls == |r.visited| + 1
        && Unwind(WalkerFor(engine, ctx), InitialFrame(engine, ctx), ctx, |r.visited| + 1).None?
  {
    WalkFromFollowsPrimitive(WalkerFor(engine, ctx), visit, InitialFrame(engine, ctx), ctx, InitialFrame(engine, ctx), ctx, []);
  }

  /** A visitor that never asks to stop sees every frame the primitive
      produces: the walk ends on its own, by the primitive's failure. */
  lemma TraceWithoutStopRunsToExhaustion(ctx: Context, engine: SymbolEngine, visit: Visitor)
    requires forall s :: visit(s)
    ensures TraceSpec(ctx, Some(engine), visit).ending == Exhausted
  {
    TraceEarlyExit(ctx, engine, visit);
  }
}
