# MSVC stack walker (dbghelp backtrace strategy), modelled in Dafny

This project models the stack-walking core that backtrace-rs uses on MSVC
targets (`src/backtrace/dbghelp.rs`). It covers three parts:

- **`Frame`**: a tagged union over the two record layouts of the debug-help
  library. `New` holds a STACKFRAME_EX, the record `StackWalkEx` fills in.
  `Old` holds a STACKFRAME64, the record `StackWalk64` fills in. The union
  gives uniform read and write access to the program-counter, stack and
  frame-pointer `ADDRESS64` records, whichever layout is active.
- **`init_frame`**: for each target architecture it copies the captured
  registers into a frame record and returns the machine tag. The registers
  are `Rip/Rsp/Rbp` on x86-64, `Eip/Esp/Ebp` on x86, `Pc/Sp/Fp` on ARM64 and
  `Pc/Sp/R11` on ARM.
- **`trace`**: it brings up the library, then picks `StackWalkEx` with the
  `New` layout if the library exports it, or `StackWalk64` with the `Old`
  layout if not. It seeds the record with `init_frame`. Then it loops: it
  calls the primitive, and on every success it hands the frame to the
  visitor, until the primitive fails or the visitor answers `false`.

Files:

- `windows.dfy` (module `Windows`): fixed-width integers, `ADDRESS64`,
  `ADDRESS_MODE`, the `IMAGE_FILE_MACHINE_*` tags, the target architectures,
  the register part of `CONTEXT`, and the integer-to-pointer cast.
- `frames.dfy` (module `Frames`): the `Frame` enum and its accessors.
- `walk.dfy` (module `Walk`): `init_frame`, the walking primitives as
  oracles, the loop of `trace` as a method, the specification functions it
  is proved against, and the lemmas about them.

How the model represents the source:

- A `Frame` is a value, as the Rust `Copy` enum is. Writing through
  `addr_pc_mut()`, `addr_stack_mut()` or `addr_frame_mut()` becomes the
  functions `WithAddrPc`, `WithAddrStack` and `WithAddrFrame`.
  `init_frame(&mut frame, …)` becomes a method that takes the frame in and
  hands the updated frame back, one field assignment per source line.
- The record fields other than the three addresses are packed into one
  number, `rest`. A `mem::zeroed()` record has `rest == 0`, every offset
  and segment 0, and every mode `AddrMode1616`, because that mode is the
  zero value of `ADDRESS_MODE`.
- `ip()` and `sp()` return `Offset as *mut c_void`. On the 32-bit targets
  this cast cuts the 64-bit offset to 32 bits, and `AsPointer` models that.
- The build target (the `cfg` choice) is the constructor of the captured
  `Context`. The pointer width, the resolver pair and the machine tag all
  follow from it.
- `dbghelp::init()` is an `Option<SymbolEngine>` parameter of `Trace`.
  `StackWalkEx()` is an `Option` field of the engine: `None` means the
  library does not export it.
- Each walking primitive is an oracle. It receives the number of earlier
  calls, the machine tag with the resolver pair, the record of its own
  layout and the context. It returns either the updated record and context,
  or failure. The engine's `depth` bounds how many calls answer `TRUE`, so
  every modelled walk ends.
- The visitor (`FnMut(&Frame) -> bool`) is a function of the sequence of
  frames it has been handed so far. Its internal state can therefore depend
  on every earlier call.
- The source writes the same loop twice, once per layout. The model has one
  `RunWalk` method, and the chosen primitive is its parameter.
- `WalkResult` records what a walk shows from outside. That is the frames
  handed to the visitor, the number of primitive calls, and how the walk
  ended: `Exhausted` (the primitive failed), `Stopped` (the visitor answered
  `false`) or `Unavailable` (init failed).

Two things the code does that the model follows:

- The code captures the register context before it calls `dbghelp::init()`
  (src/backtrace/dbghelp.rs:97-111). The order has no visible effect here,
  because the captured context is a parameter of the model.
- Addressing modes are set to flat only by `init_frame`. Nothing in the code
  keeps them flat after `StackWalkEx` or `StackWalk64` has rewritten the
  record, so the model makes no claim about the modes of visited frames.

## Model

| member | source | states |
|---|---|---|
| Windows.AsPointer | src/backtrace/dbghelp.rs:40-46 | the `u64 as *mut c_void` cast gives a value below the target's pointer limit that is congruent to the offset modulo that limit, i.e. the offset's low 32 bits on x86 and ARM and the offset itself on 64-bit targets |
| Frames.Frame.Ip | src/backtrace/dbghelp.rs:40-42 | `ip()` is the AddrPC offset of whichever layout is active (`New` or `Old`), as a pointer of the target |
| Frames.Frame.Sp | src/backtrace/dbghelp.rs:44-46 | `sp()` is the AddrStack offset of whichever layout is active, as a pointer of the target |
| Frames.Frame.AddrPc | src/backtrace/dbghelp.rs:52-57 | `addr_pc()` is the AddrPC record of the `New` layout for a `New` frame and of the `Old` layout for an `Old` frame |
| Frames.Frame.AddrStack | src/backtrace/dbghelp.rs:73-78 | `addr_stack()` is the AddrStack record of the `New` layout for a `New` frame and of the `Old` layout for an `Old` frame |
| Frames.Frame.SymbolAddress | src/backtrace/dbghelp.rs:48-50 | `symbol_address()` always equals `ip()`, which is the AddrPC offset |
| Frames.Frame.WithAddrPc | src/backtrace/dbghelp.rs:59-64 | writing through `addr_pc_mut()` keeps the layout tag, sets AddrPC, and leaves AddrStack, AddrFrame and the other fields unchanged; writing back the current value is the identity |
| Frames.Frame.WithAddrFrame | src/backtrace/dbghelp.rs:66-71 | writing through `addr_frame_mut()` keeps the layout tag, sets AddrFrame, and leaves AddrPC, AddrStack and the other fields unchanged |
| Frames.Frame.WithAddrStack | src/backtrace/dbghelp.rs:80-85 | writing through `addr_stack_mut()` keeps the layout tag, sets AddrStack, and leaves AddrPC, AddrFrame and the other fields unchanged |
| Frames.FrameDeterminedByView | src/backtrace/dbghelp.rs:28-32 | a frame is fully determined by its layout tag, its three addresses and its other fields, so the three writers above change nothing else |
| Walk.Initialized | src/backtrace/dbghelp.rs:202-250 | after `init_frame` the layout is unchanged; on x86-64 the PC/stack/frame offsets are `Rip`/`Rsp`/`Rbp`, on x86 `Eip`/`Esp`/`Ebp`, on ARM64 `Pc`/`Sp`/`Fp`, on ARM `Pc`/`Sp`/`R11`; all three modes are flat; segments and other fields are untouched |
| Walk.InitFrame | src/backtrace/dbghelp.rs:202-250 | the six field writes of `init_frame`, done one at a time, produce exactly the `Initialized` frame; the returned tag is AMD64, I386, ARM64 or ARMNT for the target |
| Walk.InitializedPointers | src/backtrace/dbghelp.rs:203-250 | right after `init_frame`, `ip()` and `sp()` read back the context's program counter and stack pointer on every target, because no truncation happens at init |
| Walk.SelectResolver | src/backtrace/dbghelp.rs:121-139 | the function-table and module-base callbacks come from RtlLookupFunctionEntry exactly on the 64-bit targets (x86-64, ARM64) and from the symbol engine's own functions exactly on the 32-bit ones (x86, ARM) |
| Walk.WalkerFor | src/backtrace/dbghelp.rs:143-192 | the walk uses the library's own StackWalkEx exactly when the library exports it and the library's StackWalk64 otherwise; every call receives the machine tag of the target and the resolver pair chosen for its pointer width |
| Walk.Advance | src/backtrace/dbghelp.rs:154-165 | a successful primitive call returns a record of the layout the primitive writes, so the frame's tag never changes; the model's exhaustion bound makes every call past `depth` fail |
| Walk.Unwind | src/backtrace/dbghelp.rs:154-192 | after any number of successful primitive calls the frame still has the primitive's layout; more than `depth` calls never all succeed |
| Walk.WalkFrom | src/backtrace/dbghelp.rs:154-197 | the loop extends the frames already visited; it ends `Exhausted` or `Stopped`, never `Unavailable`; the primitive is called once per visited frame, plus one final failing call when the walk is `Exhausted`; every frame it visits has the primitive's layout |
| Walk.RunWalk | src/backtrace/dbghelp.rs:154-197 | the `while` loop (call the primitive, stop on non-`TRUE`, hand the frame to the callback, `break` on `false`) computes exactly `WalkFrom` from the seeded frame |
| Walk.WalkFromFollowsPrimitive | src/backtrace/dbghelp.rs:154-197 | the k-th visited frame is the result of the k-th successful primitive call; every callback except the last answered `true`; a `Stopped` walk's last callback answered `false`; an `Exhausted` walk's next primitive call failed |
| Walk.InitialFrame | src/backtrace/dbghelp.rs:143-180 | the walk is seeded with a `New` record when StackWalkEx is available and an `Old` record otherwise, so its layout matches the chosen primitive and the `unreachable!()` arms cannot be reached; its AddrPC, AddrStack and AddrFrame are flat addresses holding the context's program counter, stack pointer and frame-chain register; the record starts zeroed, so after `init_frame` its segments and other fields are still 0 |
| Walk.TraceSpec | src/backtrace/dbghelp.rs:92-200 | if `dbghelp::init` fails, no callback and no primitive call happen; otherwise every frame handed to the callback is `New` when StackWalkEx is available and `Old` when it is not |
| Walk.Trace | src/backtrace/dbghelp.rs:92-200 | `trace` (init, variant choice, `init_frame`, loop) computes exactly `TraceSpec` |
| Walk.TraceVisitsEverySuccessfulStep | src/backtrace/dbghelp.rs:154-197 | the callback runs exactly once per successful primitive step, in order, on the frame that step produced |
| Walk.TraceEarlyExit | src/backtrace/dbghelp.rs:154-197 | the walk is stopped by the visitor if and only if the last callback answered `false`; when the k-th callback answers `false`, exactly k callbacks and k primitive calls have happened and the primitive is not called again |
| Walk.TraceStopsWhenPrimitiveFails | src/backtrace/dbghelp.rs:154-197 | unless the visitor stopped it, the walk ended because its last primitive call, one more than the callbacks, failed |
| Walk.TraceWithoutStopRunsToExhaustion | src/backtrace/dbghelp.rs:154-197 | a visitor that always answers `true` does not end the walk; only the primitive's failure does |

## Left out

- `rtl_capture_context` (the hand-written x86 register capture for pre-XP systems) and `RtlCaptureContext`: the captured context is a parameter of `Trace`, and only the registers `init_frame` reads are modelled.
- `GetCurrentProcess` and `GetCurrentThread`: they return constant pseudo-handles that the model does not pass to the primitive.
- `function_table_access` and `get_module_base` (RtlLookupFunctionEntry on 64-bit targets, SymFunctionTableAccess64 and SymGetModuleBase64 on 32-bit ones) are a `Resolver` tag that the primitive receives. What they compute is not modelled.
- The walking done inside StackWalkEx and StackWalk64 is an oracle. The model covers neither how they unwind nor how they update the context.
- Walks that never end are not modelled. The engine's `depth` bounds the number of successful primitive calls; the source relies on the primitive itself to stop.
- `dbghelp::init` (dynamic loading and the process-wide lock) lives in `src/dbghelp.rs`, which is not part of this model. Its outcome is an `Option` parameter.
- The `Send`/`Sync` impls, the `MyContext` alignment wrapper and the pointer-to-pointer casts of the record and the context (`as *mut STACKFRAME_EX`, `as *mut STACKFRAME64`, `as *mut CONTEXT as *mut _` at src/backtrace/dbghelp.rs:150, 159, 178 and 187) are layout and thread-safety details with no behaviour to model. The integer-to-pointer casts in `ip()` and `sp()` are modelled by `AsPointer`.
- The `super::Frame { inner }` wrapper handed to the callback is represented by the inner `Frame` alone.
- The frame and the context are updated in place through raw pointers in the source. The model returns new values instead, so aliasing between `frame` and `frame_ptr` is not represented.
