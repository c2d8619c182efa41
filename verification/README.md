# CuWASM in Dafny

CuWASM compiles WebAssembly to a flat bytecode of fixed-width instructions (CuOps), checks the bytecode with a worklist
verifier, and runs it with a step interpreter that can be cut into slices and suspended at host calls. The three parts
trust each other, and this project proves that they may.

| modules | what they hold |
|---|---|
| Bits, Words, Memory, Bytecode | words, the integer ALU, little-endian memory, CuOps and the effect of straight-line instructions |
| Machine | the interpreter as a step function on its own state: pc, one shared stack, frames, fuel, store, mailbox |
| Frames, Limits, Fuel | the same machine with the stack cut into activations, the proof that the flat one refines it, when a limit is reached, and what spends fuel |
| Instructions | a law for every straight-line instruction on words, bits and bytes, and for the operands on the stack |
| Interpreter | the interpreter and the driver loop as they work, on arrays updated in place, proved equal to Machine |
| Verifier, Safety, Unchecked | the verifier, its soundness over whole runs, and why its unchecked hypotheses are needed |
| Callers, TailCalls, Termination, Slices | caller integrity, tail calls, halting, slicing and suspension |
| Wasm, Meaning, Structured | structured function bodies, their typing and their fuel-indexed meaning (section 4.4.8 of the WebAssembly Core Specification 2.0), and laws of structured control |
| Emission, Lowering, Translator, Stubs, Fingerprint, Completeness | what lowering emits, said structurally; the one-pass back-patching translator, proved to emit just that; what it refuses, and the stubs in its place |
| Accepting, Reached, Verifying | lowered code verifies, exactly when it can |
| Simulation, Preservation, Targets, EndToEnd, Pipeline, Imported | lowering preserves meaning, aims its branches well, halts; the whole chain; where it fails |
| Wide, LinearMemory | 128-bit arithmetic in 64-bit steps; loads, stores and bulk copies |
| HostState, HostLaws, GpuHost | the in-kernel Soroban host: object heap and ledger, what its calls mean byte by byte, and its arrays |

Conventions. A host is a function of the log of calls made so far (function, arguments, linear memory), so every run is
deterministic given the host. The pseudo-status `Undefined` stands for an access outside one of the C++ arrays; safety
theorems say it is never reached. `Ticks` counts interpreter steps and host-call resumes together. The source program
knows nothing of the machine's limits (stack slots, frames, fuel). The interpreter uses the stack-overflow status for
operand underflow too, so results speak of `Limits.LimitHit`: some tick of the run needed a slot, a frame or fuel that
was not there. Rows about translated programs and their meaning are about programs whose table holds no import
(`Simulation.Built`); translation and acceptance themselves do not ask for that (`Simulation.IsImage`). ALU opcodes are
collapsed into arity classes over one `Alu` datatype.

Hypotheses the code does not check, and where they appear: calls and table entries reach functions with a body, a tail
call's target has the caller's result count, an UNWIND keeps no more than it leaves (`Safety.Linked`; each shown to be
needed by a lemma of module Unchecked; proved of translated code by `Verifying.LeastLinked`, for the table only if no
slot holds an import, which `Imported.TableCondition` shows to be what meaning depends on); the host returns the declared
number of results, at most one (`Safety.WellBehaved`); arguments and locals of the entry function fit the stack
(`Safety.EntryCondition`, `Unchecked.EntryCanOverrun`); params and locals leave room for the scratch local in 16 bits
(`Translator.Translatable`).

Where code and documentation differ, the code is followed: the comments on `gpu_host.h` put the handle of an object right
above an 8-bit tag, the code shifts it by 32.

## Model

| member | source | states |
|---|---|---|
| `Pipeline.CompileAndRun` | tools/src/lib.rs:1372-1438 | Translate, verify, run, assuming nothing of the translated module: a well-typed program without imports in its table is accepted iff no function that keeps its body has a reachable point of more than 65535 slots; then the run on real arrays of a program that makes no tail calls, or of a call that has an outcome, always comes back, and status, results, globals, memory, memory size and segment flags are what the program means (refused bodies being stubs that trap; without any, the very program that was given), unless a limit was reached at some tick of the run. An entry frame of more than 4096 slots makes the driver leave its stack array. |
| `Pipeline.TranslatedRunsAreSafe` | src/verify.cpp:287-303 | For the translation of a well-typed program, a host that answers as declared and an entry frame that fits the stack, from the answer of the verifier: no run accesses anything outside the arrays, and sp - fp is at most the recorded max_stack at every instruction boundary. |
| `Pipeline.RunTranslated` | src/run.cpp:155-242 | The same for an already translated module, for every slice length and for both drivers; `run_cpu` only where the memory size cannot change. |
| `Pipeline.RoundsToEnd` | src/run.cpp:206-231 | A halting run is finished by finitely many driver rounds, in the very state unsliced running reaches. |
| `EndToEnd.MeaningPreserved` | tools/src/lib.rs:766-910 | Lowering preserves meaning: for every program, function, arguments, store and source fuel, some number of interpreter ticks from the entry state ends as the structured semantics does, or one of those ticks reached a limit of the machine, or both are still running. |
| `EndToEnd.LimitsShown` | include/cuwasm/interp.h:44-50 | A run from the entry of translated code ends in a limit status iff a limit (slots, frames, fuel) was really reached, never because of operand underflow. |
| `EndToEnd.ResultIsMeaning` | tools/src/lib.rs:766-910 | Conversely, whatever final state the interpreter reaches without having reached a limit is the outcome of the structured semantics. |
| `EndToEnd.Agreement` | tools/src/lib.rs:766-910 | Both directions for any sufficient fuel: if the program has an outcome, the run ends, and ends with that outcome unless a limit was reached. |
| `EndToEnd.TotalCorrectness` | include/cuwasm/interp.h:439-518 | Every call into a translated program halts that makes no tail calls or has an outcome, with the meaning of the program, or at a limit that was reached. |
| `EndToEnd.HaltingCondition` | include/cuwasm/interp.h:439-518 | Exactly when a call comes back: iff the program has an outcome with some fuel or a limit is reached at some tick. |
| `Imported.TableCondition` | tools/src/lib.rs:1495-1501 | Exactly when translation keeps meaning whatever the functions of a program are: given its types, imports and table, every run of every program with these that ends, and not at a limit, ends as the program means iff no table slot holds an import. Otherwise an indirect call, in WebAssembly a host call, jumps to pc 0. |
| `Imported.CallerUnfaithful` | include/cuwasm/interp.h:648-676 | For each import in each table a well-typed program and its translation whose run ends in a trap that the program does not mean, with every host. |
| `Imported.CallerBuilt` | tools/src/lib.rs:1410-1436 | The module of that program is its exact translation. |
| `EndToEnd.LoweredHalts` | include/cuwasm/interp.h:439-469 | Every run of translated tail-call-free code ends, from any state inside its functions and with any host. |
| `Verifying.LoweredVerifies` | src/verify.cpp:298-303 | Lowering output verifies exactly when it can: a translated well-typed module is accepted iff no reachable point of its source (by typing and control flow) needs a frame of more than 65535 slots. |
| `Verifying.TrackedHeightsClosed` | tools/src/lib.rs:345-457 | However tall the function is, as long as an int can count it, the heights the translator tracked solve all height equations of the verifier, so the least assignment has the tracked height at every pc it visits. |
| `Verifying.AcceptedIsNarrow` | src/verify.cpp:298-303 | A function that has an assignment is narrow; and a least assignment has the tracked height at every visited pc, so translator-dead code is never verifier-reachable. |
| `Verifying.NarrowIsAccepted` | tools/src/lib.rs:345-457 | The tracked heights of a narrow function, on the pcs control reaches, are an assignment and meet every unchecked hypothesis of verifier soundness. |
| `Verifying.LeastLinked` | src/verify.cpp:57-296 | Least assignments of translated code, which are what the verifier finds, meet every unchecked hypothesis. |
| `Verifying.TallCode` | src/verify.cpp:298-303 | A failing family: n constants and `unreachable` are valid and lowered without error for every n, and narrow iff n <= 65535. |
| `Reached.InstrArea` | src/verify.cpp:57-296 | What the source says about control flow and heights of one instruction is exact for its code: the pcs it marks are closed under successors up to the exits, contained in every closed set that holds the entry, and within a bound iff the typed heights are. |
| `Reached.BodyArea` | src/verify.cpp:57-296 | The same for instruction sequences. |
| `EndToEnd.BuiltGuarded` | tools/src/lib.rs:790-870 | Code of a translated tail-call-free program leads only to code of its functions: branches stay inside, BR_IF_NOT jumps strictly forward, control does not run off the end, calls reach functions with a body. |
| `Meaning.MeaningUnique` | tools/src/lib.rs:766-947 | The fuel-indexed meaning of a function is independent of the fuel once it is enough. |
| `Structured.IfIsBlock` | tools/src/lib.rs:790-827 | if is one of two blocks, chosen by the low 32 bits; without an else arm the other block is empty. |
| `Structured.BranchesAreBranches` | tools/src/lib.rs:859-906 | br_if and br_table are the br they select, or none. |
| `Structured.BranchLeaves` | tools/src/lib.rs:402-457 | A branch out of a block leaves its topmost results on what lay under it and skips the rest; a branch to an outer label is that branch taken outside. |
| `Structured.LoopsBack` | tools/src/lib.rs:780-789 | A loop that branches back at once has no outcome with any fuel. |
| `Structured.LoopRunsOnce` | tools/src/lib.rs:780-789 | A loop whose body does not branch is a block. |
| `Structured.CallTakesTop` | tools/src/lib.rs:911-924 | A call takes the topmost operands in order and leaves the results in their place. |
| `Structured.LocalsHold` | include/cuwasm/interp.h:66-71 | A local holds what was set last; setting one leaves the others. |
| `Preservation.SimInstr` | tools/src/lib.rs:766-947 | Simulation of one structured instruction (all nestings) by the code emitted for it: the machine reaches the end, the branch target, the caller, the trap or a limit that the outcome says, with the same operands, locals and store. |
| `Preservation.SimBody` | tools/src/lib.rs:766-947 | Simulation of an instruction sequence. |
| `Preservation.SimFunc` | include/cuwasm/interp.h:452-518 | Simulation of a call of a defined function down to the delivery of its results. |
| `Preservation.SameLookup` | include/cuwasm/interp.h:648-661 | Comparing fingerprints at run time finds a callee exactly when comparing types structurally does. |
| `Simulation.TickBranch` | tools/src/lib.rs:402-457 | UNWIND plus BR take exactly the label-arity operands to the base of the target label. |
| `Simulation.TickGuarded` | tools/src/lib.rs:859-870 | The BR_IF_NOT-guarded branch is taken iff the operand is nonzero as an i32, and falls through with the rest of the operands otherwise. |
| `Simulation.TickChain` | tools/src/lib.rs:871-906 | The comparison chain of br_table, for any number of targets, branches to target i when the u32 index is i and to the default otherwise, unwinding for that target; the scratch slot is no source local. |
| `Lowering.LoweringIsEmission` | tools/src/lib.rs:459-1144 | The one-pass back-patching translator over the flat operator list computes exactly the structural, compositional code (or fails exactly when that does): pending placeholders are always the open branches of the enclosing blocks. |
| `Lowering.InstrLowers` | tools/src/lib.rs:766-910 | Back-patching invariant, per instruction: lowering its operators appends its structural code and records in the open control frames exactly its unresolved branches. |
| `Lowering.BodyLowers` | tools/src/lib.rs:766-910 | Back-patching invariant, per instruction sequence. |
| `Lowering.PatchIsClose` | tools/src/lib.rs:323-325 | Patching the recorded positions of a block resolves exactly the branches to it. |
| `Lowering.EndIfElse` | tools/src/lib.rs:807-849 | Else and End of an if: BR_IF_NOT goes to the else arm, the BR of the then arm and every pending branch go to the join point. |
| `Translator.EndOfBlock` | tools/src/lib.rs:828-849 | The End case, patching in a loop over the recorded placeholders. |
| `Translator.BranchTableOp` | tools/src/lib.rs:871-906 | The br_table case, emitting the chain in a loop. |
| `Translator.LowerOperators` | tools/src/lib.rs:459-1144 | The loop over the operator list computes LowerAll. |
| `Translator.ScanBody` | tools/src/lib.rs:472-477 | The scan for br_table over the flat list finds one iff the body contains one, so the scratch local exists exactly when needed. |
| `Translator.LowerFunction` | tools/src/lib.rs:1410-1436 | One body: on success the resolved code with its END_FUNC, the matching meta and constant pool; iff structural emission fails, a trapping stub behind whatever the failed pass left in code and pool. |
| `Translator.Fingerprints` | tools/src/lib.rs:1447-1450 | The fingerprint table; fails iff some signature has more than 8 params or results. |
| `Translator.LowerProgram` | tools/src/lib.rs:1372-1438 | Always a module unless a signature is too big: the exact translation of the program in which the refused bodies are stubs; for a well-typed program these are the bodies that `Completeness.FuncFits` rules out. |
| `Stubs.KeptCode` | tools/src/lib.rs:1410-1436 | Functions that keep their body have the same code whatever becomes of the others. |
| `Stubs.StubCode` | tools/src/lib.rs:1424-1436 | A stub is UNREACHABLE and END_FUNC with no locals, which is the code of a body `unreachable`. |
| `Stubs.StubTraps` | tools/src/lib.rs:1424-1436 | Calling a refused function traps Unreachable and touches nothing. |
| `Stubs.StubbedNarrow` | tools/src/lib.rs:1424-1436 | Stubs are well typed and verify, so acceptance depends on the kept bodies only. |
| `Completeness.LoweringCondition` | tools/src/lib.rs:402-447 | Exactly when a function of a well-typed program is lowered without error: iff every branch in code the translator takes for live, the else arms of dead ifs included, finds as many operands (by the typing) as its label wants, and no tail call goes to an import. |
| `Completeness.DeadElsesLower` | tools/src/lib.rs:807-827 | In particular every well-typed program is lowered in which no else arm of a dead if branches out of that if and no import is tail-called. |
| `Completeness.DeadElseBranch` | tools/src/lib.rs:421-447 | Exactly when a branch out of an else arm in dead code is refused: iff the label wants more operands than the parameters of the if. |
| `Completeness.DeadElseTyped` | tools/src/lib.rs:807-827 | Such an if is valid WebAssembly. |
| `Completeness.ValidButRefused` | tools/src/lib.rs:402-447 | A concrete well-typed program the translator refuses: `i32.const 0; block; unreachable; if; else; br 1; end; end; drop`. |
| `Targets.FuncAimed` | tools/src/lib.rs:449-457 | After a successful lowering every branch target lies in the function, every BR_IF_NOT target is strictly forward, and every backward BR goes to the header of a loop around it. |
| `Targets.LoopsFrom` | tools/src/lib.rs:780-789 | The loops recorded for a body lie inside its code, each header in front of the code it encloses: start <= header <= end of loop <= end of code. |
| `Targets.BodyLocal` | tools/src/lib.rs:911-930 | CALL is emitted only for functions with a body. |
| `Accepting.InstrFine` | tools/src/lib.rs:345-457 | At every emitted pc the verifier's equation holds for the translator's tracked heights (per instruction). |
| `Accepting.BodyFine` | tools/src/lib.rs:345-457 | The same for instruction sequences. |
| `Accepting.BodyTracks` | tools/src/lib.rs:345-354 | The translator's height and dead flag follow the WebAssembly typing of the body. |
| `Accepting.InstrDead` | tools/src/lib.rs:850-910 | Code emitted in dead state is tracked dead throughout. |
| `Verifier.Join` | src/verify.cpp:40-55 | Propagating a height keeps the worklist invariant; it fails only if no assignment exists. |
| `Verifier.Visit` | src/verify.cpp:57-296 | Processing one pc keeps the invariant and visits its successors; it fails only if no assignment exists. |
| `Verifier.Solve` | src/verify.cpp:34-296 | The worklist loop finds the least solution of the height equations or proves there is none, with the greatest height it reaches, popping each pc at most once. |
| `Verifier.VerifyFunc` | src/verify.cpp:30-303 | A function is accepted iff some height assignment with 0 at entry satisfies all local checks and successor equations within 16 bits; then the least one and its peak are returned. |
| `Verifier.VerifyCuop` | src/verify.cpp:13-304 | The module is accepted iff every function is, and the recorded max_stack is the peak of the least assignment. |
| `Verifier.LeastUnique` | src/verify.cpp:34-296 | The least assignment is unique on the pcs it visits, so the result is independent of worklist order. |
| `Verifier.PeakFits` | src/verify.cpp:298-303 | If any assignment fits 16 bits, the peak of the least one does: rejecting on it loses nothing. |
| `Safety.VerifiedRunsAreSafe` | src/verify.cpp:57-296 | Verifier soundness over whole runs: after any number of steps, calls, tail calls, indirect calls and host suspensions from the entry of an accepted module, nothing was accessed outside the arrays, pc is in the running function, sp == fp + n_params + n_locals + height[pc], and the top frame starts at fp. |
| `Safety.EntryCondition` | src/run.cpp:184-187 | Exactly when a run of the driver stays inside its arrays: iff parameters and locals of the entry function take at most 4096 slots. |
| `Safety.VerifiedInstructions` | src/verify.cpp:57-296 | Every instruction a verified run comes to is known, has its indices in range and its branches inside the running function. |
| `Safety.AcceptedShape` | src/verify.cpp:13-33 | Functions of an accepted module lie in the code and end in a return, or are imports without code. |
| `Safety.StepSound` | include/cuwasm/interp.h:52-703 | Every step keeps all activations typed by the heights of their functions. |
| `Safety.TicksSound` | src/run.cpp:206-231 | The invariant holds along every run, suspensions included. |
| `Safety.StackBound` | src/verify.cpp:287-303 | From the records of the verifier: at every instruction boundary of every run, sp - fp is at most the max_stack recorded for the running function, and nothing was accessed outside the arrays. |
| `Safety.RecordedHeights` | src/verify.cpp:287-303 | The records name the least assignment of every function. |
| `Safety.Assignments` | src/verify.cpp:13-304 | An accepted module has a height assignment for every function. |
| `Unchecked.UnwindCanReachTheCaller` | src/verify.cpp:168-176 | An accepted module whose UNWIND overwrites its caller's operand: the unwind hypothesis cannot be dropped. |
| `Unchecked.TailCallCanLoseResults` | src/verify.cpp:204-212 | An accepted module whose tail call returns too few results, after which no function fits the state: the result-count hypothesis cannot be dropped. |
| `Unchecked.EntryCanOverrun` | src/run.cpp:184-187 | A failing family: a function with n locals is accepted iff n <= 65535, and leaves the stack array at entry iff n > 4096. |
| `Unchecked.CallCanEnterAnImport` | src/verify.cpp:195-203 | An accepted module whose call of an import lands in other code, where no function fits the state: called functions must have a body. |
| `Unchecked.TableCanHoldAnImport` | src/verify.cpp:258-270 | The same through a table slot. |
| `Frames.StepRefines` | include/cuwasm/interp.h:52-703 | One step on the flat stack does what the machine with separate activations does, whenever the latter stays inside its activation. |
| `Frames.TicksRefine` | include/cuwasm/interp.h:52-703 | The same for whole runs with host suspension. |
| `Limits.TickTells` | include/cuwasm/interp.h:44-50 | The next tick ends in a limit status iff it needs more than 4096 slots, more than 256 frames or more fuel than is left; which status, too. |
| `Limits.LimitsTold` | include/cuwasm/interp.h:44-50 | The same for whole runs. |
| `Limits.LimitNumbers` | include/cuwasm/vmstate.h:64-66 | The limits in numbers: the next tick is stopped by the call depth iff it calls a function with 256 frames in use, by fuel iff it jumps back on the last unit, by the stack iff more than 4096 slots would be in use after it. |
| `Fuel.FuelLaw` | include/cuwasm/interp.h:439-445 | Over whole runs of any module from any entry: the fuel after k ticks is 10^12 minus the backward jumps made, and the run ends out of fuel iff 10^12 of them have been made. |
| `Fuel.ShortRuns` | src/run.cpp:178 | No run of fewer than 10^12 ticks ends for lack of fuel. |
| `Frames.UnwindRefines` | include/cuwasm/interp.h:417-437 | UNWIND keeps the top operands and cuts the rest, as memmove on the shared stack. |
| `Frames.EnterRefines` | include/cuwasm/interp.h:452-469 | CALL carves the arguments out of the caller and zeroes the locals. |
| `Frames.ReturnCallRefines` | include/cuwasm/interp.h:471-492 | RETURN_CALL replaces the running activation in place. |
| `Frames.ReturnRefines` | include/cuwasm/interp.h:494-518 | RETURN hands exactly the declared results to the caller. |
| `Frames.EntryRel` | src/run.cpp:170-187 | The entry state of the driver. |
| `Callers.CallerIntegrity` | include/cuwasm/interp.h:452-518 | From a call to its matching return no slot below the fp of the callee changes; at the return the caller has its pc, fp, frames and slots back, with exactly the words on top that the callee had on top of its own operands one tick before. |
| `Callers.SoundLimits` | include/cuwasm/interp.h:44-50 | On every verified run a limit status appears iff a limit was reached. |
| `Callers.CalleeRun` | include/cuwasm/interp.h:452-518 | Until the return the debt to the caller stands; at the return it is paid with exactly the topmost operands of the callee. |
| `TailCalls.TailCallIsCall` | include/cuwasm/interp.h:471-518 | RETURN_CALL versus CALL then RETURN from the same activation: unless the CALL side hits a limit, both end alike, or RETURN_CALL reaches one step earlier the very state in which the CALL side resumes the outer caller. |
| `TailCalls.TailCallRunIsCallRun` | include/cuwasm/interp.h:471-518 | For whole runs: status, store, fuel and results agree, in no more steps. |
| `TailCalls.TailCallRejoins` | include/cuwasm/interp.h:471-518 | The same on the flat stack: equal pc, frames, live stack, fuel and store in the outer caller, or equal status, store, fuel and results if the run ended first, unless a limit was reached. |
| `TailCalls.TailChain` | include/cuwasm/interp.h:471-492 | Any chain of tail calls leaves fp, csp and all but the result count of the top frame unchanged. |
| `TailCalls.TwinRun` | include/cuwasm/interp.h:52-703 | Two machines running the same activations on different callers stay in lock step until both return. |
| `Termination.Halts` | include/cuwasm/interp.h:439-469 | If control that is in a set of pcs stays there, and conditional branches there go forward and there are no tail calls, every run from inside halts, with every host. |
| `Termination.StepDescends` | include/cuwasm/interp.h:439-518 | Each step lowers the measure (fuel, then distances to the end of code of all frames). |
| `Termination.TailLoopRunsForever` | include/cuwasm/interp.h:471-492 | A function that tail-calls itself never halts, so the tail-call hypothesis is needed. |
| `Slices.SliceIndependence` | include/cuwasm/interp.h:705-713 | With the memory view rebuilt from the saved size, runs cut into slices of any two lengths end in the same state: status, stack, frames, fuel, globals, memory and host log. |
| `Slices.RoundsAreTicks` | src/runner.cu:21 | Driver rounds are ticks of the unsliced run. |
| `Slices.RunsKeepZeroBeyond` | include/cuwasm/interp.h:556-568 | Along every run the bytes beyond the accessible size stay zero, so grown pages read as zero; size only grows. |
| `Slices.StaleViewHarmless` | src/run.cpp:194-231 | Where memory cannot grow (no memory.grow, or no page left), `run_cpu` with its once-built view equals the driver with the rebuilt view. |
| `Slices.ProbeDiverges` | src/run.cpp:194-231 | Otherwise a four-instruction program returns different results for two slice lengths of `run_cpu`. |
| `Slices.CpuSliceCondition` | src/run.cpp:194-231 | `run_cpu` is independent of max_steps for all programs, hosts and functions iff memory has no page left to grow into. |
| `Interpreter.Instance.constructor` | src/run.cpp:170-187 | The entry state on real arrays, pushed as the driver pushes it, for frames of every size. |
| `Interpreter.Instance.Place` | src/run.cpp:184-187 | The unchecked push loops: all words, or `Undefined` where they leave the stack array. |
| `Machine.StartIsEntry` | src/run.cpp:170-187 | The entry state is the one frame with arguments and cleared locals iff the slots fit, and undefined otherwise. |
| `Interpreter.Instance.PushAll` | include/cuwasm/interp.h:44-50 | CU_PUSH in a loop: writes until the stack is full, then traps. |
| `Interpreter.Instance.Unwind` | include/cuwasm/interp.h:417-437 | In-place UNWIND equals StepUnwind. |
| `Interpreter.Instance.Branch` | include/cuwasm/interp.h:439-445 | In-place BR with its fuel charge equals StepBr. |
| `Interpreter.Instance.EnterFunction` | include/cuwasm/interp.h:456-468 | In-place frame push equals Enter. |
| `Interpreter.Instance.ReturnCall` | include/cuwasm/interp.h:471-492 | In-place tail call equals StepReturnCall. |
| `Interpreter.Instance.Return` | include/cuwasm/interp.h:494-518 | In-place return equals StepReturn. |
| `Interpreter.Instance.CallIndirect` | include/cuwasm/interp.h:648-676 | In-place indirect call equals StepCallIndirect. |
| `Interpreter.Instance.CallHost` | include/cuwasm/interp.h:630-647 | Filling the mailbox equals StepCallHost. |
| `Interpreter.Instance.LoadOp` | include/cuwasm/interp.h:523-542 | OP_LOAD on the memory array equals EvalLoad. |
| `Interpreter.Instance.StoreOp` | include/cuwasm/interp.h:543-552 | OP_STORE on the memory array equals EvalStore; a trap changes nothing. |
| `Interpreter.Instance.GrowOp` | include/cuwasm/interp.h:556-568 | OP_MEMORY_GROW equals EvalGrow. |
| `Interpreter.Instance.CopyOp` | include/cuwasm/interp.h:569-587 | OP_MEMORY_COPY equals the simultaneous copy; a trap changes nothing. |
| `Interpreter.Instance.FillOp` | include/cuwasm/interp.h:588-599 | OP_MEMORY_FILL equals EvalFill; a trap changes nothing. |
| `Interpreter.Instance.InitOp` | include/cuwasm/interp.h:600-621 | OP_MEMORY_INIT equals EvalInit; a trap changes nothing. |
| `Interpreter.Instance.Apply` | include/cuwasm/interp.h:63-629 | All straight-line cases equal Eval on the store view. |
| `Interpreter.Instance.StepOnce` | include/cuwasm/interp.h:52-703 | One turn of the loop on the arrays equals Step. |
| `Interpreter.Instance.RunInstance` | include/cuwasm/interp.h:30-716 | `run_instance` equals RunSlice. |
| `Interpreter.Instance.AnswerHost` | src/run.cpp:207-224 | The resume after a host call equals Resume. |
| `Interpreter.Drive` | src/run.cpp:155-242 | The driver leaves exactly the state the rounds lead to, including the entry checks, entry frames that do not fit, the results read back and the memory size, which a refused host call leaves as it was. |
| `Interpreter.Instance.RunRounds` | src/run.cpp:206-231 | The driver loop on the arrays reaches the state the rounds lead to, and knows whether it returned at a host call. |
| `Interpreter.StoppedStatus` | src/run.cpp:207-224 | A driver stopped at a host call never reports success. |
| `Interpreter.Compute` | include/cuwasm/interp.h:63-404 | The arithmetic cases, the wide ones in 64-bit steps. |
| `Interpreter.CountLeadingZeros` | include/cuwasm/interp.h:678-694 | The mask loop of OP_CLZ counts the leading zeros. |
| `Instructions.BinaryLaw` | include/cuwasm/interp.h:73-360 | Every two-operand instruction, 32 and 64 bits: the operand on top is the right one; it traps iff it divides by zero or the signed quotient does not fit; sums, products and left shifts are congruent, quotients round toward zero with a rest of the sign of the dividend, right shifts are floors, gates act bit by bit, comparisons give 0 or 1. |
| `Instructions.UnaryLaw` | include/cuwasm/interp.h:678-694 | eqz, and clz by the place of the highest set bit. |
| `Instructions.ConversionLaw` | include/cuwasm/interp.h:361-370 | Conversions keep the number, unsigned or in two's complement. |
| `Instructions.WideLaw` | include/cuwasm/interp.h:387-404 | add128 and sub128 on the stack: operands lhs_lo, lhs_hi, rhs_lo, rhs_hi, pushed low word first, exact modulo 2^128. |
| `Instructions.ProductLaw` | include/cuwasm/interp.h:371-386 | mul_wide_u and mul_wide_s on the stack, low word pushed first: the exact product, modulo 2^128 if signed. |
| `Instructions.LoadLaw` | include/cuwasm/interp.h:523-542 | OP_LOAD goes through iff 1 <= n <= 8 and the access ends within the accessible size, over the integers; it changes nothing and pushes the number whose bytes are those in memory, lowest first, read as flagged; else it traps. |
| `Instructions.StoreLaw` | include/cuwasm/interp.h:543-552 | OP_STORE goes through iff the access is accessible, and writes byte i of the word at ea + i and nothing else. |
| `Instructions.CopyLaw` | include/cuwasm/interp.h:569-587 | memory.copy traps iff a range ends beyond the accessible size; else byte dst + i is what byte src + i was, every other byte is unchanged. |
| `Instructions.FillLaw` | include/cuwasm/interp.h:588-599 | memory.fill, the same way. |
| `Instructions.InitLaw` | include/cuwasm/interp.h:600-621 | memory.init, the same way; a dropped segment is empty. |
| `Instructions.DropThenInit` | include/cuwasm/interp.h:622-629 | data.drop changes the one flag; an init from that segment then goes through iff it asks for nothing. |
| `Instructions.GrowLaw` | include/cuwasm/interp.h:553-568 | memory.size and memory.grow in pages of 65536 bytes: growing succeeds iff the pages are reserved and at most 65536, and pushes the old count, else 0xFFFFFFFF. |
| `Instructions.ParametricLaw` | include/cuwasm/interp.h:406-415 | select, drop; a global reads what was set last, setting one leaves the others; unknown globals trap. |
| `Instructions.OnStack` | include/cuwasm/interp.h:51-56 | On the interpreter's stack a straight-line instruction takes its operands from the top, last one on top, and leaves its results there; nothing below changes; a trap leaves the store. |
| `Instructions.HostCallLaw` | include/cuwasm/interp.h:630-647 | A host call hands over the arguments in the order pushed, with memory as it is; the result takes their place, a refusal or more than 16 arguments end the run. |
| `Instructions.StopLaw` | include/cuwasm/interp.h:53-54 | Where the interpreter stops without a result, and with which status. |
| `Instructions.IndirectLaw` | include/cuwasm/interp.h:648-676 | An indirect call traps iff the slot is missing, empty (0xFFFFFFFF), names no function or one of another type; else it is a direct call. |
| `Wide.MulUnsigned` | include/cuwasm/interp.h:10-20 | lo + 2^64 * hi == a * b exactly; every intermediate fits in 64 bits except the one shift that is meant to drop bits. |
| `Wide.MulSigned` | include/cuwasm/interp.h:22-28 | The two's-complement 128-bit product of the signed readings. |
| `Wide.Add128` | include/cuwasm/interp.h:387-395 | Addition modulo 2^128, carry by comparison. |
| `Wide.Sub128` | include/cuwasm/interp.h:396-404 | Subtraction modulo 2^128, borrow by comparison. |
| `LinearMemory.LoadLe` | include/cuwasm/mem.h:41-46 | The or-and-shift loop reads the little-endian value. |
| `LinearMemory.StoreLe` | include/cuwasm/mem.h:48-51 | The shift loop writes the little-endian bytes and no other byte. |
| `LinearMemory.Sext64IsSignExtend` | include/cuwasm/mem.h:53-56 | The two shifts compute the two's-complement reading, for every width 1 to 64. |
| `LinearMemory.LoadAfterStore` | include/cuwasm/mem.h:41-51 | Load after store gives the value modulo 2^(8n); disjoint loads are unaffected. |
| `LinearMemory.StoreAfterLoad` | include/cuwasm/mem.h:41-51 | Storing back a loaded value changes nothing. |
| `LinearMemory.StoreThenLoad` | include/cuwasm/interp.h:523-552 | A store goes through iff 1 <= n <= 8 and ea + n <= size over the integers; a load then reads the value back sign- or zero-extended as flagged, and nothing else changed. |
| `LinearMemory.CopyWithin` | include/cuwasm/interp.h:577-586 | The forward/backward copy loops equal the simultaneous copy for every overlap. |
| `LinearMemory.StoppingStepKeepsStore` | include/cuwasm/interp.h:523-629 | A step that traps, suspends or ends the run changes no byte, global, flag or size: bulk operations are all or nothing. |
| `Fingerprint.TypeFingerprint` | tools/src/lib.rs:237-258 | The or-and-shift fold computes the fingerprint; fails iff more than 8 params or results. |
| `Fingerprint.FpInjective` | tools/src/lib.rs:237-258 | For signatures of at most 8 params and 8 results, fingerprints are equal iff signatures are. |
| `Fingerprint.FpArity` | src/verify.cpp:258-270 | The two bytes the verifier decodes are the arities of the signature. |
| `HostState.CanonicalKeys` | include/cuwasm/gpu_host.h:175-216 | Keys of the same shape are equal iff storage type and resolved contents are, whatever heaps and handles they come from. |
| `HostState.ShapeMatters` | include/cuwasm/gpu_host.h:181-213 | Across shapes keys collide: an address and four words can share one. |
| `HostState.KeyStable` | include/cuwasm/gpu_host.h:175-216 | A key stays the same while its objects live. |
| `HostState.ObjectsSafeCondition` | include/cuwasm/gpu_host.h:319-340 | Host calls never change an existing object iff the heap is not full; on a full heap vec_new rewrites object 0. |
| `HostState.RunKeepsObjects` | include/cuwasm/gpu_host.h:105-125 | Over any run that never builds a vector on a full heap, objects are only added. |
| `HostState.ReadYourWrites` | include/cuwasm/gpu_host.h:388-445 | After a put and any calls that do not write the same canonical key, has is true and get through any key value with that canonical key gives back the word, or an address object for the same public key. |
| `HostState.LedgerIsMap` | include/cuwasm/gpu_host.h:225-240 | Over every run that uses at most 16 distinct keys, no put is dropped and the ledger equals the unbounded map. |
| `HostState.I128RoundTrip` | include/cuwasm/gpu_host.h:354-385 | Both halves of an i128 come back from the heap, after any calls that leave objects alone. |
| `HostLaws.KeyLayout` | include/cuwasm/gpu_host.h:175-216 | The canonical key byte by byte: it exists iff the vector handle is live and it has at most 128 bytes; the storage type, then per value the public key (zeros if dangling) or the word, lowest byte first. |
| `HostLaws.VecNewLaw` | include/cuwasm/gpu_host.h:319-340 | With room, vec_new answers a handle (index << 32 | 75) to a new last object of the given length whose element i is the word at pointer + 8 * i, or 0 out of bounds; nothing else changes. |
| `HostLaws.VecNewFullLaw` | include/cuwasm/gpu_host.h:319-340 | On a full heap it answers Void and fills object 0. |
| `HostLaws.VecOfWords` | include/cuwasm/gpu_host.h:319-340 | A vector built from up to four words lying in memory one after the other has as its content exactly those words, resolved. |
| `HostLaws.PutLaw` | include/cuwasm/gpu_host.h:425-445 | Per call and key: only a put to that key, with room or the key present, changes its entry, to the public key or the bytes of the word; put answers Void and touches no object. |
| `HostLaws.KeyCondition` | include/cuwasm/gpu_host.h:225-240 | Over every run: a key is in the ledger iff it was there or has been put while fewer than 16 keys were. |
| `HostLaws.HasCondition` | include/cuwasm/gpu_host.h:388-410 | Over every run: has answers 1 for exactly those keys and 0 for the others, get answers Void for the others, and nothing changes. |
| `HostLaws.GetLaw` | include/cuwasm/gpu_host.h:401-424 | What get makes of a stored value: a new address object, a word, or Void. |
| `HostLaws.I128Law` | include/cuwasm/gpu_host.h:354-385 | An i128 object holds its halves low first; what is no live i128 reads as 0; a full heap gives Void. |
| `GpuHost.Storage.Find` | include/cuwasm/gpu_host.h:156-162 | Linear search by length and bytes finds the index of a key iff it is in the map. |
| `GpuHost.Storage.PutRaw` | include/cuwasm/gpu_host.h:225-240 | Keeps the keys distinct and updates the map: overwrite, append, or drop when full. |
| `GpuHost.Host.NewObject` | include/cuwasm/gpu_host.h:105-119 | Appends the zero-padded object and returns its handle, or Void when full. |
| `GpuHost.Host.BuildKey` | include/cuwasm/gpu_host.h:175-216 | The buffer holds the canonical key; fails iff the vector handle dangles or the key exceeds 128 bytes. |
| `GpuHost.Host.HasData` | include/cuwasm/gpu_host.h:388-400 | Membership in the map under the canonical key. |
| `GpuHost.Host.GetData` | include/cuwasm/gpu_host.h:401-424 | The stored value as word or fresh address object; Void if absent. |
| `GpuHost.Host.PutData` | include/cuwasm/gpu_host.h:425-445 | Map update under the canonical key with the resolved value. |
| `GpuHost.Host.NewVec` | include/cuwasm/gpu_host.h:319-340 | The vector object read from linear memory, with the full-heap behaviour of the code. |
| `GpuHost.Host.Dispatch` | include/cuwasm/gpu_host.h:291-445 | Each call does to the arrays what Answer says. |
| `GpuHost.Host.DispatchAll` | include/cuwasm/gpu_host.h:291-445 | So does every sequence of calls. |

## Left out

- WASM binary decoding, sections, constant expressions and the C ABI: programs start as typed operator lists.
- CUDA code: device transfers, batch kernels and their smaller capacities; only the rebuilding of the memory view is taken from src/runner.cu.
- Floats beyond moving their bits.
- OP_CLZ with a width other than 32 or 64, and `in.a` fields the translator never emits.
- `peak_csp`, `max_steps` bookkeeping, run profiles, disassembly and names.
- Null data pointers (`MemView.data`, `DataView.blob`): memory and segments are always there, possibly empty.
- Host functions that are stubs (TTL, auth, events, maps, ledger sequence, strings and symbols) and seeding helpers.
- Verifying.TrackedHeightsClosed: heights beyond 2^31 - 1, where the cast to int in the verifier and 32-bit pcs would wrap, are excluded.
- Interpreter.Drive: takes the number of rounds after which the run has ended, since the loop has no bound of its own.
- Interpreter.Compute: single-word cases call the specification function instead of computing it again, because each is one branch.
- Interpreter.Instance.Apply: single-word ALU cases call the specification function instead of repeating it.
- GpuHost.Storage.PutRaw: keys longer than 128 bytes are excluded; `kv_canon_key` never builds one.
- Translator.LowerFunction: what a failed pass leaves in code and constant pool is arbitrary, not traced.
- Translator.LowerProgram: the operator list and control stack are values that the loop reassigns, not vectors shared with a caller.
