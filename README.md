# pitest's experimental local-variable mutator, in Dafny

This project models `LocalVariableMutator.LocalVariableVisitor`, the per-method
bytecode rewriter of pitest's experimental local-variable mutator, and proves
properties of that model.

The rewriter is an ASM `MethodVisitor`. It receives the callbacks of one method
body in order and passes them on to a delegate visitor. Two kinds of
instruction are **mutation points**:
- every store to a local slot (`ISTORE`, `FSTORE`, `DSTORE`, `LSTORE`, `ASTORE`);
- every `IINC`.

Each mutation point is registered with the mutation context under a
description. The context hands out identifiers in order and answers whether
each identifier is the one to activate.

An active mutation point is rewritten as follows:
- An active increment is dropped.
- An active store that **initializes** its slot becomes "discard the value,
  push the type's zero, store it". The slot is still written, but with 0,
  0.0f, 0.0d, 0L or null.
- An active store that **re-assigns** its slot only discards the value.

Whether a store initializes is decided by `localsInScope`, a stack of slot
sets:
- a store adds its slot to the top set;
- every jump except `GOTO` pushes a copy of the top set;
- every stack-map frame pops the top set, and pushes an empty set when that
  leaves the stack empty and the frame has locals.

## Structure

- `wrappers.dfy`: `Option`.
- `strings.dfy`: decimal rendering of an `int`, as Java's string
  concatenation writes the slot number into a description.
- `bytecode.dfy`: the vocabulary of the rewriter. An opcode with a name in
  `Opcode` is always written by that name, never as `OtherOpcode` of its JVM
  code; the model does not read numeric codes. The file holds:
  - opcodes by JVM mnemonic, the visitor callbacks (`Event`) and the five
    storage types;
  - each instruction's net effect on the operand-stack depth, in words.
- `interpreter.dfy`: a small semantics of the emitted instructions, over an
  operand stack of typed values and a map of local slots. It judges what the
  replacements compute.
- `local_variable_mutator.dfy`: the rewriter.
  - `Step` and `Run` are the reference definition: one callback's effect on
    the visitor state (scope stack, events passed on, descriptions
    registered), and a sequence of callbacks.
  - The class `LocalVariableVisitor` has the source's fields and methods. Each
    `visit*` method is proved to change the fields exactly as `Step` says.
    `visitFrame` keeps its loop over the frame's locals.
- `mutator_properties.dfy`: reference definitions and single-callback lemmas.
  The expected registrations and the forwarded events are written
  independently of `Step`. `Track` is the scope tracker on its own: it is
  built from the same scope updates as `Step`, without the oracle and the
  output. The file also proves the replacements' word balance and their
  effect as evaluated by `ExecAll`, the interpreter's semantics.
- `run_properties.dfy`: lemmas about whole method bodies:
  - registration order;
  - the scope tracker;
  - oracle independence;
  - the identity when nothing is active;
  - invariants of the scope stack.
- `scenarios.dfy`: concrete method bodies.
  - Three are test methods of `LocalVariableMutatorTest`: `HasNoLocals`,
    `HasLocalInteger` and `HasLocalVariableWithSecondAssignment`.
  - Two are further examples that no test of the mutator covers: an
    increment (`int a = 11; a++;`) and two sibling blocks that reuse a slot.
  - Each body has the shape javac compiles it to, with two exceptions:
    - Every int constant is pushed with `BIPUSH`. javac uses `ICONST_1`
      and `ICONST_2` for 1 and 2; both forms push the same int and are
      passed on unchanged.
    - `LocalInteger`, `SecondAssignment` and `Increment` stop at the load of
      `a`. The boxing call `Integer.valueOf` and the `areturn` after it are
      left out. The value left on top of the operand stack stands for what
      the method returns.
  - The rewriter's output is computed for each body. Only the outputs of
    `LocalInteger`, `SecondAssignment` and `Increment` are then evaluated by
    `ExecAll`, the interpreter's semantics. For `HasNoLocals` and
    `SiblingScopes`, the registrations and the scope stack are stated
    instead.

Notes on the code's behaviour, all modelled as written:
- **Descriptions.** Every store's description says "assignment", initialization
  or not; the constant `INITIALIZATION` (line 21) is never used. The
  increment's description has two spaces ("local  variable"), because the
  type name of `IINC` is empty.
- **Frames.** The set a frame pushes is always empty; only the number of
  entries in `local` matters. A frame pops the bottom set too, which can
  leave the stack empty.
- **Jumps.** Every jump other than `GOTO` opens a region, `JSR` included.
- **Other var instructions.** Any other local-variable opcode (a load, `RET`)
  registers nothing and is passed on unchanged.
- **`visitCode`.** It is not passed on to the delegate.

## Model

| member | source | states |
|---|---|---|
| LocalVariableMutator.GetStoreType | pitest/src/main/java/org/pitest/mutationtest/engine/gregor/mutators/experimental/LocalVariableMutator.java:146-161 | the type name is non-empty exactly for the five store opcodes |
| LocalVariableMutator.LocalVariableVisitor.constructor | pitest/src/main/java/org/pitest/mutationtest/engine/gregor/mutators/experimental/LocalVariableMutator.java:28-34 | the visitor starts with one empty region, nothing passed on and nothing registered |
| LocalVariableMutator.LocalVariableVisitor.VisitCode | pitest/src/main/java/org/pitest/mutationtest/engine/gregor/mutators/experimental/LocalVariableMutator.java:36-39 | `visitCode` changes no state and is not passed on |
| LocalVariableMutator.LocalVariableVisitor.VisitVarInsn | pitest/src/main/java/org/pitest/mutationtest/engine/gregor/mutators/experimental/LocalVariableMutator.java:41-57 | the new scopes, output and log are those of `Step` on the var instruction (classification, registration, replacement or pass-through) |
| LocalVariableMutator.LocalVariableVisitor.VisitIincInsn | pitest/src/main/java/org/pitest/mutationtest/engine/gregor/mutators/experimental/LocalVariableMutator.java:59-68 | the new state is that of `Step` on the increment: one registration, and the increment passed on unless active |
| LocalVariableMutator.LocalVariableVisitor.VisitFrame | pitest/src/main/java/org/pitest/mutationtest/engine/gregor/mutators/experimental/LocalVariableMutator.java:70-85 | the frame is passed on; the loop over `local` leaves the scopes as `AfterFrame` says |
| LocalVariableMutator.LocalVariableVisitor.VisitJumpInsn | pitest/src/main/java/org/pitest/mutationtest/engine/gregor/mutators/experimental/LocalVariableMutator.java:87-99 | the jump is passed on and the scope stack updated as `Step` says (a copy of the top pushed unless GOTO) |
| LocalVariableMutator.LocalVariableVisitor.Accept | pitest/src/main/java/org/pitest/mutationtest/engine/gregor/mutators/experimental/LocalVariableMutator.java:20 | any callback changes the state as `Step` says; callbacks the visitor does not override are passed on unchanged |
| LocalVariableMutator.LocalVariableVisitor.MutateDeclaration | pitest/src/main/java/org/pitest/mutationtest/engine/gregor/mutators/experimental/LocalVariableMutator.java:101-130 | appends exactly the declaration replacement for the opcode, ending in the original store |
| LocalVariableMutator.LocalVariableVisitor.MutateAssignment | pitest/src/main/java/org/pitest/mutationtest/engine/gregor/mutators/experimental/LocalVariableMutator.java:132-144 | appends exactly POP (int, float, reference) or POP2 (double, long) |
| LocalVariableMutator.LocalVariableVisitor.ShouldMutate | pitest/src/main/java/org/pitest/mutationtest/engine/gregor/mutators/experimental/LocalVariableMutator.java:163-169 | registers one description, and answers true exactly when the identifier just handed out is active |
| Strings.IntToString | pitest/src/main/java/org/pitest/mutationtest/engine/gregor/mutators/experimental/LocalVariableMutator.java:165 | non-empty, a leading minus exactly for negative slot numbers, digits elsewhere with no leading zero, and the digits spell the number's absolute value, as `Integer.toString` writes it |
| MutatorProperties.GetStoreTypeTable | pitest/src/main/java/org/pitest/mutationtest/engine/gregor/mutators/experimental/LocalVariableMutator.java:146-161 | each store opcode gets the name of its storage type; every other opcode gets "" |
| MutatorProperties.ReplacementTable | pitest/src/main/java/org/pitest/mutationtest/engine/gregor/mutators/experimental/LocalVariableMutator.java:103-144 | the declaration replacement is [discard of the type's width, the type's zero constant, the original store]; the assignment replacement is that discard alone |
| MutatorProperties.StoreDescription | pitest/src/main/java/org/pitest/mutationtest/engine/gregor/mutators/experimental/LocalVariableMutator.java:163-165 | every store, initialization or not, is described as "Removed assignment on local T variable n" with T its storage type |
| MutatorProperties.IncrementDescription | pitest/src/main/java/org/pitest/mutationtest/engine/gregor/mutators/experimental/LocalVariableMutator.java:158-165 | an increment is described as "Removed increment on local  variable n", with two spaces |
| MutatorProperties.StoreScopes | pitest/src/main/java/org/pitest/mutationtest/engine/gregor/mutators/experimental/LocalVariableMutator.java:42-46 | the depth and the lower regions are kept and the slot joins the top; initialization holds exactly when the stack is empty or the add changed the top (with no region, nothing is added); one description is logged |
| MutatorProperties.InactiveStore | pitest/src/main/java/org/pitest/mutationtest/engine/gregor/mutators/experimental/LocalVariableMutator.java:46-56 | an inactive store is passed on exactly once, unchanged |
| MutatorProperties.ActiveInitialization | pitest/src/main/java/org/pitest/mutationtest/engine/gregor/mutators/experimental/LocalVariableMutator.java:47-48 | an active initialization emits discard, zero constant, original store |
| MutatorProperties.ActiveAssignment | pitest/src/main/java/org/pitest/mutationtest/engine/gregor/mutators/experimental/LocalVariableMutator.java:49-51 | an active re-assignment emits only the discard, with no store |
| MutatorProperties.OtherVarInsn | pitest/src/main/java/org/pitest/mutationtest/engine/gregor/mutators/experimental/LocalVariableMutator.java:43-56 | a var opcode that is not a store registers nothing, leaves the scopes alone and is passed on unchanged |
| MutatorProperties.Increment | pitest/src/main/java/org/pitest/mutationtest/engine/gregor/mutators/experimental/LocalVariableMutator.java:59-68 | an increment registers one description and leaves the scopes alone; if active nothing is passed on, otherwise the increment itself |
| MutatorProperties.Jump | pitest/src/main/java/org/pitest/mutationtest/engine/gregor/mutators/experimental/LocalVariableMutator.java:87-99 | a jump is passed on; except for GOTO, depth grows by one, the lower regions are kept and the new top equals the old top (or is empty) |
| MutatorProperties.FrameStep | pitest/src/main/java/org/pitest/mutationtest/engine/gregor/mutators/experimental/LocalVariableMutator.java:70-85 | a frame is passed on; the depth becomes old-1, or 1 when old is 1 and the frame has locals, or stays 0; the regions left are the old lower ones |
| MutatorProperties.CodeDropped | pitest/src/main/java/org/pitest/mutationtest/engine/gregor/mutators/experimental/LocalVariableMutator.java:36-39 | `visitCode` leaves the whole state unchanged |
| MutatorProperties.ReplacementWordBalance | pitest/src/main/java/org/pitest/mutationtest/engine/gregor/mutators/experimental/LocalVariableMutator.java:103-144 | both replacements change the operand-stack depth by the same number of words as the store (-1, or -2 for long and double) |
| MutatorProperties.StepWordBalance | pitest/src/main/java/org/pitest/mutationtest/engine/gregor/mutators/experimental/LocalVariableMutator.java:41-68 | whatever a mutation point passes on, active or not, only extends the output, and changes the stack depth exactly as the original instruction |
| MutatorProperties.StoreEffect | pitest/src/main/java/org/pitest/mutationtest/engine/gregor/mutators/experimental/LocalVariableMutator.java:129 | on a well-typed stack the original store moves the top value into the slot |
| MutatorProperties.DeclarationEffect | pitest/src/main/java/org/pitest/mutationtest/engine/gregor/mutators/experimental/LocalVariableMutator.java:101-130 | the declaration replacement leaves the same operand stack as the store; the slot holds the type's zero |
| MutatorProperties.AssignmentEffect | pitest/src/main/java/org/pitest/mutationtest/engine/gregor/mutators/experimental/LocalVariableMutator.java:132-144 | the assignment replacement leaves the same operand stack as the store, and the slots unchanged |
| MutatorProperties.ReplacementsVersusStore | pitest/src/main/java/org/pitest/mutationtest/engine/gregor/mutators/experimental/LocalVariableMutator.java:101-144 | against the original store on the same operand stack: the initialization replacement ends in the same state except that the slot holds the type's zero; the assignment replacement ends in the same state except that every slot keeps its old value |
| RunProperties.StepLog | pitest/src/main/java/org/pitest/mutationtest/engine/gregor/mutators/experimental/LocalVariableMutator.java:163-169 | each callback registers exactly the descriptions the reference `RegistrationOf` lists |
| RunProperties.StepOracleFree | pitest/src/main/java/org/pitest/mutationtest/engine/gregor/mutators/experimental/LocalVariableMutator.java:44-53 | the scopes and log after a callback do not depend on the oracle or on the output so far |
| RunProperties.RunExtends | pitest/src/main/java/org/pitest/mutationtest/engine/gregor/mutators/experimental/LocalVariableMutator.java:41-99 | over any body, what was passed on and what was registered is never taken back |
| RunProperties.RunLog | pitest/src/main/java/org/pitest/mutationtest/engine/gregor/mutators/experimental/LocalVariableMutator.java:163-169 | over any body, the log grows by one description per store and per increment, in traversal order (so the k-th point gets identifier k) |
| RunProperties.NoStoresNoMutants | pitest/src/test/java/org/pitest/mutationtest/engine/gregor/mutators/experimental/LocalVariableMutatorTest.java:17-27 | a body without stores and increments registers no mutation point |
| RunProperties.RunScopes | pitest/src/main/java/org/pitest/mutationtest/engine/gregor/mutators/experimental/LocalVariableMutator.java:26 | the scope stack after any body is `TrackAll` over the callbacks: a function of the callbacks alone, read from neither the oracle nor the output |
| RunProperties.OracleIndependence | pitest/src/main/java/org/pitest/mutationtest/engine/gregor/mutators/experimental/LocalVariableMutator.java:163-168 | the scopes and the registrations over any body do not depend on which identifiers are active |
| RunProperties.InactiveIsIdentity | pitest/src/main/java/org/pitest/mutationtest/engine/gregor/mutators/experimental/LocalVariableMutator.java:41-99 | with no identifier still to come active, the delegate receives every callback but `visitCode`, unchanged and in order |
| RunProperties.RunNested | pitest/src/main/java/org/pitest/mutationtest/engine/gregor/mutators/experimental/LocalVariableMutator.java:87-96 | inner regions always contain the regions around them |
| RunProperties.RunWithin | pitest/src/main/java/org/pitest/mutationtest/engine/gregor/mutators/experimental/LocalVariableMutator.java:44 | regions only ever hold slots they held before or slots stored to |
| RunProperties.ScopesFromStart | pitest/src/main/java/org/pitest/mutationtest/engine/gregor/mutators/experimental/LocalVariableMutator.java:32-33 | from the start of a method the regions are nested and hold only slots written so far |
| RunProperties.RunFrameFree | pitest/src/main/java/org/pitest/mutationtest/engine/gregor/mutators/experimental/LocalVariableMutator.java:87-96 | without frames, the lower regions are kept, the depth grows by the number of non-GOTO jumps, and the top gains exactly the stored slots |
| RunProperties.ClassificationByHistory | pitest/src/main/java/org/pitest/mutationtest/engine/gregor/mutators/experimental/LocalVariableMutator.java:44 | in a frame-free prefix of a method, a store initializes exactly when no earlier store wrote its slot |
| Scenarios.HasNoLocals | pitest/src/test/java/org/pitest/mutationtest/engine/gregor/mutators/experimental/LocalVariableMutatorTest.java:17-27 | `return 10` registers no mutation point |
| Scenarios.LocalIntegerMutant | pitest/src/test/java/org/pitest/mutationtest/engine/gregor/mutators/experimental/LocalVariableMutatorTest.java:29-41 | the first mutant of `int a = 1; return a;` replaces the store with POP, ICONST_0, ISTORE 1 |
| Scenarios.LocalIntegerMutantReturnsZero | pitest/src/test/java/org/pitest/mutationtest/engine/gregor/mutators/experimental/LocalVariableMutatorTest.java:37-41 | that mutant returns 0 |
| Scenarios.SecondAssignmentLog | pitest/src/test/java/org/pitest/mutationtest/engine/gregor/mutators/experimental/LocalVariableMutatorTest.java:86-99 | `int a = 1; a = 10;` has two mutation points with the same description |
| Scenarios.SecondAssignmentMutant | pitest/src/test/java/org/pitest/mutationtest/engine/gregor/mutators/experimental/LocalVariableMutatorTest.java:95-99 | mutant 1 treats the second store as an assignment: the 10 is popped and not stored |
| Scenarios.SecondAssignmentMutantReturnsOne | pitest/src/test/java/org/pitest/mutationtest/engine/gregor/mutators/experimental/LocalVariableMutatorTest.java:95-99 | that mutant returns 1 |
| Scenarios.IncrementMutant | pitest/src/main/java/org/pitest/mutationtest/engine/gregor/mutators/experimental/LocalVariableMutator.java:59-68 | activating the increment of `int a = 11; a++;` removes it from the output |
| Scenarios.IncrementMutantReturnsEleven | pitest/src/main/java/org/pitest/mutationtest/engine/gregor/mutators/experimental/LocalVariableMutator.java:59-68 | that mutant returns 11 |
| Scenarios.IncrementUnmutated | pitest/src/main/java/org/pitest/mutationtest/engine/gregor/mutators/experimental/LocalVariableMutator.java:59-68 | with nothing active, the same body is passed on unchanged |
| Scenarios.IncrementUnmutatedReturnsTwelve | pitest/src/main/java/org/pitest/mutationtest/engine/gregor/mutators/experimental/LocalVariableMutator.java:59-68 | unmutated, the body returns 12 |
| Scenarios.SiblingScopesClassification | pitest/src/main/java/org/pitest/mutationtest/engine/gregor/mutators/experimental/LocalVariableMutator.java:70-99 | in sibling branches that javac compiles to the same slot, each first store is an initialization (the frame closes the region the jump opened), and the later store is an assignment |

## Left out

- Console output: the `System.out.println` calls (lines 38, 45, 61, 64, 84, 98) are debugging output and do not affect the delegate.
- ASM plumbing:
  - `MethodVisitor` delegation is modelled as the `out` sequence;
  - labels are opaque numbers;
  - frame entries and the frame's stack are opaque, and only the length of `local` is used;
  - `ASMVersion` and the unused imports are not modelled.
- A frame with `local == null` (compressed frames): ASM passes an array, and the model's `local` is always a sequence.
- `MutationContext`: registration is modelled as appending to `log`, with the identifier being the index. `shouldMutate` is modelled as a fixed set `active` of identifiers.
- `MethodInfo` is not modelled: the visitor ignores it.
- The factory methods `create`, `getGloballyUniqueId`, `toString` and `getName` (lines 172-190) are not modelled: they are constant strings and a constructor call.
- Float and double values are not modelled: interpreter values carry a type tag and an integer payload. `FCONST_0` and `DCONST_0` push the payload 0.
- The slot after a long or double is not modelled. Category-2 values sit in one map entry, and the stack counts words only through `Width`.
- Slot numbers and increments are unbounded integers: the JVM's 16-bit slot limit is not enforced. `iinc` wraps its result to 32 bits (`Wrap32`).
- The test harness (`MutatorTestBase`, class loading, the JVM running a mutant) is not modelled. Instead, the scenarios evaluate the emitted instructions with `ExecAll`, the interpreter's semantics.
- The boolean, char, byte, double, long, String and method-result tests (`pitest/src/test/java/org/pitest/mutationtest/engine/gregor/mutators/experimental/LocalVariableMutatorTest.java` lines 43-84 and 101-159) share the rewriting of `LocalInteger`, up to the store opcode. They are covered by the generic `ActiveInitialization` and `DeclarationEffect` lemmas, not by scenarios of their own.
- The traversal order of callbacks is fixed by ASM's class reader; the model takes it as the input sequence.
