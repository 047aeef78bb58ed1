/** What the local-variable rewriter promises, proved about `Step` and `Run`:
    the effect of each kind of callback, the registrations a whole method body
    produces, what the scope stack can hold, and what the replacement
    sequences do on the operand stack and in the local slots. */
module MutatorProperties {
  import opened Wrappers
  import opened Bytecode
  import opened Strings
  import opened Interpreter
  import opened LocalVariableMutator

  // ---------------------------------------------------------------------
  // Reference definitions, independent of the rewriter's own code
  // ---------------------------------------------------------------------

  /** The type names used in descriptions, by storage type. */
  function TypeName(t: StoreType): string {
    match t
    case Integer => "Integer"
    case Float => "Float"
    case Double => "Double"
    case Long => "Long"
    case Reference => "Reference"
  }

  /** Stores and increments are the mutation points. */
  predicate IsMutationPoint(e: Event) {
    (e.VarInsn? && IsStore(e.op)) || e.IincInsn?
  }

  /** The descriptions a callback registers. */
  function RegistrationOf(e: Event): seq<string> {
    match e
    case VarInsn(op, slot) =>
      if IsStore(op)
      then ["Removed assignment on local " + TypeName(StoredType(op).value) + " variable " + IntToString(slot)]
      else []
    case IincInsn(slot, _) => ["Removed increment on local  variable " + IntToString(slot)]
    case _ => []
  }

  /** The descriptions a sequence of callbacks registers, in order. */
  function Registrations(es: seq<Event>): seq<string>
    decreases |es|
  {
    if es == [] then [] else RegistrationOf(es[0]) + Registrations(es[1..])
  }

  /** The callbacks with `visitCode` removed: what the delegate would see of
      them if nothing were mutated. */
  function Forwarded(es: seq<Event>): seq<Event>
    decreases |es|
  {
    if es == [] then [] else (if es[0].Code? then [] else [es[0]]) + Forwarded(es[1..])
  }

  /** The slot a callback stores to, if it is a store. */
  function StoredSlot(e: Event): set<int> {
    if e.VarInsn? && IsStore(e.op) then {e.slot} else {}
  }

  /** The slots written by the stores among `es`. */
  function StoredSlots(es: seq<Event>): set<int>
    decreases |es|
  {
    if es == [] then {} else StoredSlot(es[0]) + StoredSlots(es[1..])
  }

  /** Whether a callback is a jump that opens a region (any jump but GOTO). */
  function Fork(e: Event): nat {
    if e.JumpInsn? && e.op != GOTO then 1 else 0
  }

  /** The number of jumps among `es` that open a region. */
  function Forks(es: seq<Event>): nat
    decreases |es|
  {
    if es == [] then 0 else Fork(es[0]) + Forks(es[1..])
  }

  // ---------------------------------------------------------------------
  // The scope tracker on its own, built from the rewriter's own scope
  // updates `AfterStore`, `AfterJump` and `AfterFrame`, without the oracle
  // and the output
  // ---------------------------------------------------------------------

  /** What one callback does to the scope stack. */
  function Track(scopes: Scopes, e: Event): Scopes {
    match e
    case VarInsn(op, slot) => if IsStore(op) then AfterStore(scopes, slot) else scopes
    case JumpInsn(op, _) => AfterJump(scopes, op)
    case Frame(_, _, local, _, _) => AfterFrame(scopes, |local|)
    case _ => scopes
  }

  function TrackAll(scopes: Scopes, es: seq<Event>): Scopes
    decreases |es|
  {
    if es == [] then scopes else TrackAll(Track(scopes, es[0]), es[1..])
  }

  // ---------------------------------------------------------------------
  // Predicates on callbacks and scope stacks
  // ---------------------------------------------------------------------

  predicate NoFrames(es: seq<Event>) {
    forall i :: 0 <= i < |es| ==> !es[i].Frame?
  }

  /** Inner regions know at least what the regions around them know. */
  predicate Nested(scopes: Scopes) {
    forall i, j :: 0 <= i <= j < |scopes| ==> scopes[i] <= scopes[j]
  }

  /** Every region holds only slots from `allowed`. */
  predicate Within(scopes: Scopes, allowed: set<int>) {
    forall i :: 0 <= i < |scopes| ==> scopes[i] <= allowed
  }

  /** The instruction that discards a value of type `t` from the operand
      stack: POP2 for a two-word value, POP otherwise. */
  function DiscardOf(t: StoreType): Opcode {
    if Width(t) == 2 then POP2 else POP
  }

  /** The discard a replacement starts with removes exactly the stored value. */
  lemma ExecDiscard(t: StoreType, m: Machine)
    requires m.stack != [] && Peek(m).ty == t
    ensures Exec(Insn(DiscardOf(t)), m) == Some(Drop(m, 1))
  {
  }

  // ---------------------------------------------------------------------
  // The opcode table
  // ---------------------------------------------------------------------

  /** GetStoreType names exactly the five stores, each with its own type name. */
  lemma GetStoreTypeTable(op: Opcode)
    ensures IsStore(op) ==> GetStoreType(op) == TypeName(StoredType(op).value)
    ensures !IsStore(op) ==> GetStoreType(op) == ""
  {
  }

  /** The exact replacements by type: discard one or two words, then (for an
      initialization) push the type's zero and store it into the same slot. */
  lemma ReplacementTable(op: Opcode, slot: int)
    requires IsStore(op)
    ensures DeclarationReplacement(op, slot)
         == [Insn(DiscardOf(StoredType(op).value)), Insn(ZeroConstant(StoredType(op).value)), VarInsn(op, slot)]
    ensures AssignmentReplacement(op) == [Insn(DiscardOf(StoredType(op).value))]
  {
  }

  /** The description of a store, spelled out: "assignment" for every store,
      initialization or not. */
  lemma StoreDescription(op: Opcode, slot: int)
    requires IsStore(op)
    ensures Description(ASSIGNMENT, op, slot)
         == "Removed assignment on local " + TypeName(StoredType(op).value) + " variable " + IntToString(slot)
  {
    var head := "Removed " + ASSIGNMENT + " on local ";
    assert head == "Removed assignment on local ";
    GetStoreTypeTable(op);
    assert Description(ASSIGNMENT, op, slot) == head + GetStoreType(op) + " variable " + IntToString(slot);
  }

  /** The description of an increment, spelled out: the type name is empty,
      hence the two spaces. */
  lemma IncrementDescription(slot: int)
    ensures Description(INCREMENT, IINC, slot) == "Removed increment on local  variable " + IntToString(slot)
  {
    var head := "Removed " + INCREMENT + " on local " + GetStoreType(IINC) + " variable ";
    assert head == "Removed increment on local  variable ";
    assert Description(INCREMENT, IINC, slot) == head + IntToString(slot);
  }

  // ---------------------------------------------------------------------
  // One callback at a time
  // ---------------------------------------------------------------------

  /** A store records its slot in the innermost region and registers one
      mutation point. It is an initialization exactly when no region is open
      or recording the slot changed the innermost region; no other region and
      not the depth change, and with no region open nothing is recorded. */
  lemma StoreScopes(active: set<nat>, s: VisitorState, op: Opcode, slot: int)
    requires IsStore(op)
    ensures var t := Step(active, s, VarInsn(op, slot));
      && |t.scopes| == |s.scopes|
      && (forall i :: 0 <= i < |s.scopes| - 1 ==> t.scopes[i] == s.scopes[i])
      && (s.scopes != [] ==> Top(t.scopes) == Top(s.scopes) + {slot} && slot in Top(t.scopes))
      && (IsInitialization(s.scopes, slot) <==> s.scopes == [] || Top(t.scopes) != Top(s.scopes))
      && t.log == s.log + ["Removed assignment on local " + TypeName(StoredType(op).value) + " variable " + IntToString(slot)]
  {
    var t := Step(active, s, VarInsn(op, slot));
    StoreDescription(op, slot);
    if s.scopes != [] {
      assert Top(t.scopes) == Top(s.scopes) + {slot};
      if !IsInitialization(s.scopes, slot) {
        assert Top(t.scopes) == Top(s.scopes);
      } else {
        assert slot in Top(t.scopes) && slot !in Top(s.scopes);
      }
    }
  }

  /** An inactive store is passed on exactly once, as it came. */
  lemma InactiveStore(active: set<nat>, s: VisitorState, op: Opcode, slot: int)
    requires IsStore(op) && |s.log| !in active
    ensures Step(active, s, VarInsn(op, slot)).out == s.out + [VarInsn(op, slot)]
  {
  }

  /** An active initialization discards the value, pushes the type's zero and
      stores that into the same slot. */
  lemma ActiveInitialization(active: set<nat>, s: VisitorState, op: Opcode, slot: int)
    requires IsStore(op) && |s.log| in active && IsInitialization(s.scopes, slot)
    ensures Step(active, s, VarInsn(op, slot)).out
         == s.out + [Insn(DiscardOf(StoredType(op).value)), Insn(ZeroConstant(StoredType(op).value)), VarInsn(op, slot)]
  {
    ReplacementTable(op, slot);
  }

  /** An active re-assignment only discards the value: no store reaches the delegate. */
  lemma ActiveAssignment(active: set<nat>, s: VisitorState, op: Opcode, slot: int)
    requires IsStore(op) && |s.log| in active && !IsInitialization(s.scopes, slot)
    ensures Step(active, s, VarInsn(op, slot)).out == s.out + [Insn(DiscardOf(StoredType(op).value))]
  {
    ReplacementTable(op, slot);
  }

  /** Loads, RET and any other local-variable opcode register nothing and are passed on. */
  lemma OtherVarInsn(active: set<nat>, s: VisitorState, op: Opcode, slot: int)
    requires !IsStore(op)
    ensures Step(active, s, VarInsn(op, slot)) == s.(out := s.out + [VarInsn(op, slot)])
  {
  }

  /** An increment registers one mutation point with an empty type name; when
      active nothing is passed on, otherwise the increment itself. The scope
      stack is not touched. */
  lemma Increment(active: set<nat>, s: VisitorState, slot: int, increment: int)
    ensures var t := Step(active, s, IincInsn(slot, increment));
      && t.scopes == s.scopes
      && t.log == s.log + ["Removed increment on local  variable " + IntToString(slot)]
      && t.out == s.out + (if |s.log| in active then [] else [IincInsn(slot, increment)])
  {
    IncrementDescription(slot);
  }

  /** A jump is passed on; every jump but GOTO opens one region that starts as
      the innermost one (or empty), leaving the others as they were. */
  lemma Jump(active: set<nat>, s: VisitorState, op: Opcode, target: Label)
    ensures var t := Step(active, s, JumpInsn(op, target));
      && t.out == s.out + [JumpInsn(op, target)]
      && t.log == s.log
      && (op == GOTO ==> t.scopes == s.scopes)
      && (op != GOTO ==>
            && |t.scopes| == |s.scopes| + 1
            && t.scopes[..|s.scopes|] == s.scopes
            && Top(t.scopes) == (if s.scopes == [] then {} else Top(s.scopes)))
  {
  }

  /** A frame is passed on and closes the innermost region; only when that
      leaves no region and the frame has locals is one empty region opened.
      With no region open, nothing changes. */
  lemma FrameStep(active: set<nat>, s: VisitorState, frameType: int, nLocal: int,
                  local: seq<FrameItem>, nStack: int, stack: seq<FrameItem>)
    ensures var t := Step(active, s, Frame(frameType, nLocal, local, nStack, stack));
      && t.out == s.out + [Frame(frameType, nLocal, local, nStack, stack)]
      && t.log == s.log
      && |t.scopes| == (if s.scopes == [] then 0
                        else if |s.scopes| == 1 && |local| > 0 then 1
                        else |s.scopes| - 1)
      && (|s.scopes| > 1 ==> t.scopes == s.scopes[..|s.scopes| - 1])
      && (|s.scopes| == 1 ==> t.scopes == if |local| > 0 then [{}] else [])
  {
  }

  /** `visitCode` changes nothing and reaches no one. */
  lemma CodeDropped(active: set<nat>, s: VisitorState)
    ensures Step(active, s, Code) == s
  {
  }

  // ---------------------------------------------------------------------
  // Stack words and values
  // ---------------------------------------------------------------------

  /** Both replacements change the operand-stack depth by as many words as the
      store they replace. */
  lemma ReplacementWordBalance(op: Opcode, slot: int)
    requires IsStore(op)
    ensures AllHaveWordDelta(DeclarationReplacement(op, slot))
    ensures SumWordDelta(DeclarationReplacement(op, slot)) == WordDelta(VarInsn(op, slot))
    ensures AllHaveWordDelta(AssignmentReplacement(op))
    ensures SumWordDelta(AssignmentReplacement(op)) == WordDelta(VarInsn(op, slot))
    ensures WordDelta(VarInsn(op, slot)) == 0 - Width(StoredType(op).value)
  {
    var d := DeclarationReplacement(op, slot);
    ReplacementTable(op, slot);
    assert d[1..][1..][1..] == [];
    assert SumWordDelta(d[1..][1..]) == WordDelta(d[2]);
    assert SumWordDelta(d[1..]) == WordDelta(d[1]) + WordDelta(d[2]);
    var a := AssignmentReplacement(op);
    assert SumWordDelta(a) == WordDelta(a[0]) by {
      assert a[1..] == [];
    }
  }

  /** What a mutation point passes on changes the operand-stack depth exactly
      as the original instruction does, whether or not it is active. */
  lemma StepWordBalance(active: set<nat>, s: VisitorState, e: Event)
    requires IsMutationPoint(e)
    ensures var t := Step(active, s, e);
      && |s.out| <= |t.out| && t.out[..|s.out|] == s.out
      && AllHaveWordDelta(t.out[|s.out|..])
      && SumWordDelta(t.out[|s.out|..]) == WordDelta(e)
  {
    var t := Step(active, s, e);
    var emitted := t.out[|s.out|..];
    if e.VarInsn? {
      ReplacementWordBalance(e.op, e.slot);
      assert t.out == s.out + emitted;
      if |s.log| !in active {
        assert emitted == [e];
        assert SumWordDelta(emitted) == WordDelta(e) + SumWordDelta(emitted[1..]);
      }
    } else {
      assert t.out == s.out + emitted;
      if |s.log| !in active {
        assert emitted == [e];
        assert SumWordDelta(emitted) == WordDelta(e) + SumWordDelta(emitted[1..]);
      }
    }
  }

  /** On a well-typed operand stack the original store moves the top value
      into the slot. */
  lemma StoreEffect(op: Opcode, slot: int, m: Machine)
    requires IsStore(op) && m.stack != [] && Peek(m).ty == StoredType(op).value
    ensures ExecAll([VarInsn(op, slot)], m) == Some(Machine(Drop(m, 1).stack, m.locals[slot := Peek(m)]))
  {
    ExecStore(op, slot, m);
    ExecCons(VarInsn(op, slot), [], m, Machine(Drop(m, 1).stack, m.locals[slot := Peek(m)]));
    assert [VarInsn(op, slot)] + [] == [VarInsn(op, slot)];
  }

  /** The initialization replacement leaves the same operand stack as the
      original store, but the slot ends up holding the type's zero
      (0, false, '\u0000', (byte) 0, 0.0f, 0.0d, 0L or null). */
  lemma DeclarationEffect(op: Opcode, slot: int, m: Machine)
    requires IsStore(op) && m.stack != [] && Peek(m).ty == StoredType(op).value
    ensures ExecAll(DeclarationReplacement(op, slot), m)
         == Some(Machine(Drop(m, 1).stack, m.locals[slot := Zero(StoredType(op).value)]))
  {
    var t := StoredType(op).value;
    ReplacementTable(op, slot);
    var e0, e1, e2 := Insn(DiscardOf(t)), Insn(ZeroConstant(t)), VarInsn(op, slot);
    var m1 := Drop(m, 1);
    var m2 := Push(m1, Zero(t));
    var m3 := Machine(m1.stack, m.locals[slot := Zero(t)]);
    assert m2.stack[..|m2.stack| - 1] == m1.stack;
    ExecDiscard(t, m);
    ExecZero(ZeroConstant(t), t, m1);
    ExecStore(op, slot, m2);
    ExecThree(e0, e1, e2, m, m1, m2, m3);
  }

  /** The assignment replacement leaves the same operand stack as the
      original store and every slot holding what it held before. */
  lemma AssignmentEffect(op: Opcode, m: Machine)
    requires IsStore(op) && m.stack != [] && Peek(m).ty == StoredType(op).value
    ensures ExecAll(AssignmentReplacement(op), m) == Some(Drop(m, 1))
  {
    ReplacementTable(op, 0);
    var a := AssignmentReplacement(op);
    ExecDiscard(StoredType(op).value, m);
    assert a[1..] == [];
  }

  /** Against the original store: the initialization replacement ends where
      the store ends except that the slot holds the type's zero, and the
      assignment replacement ends where the store ends except that no slot
      has changed. */
  lemma ReplacementsVersusStore(op: Opcode, slot: int, m: Machine)
    requires IsStore(op) && m.stack != [] && Peek(m).ty == StoredType(op).value
    ensures ExecAll([VarInsn(op, slot)], m).Some?
    ensures var after := ExecAll([VarInsn(op, slot)], m).value;
      && ExecAll(DeclarationReplacement(op, slot), m)
         == Some(after.(locals := after.locals[slot := Zero(StoredType(op).value)]))
      && ExecAll(AssignmentReplacement(op), m) == Some(after.(locals := m.locals))
  {
    var t := StoredType(op).value;
    StoreEffect(op, slot, m);
    DeclarationEffect(op, slot, m);
    AssignmentEffect(op, m);
    assert m.locals[slot := Peek(m)][slot := Zero(t)] == m.locals[slot := Zero(t)];
  }
}
