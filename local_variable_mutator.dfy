/** The per-method rewriter of pitest's experimental local-variable mutator.

    It reads the events of one method body in order and passes them on to a
    delegate visitor. Every store to a local slot and every `iinc` is a
    mutation point: it is registered with the mutation context, which hands
    out the next identifier, and an oracle says whether that identifier is the
    one to activate. An active store is reduced (an initialization keeps its
    store but of the type's zero; a re-assignment only drops the value); an
    active `iinc` is dropped. Whether a store initializes is decided by a stack
    of slot sets, forked at conditional jumps and reset at stack-map frames.

    `Step` is the reference definition of one callback; the class
    `LocalVariableVisitor` is the visitor itself, each method proved to update
    its fields exactly as `Step` says. */
module LocalVariableMutator {
  import opened Bytecode
  import opened Strings

  /** The words put in the description of store and increment mutations. The
      source also declares "initialization", which no description uses. */
  const ASSIGNMENT := "assignment"
  const INCREMENT := "increment"

  /** The type name used in a description; empty for every opcode that is not a store. */
  function GetStoreType(op: Opcode): (r: string)
    ensures r != "" <==> IsStore(op)
  {
    match op
    case ISTORE => "Integer"
    case FSTORE => "Float"
    case DSTORE => "Double"
    case LSTORE => "Long"
    case ASTORE => "Reference"
    case _ => ""
  }

  /** The description registered with a mutation point. */
  function Description(kind: string, op: Opcode, slot: int): string {
    "Removed " + kind + " on local " + GetStoreType(op) + " variable " + IntToString(slot)
  }

  /** What an active initializing store becomes: drop the value, push the
      type's zero and store that. */
  function DeclarationReplacement(op: Opcode, slot: int): seq<Event> {
    var reset :=
      match op
      case ISTORE => [Insn(POP), Insn(ICONST_0)]
      case FSTORE => [Insn(POP), Insn(FCONST_0)]
      case ASTORE => [Insn(POP), Insn(ACONST_NULL)]
      case DSTORE => [Insn(POP2), Insn(DCONST_0)]
      case LSTORE => [Insn(POP2), Insn(LCONST_0)]
      case _ => [];
    reset + [VarInsn(op, slot)]
  }

  /** What an active re-assigning store becomes: only the value is dropped. */
  function AssignmentReplacement(op: Opcode): seq<Event> {
    if op == ISTORE || op == FSTORE || op == ASTORE then [Insn(POP)] else [Insn(POP2)]
  }

  /** The scope stack: one set of slots per open region, innermost last. */
  type Scopes = seq<set<int>>

  function Top(scopes: Scopes): set<int>
    requires scopes != []
  {
    scopes[|scopes| - 1]
  }

  /** A store initializes its slot when no region is open or the innermost
      region has not seen the slot yet. */
  predicate IsInitialization(scopes: Scopes, slot: int) {
    scopes == [] || slot !in Top(scopes)
  }

  /** The scopes after a store records `slot` in the innermost region. */
  function AfterStore(scopes: Scopes, slot: int): Scopes {
    if scopes == [] then [] else scopes[..|scopes| - 1] + [Top(scopes) + {slot}]
  }

  /** The scopes after a jump: any jump but GOTO opens a region that starts
      with what the innermost region knows. */
  function AfterJump(scopes: Scopes, op: Opcode): Scopes {
    if op == GOTO then scopes
    else scopes + [if scopes == [] then {} else Top(scopes)]
  }

  /** The scopes after a frame with `localCount` local entries: the innermost
      region is closed, and when none is left and the frame has locals, one
      empty region is opened. */
  function AfterFrame(scopes: Scopes, localCount: nat): Scopes {
    if scopes == [] then []
    else
      var rest := scopes[..|scopes| - 1];
      if rest == [] && localCount > 0 then [{}] else rest
  }

  /** Everything the visitor has built: the scope stack, the events passed to
      the delegate, and the descriptions registered so far (the identifier of
      a mutation point is its index in `log`). */
  datatype VisitorState = VisitorState(scopes: Scopes, out: seq<Event>, log: seq<string>)

  function Initial(): VisitorState {
    VisitorState([{}], [], [])
  }

  /** One callback. `active` is the oracle: the identifiers it activates. */
  function Step(active: set<nat>, s: VisitorState, e: Event): VisitorState {
    match e
    case Code => s
    case VarInsn(op, slot) =>
      if GetStoreType(op) == "" then s.(out := s.out + [e])
      else
        var emitted :=
          if |s.log| !in active then [e]
          else if IsInitialization(s.scopes, slot) then DeclarationReplacement(op, slot)
          else AssignmentReplacement(op);
        VisitorState(AfterStore(s.scopes, slot), s.out + emitted,
                     s.log + [Description(ASSIGNMENT, op, slot)])
    case IincInsn(slot, _) =>
      VisitorState(s.scopes, s.out + (if |s.log| in active then [] else [e]),
                   s.log + [Description(INCREMENT, IINC, slot)])
    case JumpInsn(op, _) => VisitorState(AfterJump(s.scopes, op), s.out + [e], s.log)
    case Frame(_, _, local, _, _) => VisitorState(AfterFrame(s.scopes, |local|), s.out + [e], s.log)
    case _ => s.(out := s.out + [e])
  }

  /** The callbacks `es`, one after the other. */
  function Run(active: set<nat>, s: VisitorState, es: seq<Event>): VisitorState
    decreases |es|
  {
    if es == [] then s else Run(active, Step(active, s, es[0]), es[1..])
  }

  /** The visitor. `out` collects what reaches the delegate visitor, `log` the
      descriptions registered with the mutation context, and `active` is the
      context's answer to "should this mutation identifier be applied?". */
  class LocalVariableVisitor {
    var localsInScope: Scopes
    var out: seq<Event>
    var log: seq<string>
    const active: set<nat>

    function State(): VisitorState
      reads this
    {
      VisitorState(localsInScope, out, log)
    }

    constructor (active: set<nat>)
      ensures State() == Initial()
      ensures this.active == active
    {
      this.active := active;
      localsInScope := [{}];
      out := [];
      log := [];
    }

    /** `visitCode` is not passed on to the delegate. */
    method VisitCode()
      ensures State() == Step(active, old(State()), Code)
    {
    }

    method VisitVarInsn(op: Opcode, slot: int)
      modifies this
      ensures State() == Step(active, old(State()), VarInsn(op, slot))
    {
      if GetStoreType(op) != "" {
        var isInitialization := localsInScope == [] || slot !in localsInScope[|localsInScope| - 1];
        if localsInScope != [] {
          var n := |localsInScope|;
          localsInScope := localsInScope[..n - 1] + [localsInScope[n - 1] + {slot}];
        }
        var mutate := ShouldMutate(slot, op, ASSIGNMENT);
        if mutate {
          if isInitialization {
            MutateDeclaration(op, slot);
          } else {
            MutateAssignment(op);
          }
          return;
        }
      }
      out := out + [VarInsn(op, slot)];
    }

    method VisitIincInsn(slot: int, increment: int)
      modifies this
      ensures State() == Step(active, old(State()), IincInsn(slot, increment))
    {
      var mutate := ShouldMutate(slot, IINC, INCREMENT);
      if !mutate {
        out := out + [IincInsn(slot, increment)];
      }
    }

    method VisitFrame(frameType: int, nLocal: int, local: seq<FrameItem>, nStack: int, stack: seq<FrameItem>)
      modifies this
      ensures State() == Step(active, old(State()), Frame(frameType, nLocal, local, nStack, stack))
    {
      out := out + [Frame(frameType, nLocal, local, nStack, stack)];
      if localsInScope != [] {
        localsInScope := localsInScope[..|localsInScope| - 1];
        ghost var rest := localsInScope;
        for i := 0 to |local|
          invariant localsInScope == if i > 0 && rest == [] then [{}] else rest
          invariant out == old(out) + [Frame(frameType, nLocal, local, nStack, stack)]
          invariant log == old(log)
        {
          if localsInScope == [] {
            localsInScope := localsInScope + [{}];
          }
        }
      }
    }

    method VisitJumpInsn(op: Opcode, target: Label)
      modifies this
      ensures State() == Step(active, old(State()), JumpInsn(op, target))
    {
      out := out + [JumpInsn(op, target)];
      if op != GOTO {
        var newScope: set<int> := {};
        if localsInScope != [] {
          newScope := newScope + localsInScope[|localsInScope| - 1];
          assert newScope == Top(localsInScope);
        }
        localsInScope := localsInScope + [newScope];
      }
    }

    /** Any callback, dispatched as ASM's class reader does; the callbacks the
        rewriter does not override reach the delegate unchanged. */
    method Accept(e: Event)
      modifies this
      ensures State() == Step(active, old(State()), e)
    {
      match e
      case Code => VisitCode();
      case VarInsn(op, slot) => VisitVarInsn(op, slot);
      case IincInsn(slot, increment) => VisitIincInsn(slot, increment);
      case Frame(frameType, nLocal, local, nStack, stack) => VisitFrame(frameType, nLocal, local, nStack, stack);
      case JumpInsn(op, target) => VisitJumpInsn(op, target);
      case _ => out := out + [e];
    }

    method MutateDeclaration(op: Opcode, slot: int)
      modifies this`out
      ensures out == old(out) + DeclarationReplacement(op, slot)
    {
      match op {
        case ISTORE => out := out + [Insn(POP), Insn(ICONST_0)];
        case FSTORE => out := out + [Insn(POP), Insn(FCONST_0)];
        case ASTORE => out := out + [Insn(POP), Insn(ACONST_NULL)];
        case DSTORE => out := out + [Insn(POP2), Insn(DCONST_0)];
        case LSTORE => out := out + [Insn(POP2), Insn(LCONST_0)];
        case _ =>
      }
      // The value on top of the stack is now the zero; store it as usual.
      out := out + [VarInsn(op, slot)];
    }

    method MutateAssignment(op: Opcode)
      modifies this`out
      ensures out == old(out) + AssignmentReplacement(op)
    {
      if op == ISTORE || op == FSTORE || op == ASTORE {
        out := out + [Insn(POP)];
      } else {
        out := out + [Insn(POP2)];
      }
    }

    /** Registers the mutation point and asks the oracle about its identifier. */
    method ShouldMutate(slot: int, op: Opcode, kind: string) returns (mutate: bool)
      modifies this`log
      ensures log == old(log) + [Description(kind, op, slot)]
      ensures mutate <==> |old(log)| in active
    {
      var description := "Removed " + kind + " on local " + GetStoreType(op) + " variable " + IntToString(slot);
      var mutationId := |log|;
      log := log + [description];
      mutate := mutationId in active;
    }
  }
}
