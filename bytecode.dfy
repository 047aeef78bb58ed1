/** The vocabulary of JVM instruction events that an ASM method visitor receives
    and forwards: opcodes, events, the five storage types and the net effect of
    an instruction on the operand stack, counted in 32-bit words. */
module Bytecode {
  import opened Wrappers

  /** The opcodes the local-variable rewriter looks at or emits, by their JVM
      mnemonics; every other opcode is `OtherOpcode` with its numeric code.
      An opcode listed here by name is always written by that name, never as
      `OtherOpcode` of its code: the model does not read numeric codes. */
  datatype Opcode =
    | ACONST_NULL | ICONST_0 | LCONST_0 | FCONST_0 | DCONST_0
    | BIPUSH | SIPUSH
    | ILOAD | LLOAD | FLOAD | DLOAD | ALOAD
    | ISTORE | LSTORE | FSTORE | DSTORE | ASTORE
    | POP | POP2
    | IINC
    | IFEQ | IFNE | IFLT | IFGE | IFGT | IFLE
    | IF_ICMPEQ | IF_ICMPNE | IF_ICMPLT | IF_ICMPGE | IF_ICMPGT | IF_ICMPLE
    | IF_ACMPEQ | IF_ACMPNE
    | GOTO | JSR | RET
    | IFNULL | IFNONNULL
    | OtherOpcode(code: int)

  /** A jump target: ASM's `Label` objects, seen only by identity. */
  type Label = nat

  /** One entry of a stack-map frame's local or stack array, kept opaque. */
  type FrameItem = int

  /** One callback of ASM's `MethodVisitor`, in the order the class reader
      makes them. `Other` stands for every callback the rewriter does not
      override (labels, field and method instructions, line numbers, ...). */
  datatype Event =
    | Code
    | Insn(op: Opcode)
    | IntInsn(op: Opcode, operand: int)
    | VarInsn(op: Opcode, slot: int)
    | IincInsn(slot: int, increment: int)
    | JumpInsn(op: Opcode, target: Label)
    | Frame(frameType: int, nLocal: int, local: seq<FrameItem>, nStack: int, stack: seq<FrameItem>)
    | Other(id: nat)

  /** The JVM's computational types of a local slot. */
  datatype StoreType = Integer | Float | Double | Long | Reference

  /** Long and double values take two words of the operand stack; the others one. */
  function Width(t: StoreType): (w: nat)
    ensures w == 1 || w == 2
    ensures w == 2 <==> t in {Double, Long}
  {
    match t
    case Double => 2
    case Long => 2
    case _ => 1
  }

  /** The type of value a store opcode takes from the operand stack. */
  function StoredType(op: Opcode): Option<StoreType> {
    match op
    case ISTORE => Some(Integer)
    case FSTORE => Some(Float)
    case DSTORE => Some(Double)
    case LSTORE => Some(Long)
    case ASTORE => Some(Reference)
    case _ => None
  }

  predicate IsStore(op: Opcode) {
    StoredType(op).Some?
  }

  /** The type of value a load opcode pushes onto the operand stack. */
  function LoadedType(op: Opcode): Option<StoreType> {
    match op
    case ILOAD => Some(Integer)
    case FLOAD => Some(Float)
    case DLOAD => Some(Double)
    case LLOAD => Some(Long)
    case ALOAD => Some(Reference)
    case _ => None
  }

  /** The type a zero-constant opcode pushes. */
  function PushedZero(op: Opcode): Option<StoreType> {
    match op
    case ICONST_0 => Some(Integer)
    case FCONST_0 => Some(Float)
    case DCONST_0 => Some(Double)
    case LCONST_0 => Some(Long)
    case ACONST_NULL => Some(Reference)
    case _ => None
  }

  /** The opcode that pushes the zero value of `t` (0, 0.0f, 0.0d, 0L, null). */
  function ZeroConstant(t: StoreType): (op: Opcode)
    ensures PushedZero(op) == Some(t)
  {
    match t
    case Integer => ICONST_0
    case Float => FCONST_0
    case Double => DCONST_0
    case Long => LCONST_0
    case Reference => ACONST_NULL
  }

  /** The events whose effect on the operand-stack depth is fixed by the JVM
      specification and modelled here. */
  predicate HasWordDelta(e: Event) {
    match e
    case Insn(op) => op == POP || op == POP2 || PushedZero(op).Some?
    case IntInsn(op, _) => op == BIPUSH || op == SIPUSH
    case VarInsn(op, _) => StoredType(op).Some? || LoadedType(op).Some?
    case IincInsn(_, _) => true
    case _ => false
  }

  /** Net change of the operand-stack depth, in words, caused by `e`. */
  function WordDelta(e: Event): int
    requires HasWordDelta(e)
  {
    match e
    case Insn(op) =>
      if op == POP then -1 else if op == POP2 then -2 else Width(PushedZero(op).value)
    case IntInsn(_, _) => 1
    case VarInsn(op, _) =>
      if StoredType(op).Some? then 0 - Width(StoredType(op).value) else Width(LoadedType(op).value)
    case IincInsn(_, _) => 0
  }

  predicate AllHaveWordDelta(es: seq<Event>) {
    forall i :: 0 <= i < |es| ==> HasWordDelta(es[i])
  }

  /** Net change of the operand-stack depth caused by running `es` in order. */
  function SumWordDelta(es: seq<Event>): int
    requires AllHaveWordDelta(es)
  {
    if es == [] then 0 else WordDelta(es[0]) + SumWordDelta(es[1..])
  }
}
