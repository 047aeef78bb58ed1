/** A small semantics of the JVM instructions that the rewriter passes on or
    emits: an operand stack of typed values and a map from slots to values.
    It is the reference against which the replacement sequences are judged. */
module Interpreter {
  import opened Wrappers
  import opened Bytecode

  /** A typed value. The payload of the zero of every type is 0: for Integer it is
      0, false, '\u0000' and (byte) 0 alike, for Float and Double it stands for
      0.0, for Long 0L, and for Reference the null reference. */
  datatype Value = Value(ty: StoreType, bits: int)

  function Zero(t: StoreType): Value {
    Value(t, 0)
  }

  /** The operand stack, top at the end, and the local slots of one activation. */
  datatype Machine = Machine(stack: seq<Value>, locals: map<int, Value>)

  /** Two's complement wrap-around to a 32-bit `int`, as `iinc` performs it. */
  function Wrap32(x: int): (r: int)
    ensures -0x8000_0000 <= r < 0x8000_0000
    ensures (r - x) % 0x1_0000_0000 == 0
  {
    (x + 0x8000_0000) % 0x1_0000_0000 - 0x8000_0000
  }

  function Push(m: Machine, v: Value): Machine {
    m.(stack := m.stack + [v])
  }

  lemma PushOnEmpty(m: Machine, v: Value)
    requires m.stack == []
    ensures Push(m, v) == Machine([v], m.locals)
  {
    assert m.stack + [v] == [v];
  }

  function Peek(m: Machine): Value
    requires m.stack != []
  {
    m.stack[|m.stack| - 1]
  }

  function Drop(m: Machine, n: nat): Machine
    requires n <= |m.stack|
  {
    m.(stack := m.stack[..|m.stack| - n])
  }

  /** The effect of one instruction, or None where the JVM's verifier would
      reject it (a type mismatch, too few values) or where it is not modelled. */
  function Exec(e: Event, m: Machine): Option<Machine> {
    match e
    case Insn(op) =>
      if op == POP then
        if |m.stack| > 0 && Width(Peek(m).ty) == 1 then Some(Drop(m, 1)) else None
      else if op == POP2 then
        if |m.stack| > 0 && Width(Peek(m).ty) == 2 then Some(Drop(m, 1))
        else if |m.stack| > 1 && Width(Peek(m).ty) == 1 && Width(m.stack[|m.stack| - 2].ty) == 1
        then Some(Drop(m, 2))
        else None
      else if PushedZero(op).Some? then Some(Push(m, Zero(PushedZero(op).value)))
      else None
    case IntInsn(op, operand) =>
      if op == BIPUSH || op == SIPUSH then Some(Push(m, Value(Integer, operand))) else None
    case VarInsn(op, slot) =>
      if StoredType(op).Some? then
        if |m.stack| > 0 && Peek(m).ty == StoredType(op).value
        then Some(Machine(Drop(m, 1).stack, m.locals[slot := Peek(m)]))
        else None
      else if LoadedType(op).Some? then
        if slot in m.locals && m.locals[slot].ty == LoadedType(op).value
        then Some(Push(m, m.locals[slot]))
        else None
      else None
    case IincInsn(slot, increment) =>
      if slot in m.locals && m.locals[slot].ty == Integer
      then Some(m.(locals := m.locals[slot := Value(Integer, Wrap32(m.locals[slot].bits + increment))]))
      else None
    case _ => None
  }

  /** Runs `es` from `m`, stopping at the first instruction that cannot run. */
  function ExecAll(es: seq<Event>, m: Machine): Option<Machine> {
    if es == [] then Some(m)
    else match Exec(es[0], m)
      case None => None
      case Some(m') => ExecAll(es[1..], m')
  }

  /** A store takes the top of the operand stack into the slot. */
  lemma ExecStore(op: Opcode, slot: int, m: Machine)
    requires StoredType(op).Some? && m.stack != [] && Peek(m).ty == StoredType(op).value
    ensures Exec(VarInsn(op, slot), m) == Some(Machine(Drop(m, 1).stack, m.locals[slot := Peek(m)]))
  {
  }

  /** A zero constant pushes the zero of its type. */
  lemma ExecZero(op: Opcode, t: StoreType, m: Machine)
    requires PushedZero(op) == Some(t)
    ensures Exec(Insn(op), m) == Some(Push(m, Zero(t)))
  {
  }

  /** Pushing an int constant onto an empty operand stack. */
  lemma ExecPushInt(n: int, l: map<int, Value>)
    ensures Exec(IntInsn(BIPUSH, n), Machine([], l)) == Some(Machine([Value(Integer, n)], l))
  {
    PushOnEmpty(Machine([], l), Value(Integer, n));
  }

  /** Pushing the zero of `t` onto an empty operand stack. */
  lemma ExecPushZero(op: Opcode, t: StoreType, l: map<int, Value>)
    requires PushedZero(op) == Some(t)
    ensures Exec(Insn(op), Machine([], l)) == Some(Machine([Zero(t)], l))
  {
    PushOnEmpty(Machine([], l), Zero(t));
  }

  /** Storing the only value on the operand stack. */
  lemma ExecStoreOnly(op: Opcode, slot: int, v: Value, l: map<int, Value>)
    requires StoredType(op) == Some(v.ty)
    ensures Exec(VarInsn(op, slot), Machine([v], l)) == Some(Machine([], l[slot := v]))
  {
  }

  /** Loading a local onto an empty operand stack. */
  lemma ExecLoadOnly(op: Opcode, slot: int, l: map<int, Value>)
    requires slot in l && LoadedType(op) == Some(l[slot].ty)
    ensures Exec(VarInsn(op, slot), Machine([], l)) == Some(Machine([l[slot]], l))
  {
    PushOnEmpty(Machine([], l), l[slot]);
  }

  /** Discarding the only, category-1, value on the operand stack. */
  lemma ExecPopOnly(v: Value, l: map<int, Value>)
    requires Width(v.ty) == 1
    ensures Exec(Insn(POP), Machine([v], l)) == Some(Machine([], l))
  {
  }

  /** Incrementing an int local, with 32-bit wrap-around. */
  lemma ExecIinc(slot: int, increment: int, n: int, st: seq<Value>, l: map<int, Value>)
    requires slot in l && l[slot] == Value(Integer, n)
    ensures Exec(IincInsn(slot, increment), Machine(st, l))
         == Some(Machine(st, l[slot := Value(Integer, Wrap32(n + increment))]))
  {
  }

  /** Running an instruction sequence is running its first instruction, then the rest. */
  lemma ExecCons(e: Event, es: seq<Event>, m: Machine, m': Machine)
    requires Exec(e, m) == Some(m')
    ensures ExecAll([e] + es, m) == ExecAll(es, m')
  {
    assert ([e] + es)[0] == e;
    assert ([e] + es)[1..] == es;
  }

  /** A three-instruction run, step by step. */
  lemma ExecThree(a: Event, b: Event, c: Event, m0: Machine, m1: Machine, m2: Machine, m3: Machine)
    requires Exec(a, m0) == Some(m1) && Exec(b, m1) == Some(m2) && Exec(c, m2) == Some(m3)
    ensures ExecAll([a, b, c], m0) == Some(m3)
  {
    ExecCons(c, [], m2, m3);
    assert [c] + [] == [c];
    ExecCons(b, [c], m1, m2);
    assert [b] + [c] == [b, c];
    ExecCons(a, [b, c], m0, m1);
    assert [a] + [b, c] == [a, b, c];
  }
}
