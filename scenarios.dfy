/** The rewriter on concrete method bodies. `HasNoLocals`, `LocalInteger` and
    `SecondAssignment` are methods of the mutator's tests; `Increment` and
    `SiblingScopes` are further examples that no test of the mutator covers.
    Each is in the shape javac compiles it to, with two exceptions:
    - Every int constant is pushed with BIPUSH. javac uses ICONST_1 and
      ICONST_2 for 1 and 2; both forms push the same int and reach the
      delegate unchanged.
    - `LocalInteger`, `SecondAssignment` and `Increment` stop at the load of
      `a`, leaving out the boxing call `Integer.valueOf` and the `areturn`.
      The value left on top of the operand stack stands for what the method
      returns.
    Slot 0 holds `this`. The outputs of those three bodies are evaluated by
    `ExecAll`. For `HasNoLocals` and `SiblingScopes`, the registrations and
    the scope stack are stated instead. Each evaluated scenario is proved in
    steps: the events the rewriter passes on, then what they compute. */
module Scenarios {
  import opened Wrappers
  import opened Bytecode
  import opened Interpreter
  import opened LocalVariableMutator
  import opened MutatorProperties
  import opened RunProperties
  import Strings

  const IRETURN := OtherOpcode(172)
  const ARETURN := OtherOpcode(176)

  /** The locals at method entry: only `this`, in slot 0. */
  function EntryLocals(): map<int, Value> {
    map[0 := Value(Reference, 1)]
  }

  function Int(n: int): Value {
    Value(Integer, n)
  }

  /** A store's effect on the scope stack, with the new innermost region given. */
  lemma StoreInto(scopes: Scopes, slot: int, top: set<int>)
    requires scopes != [] && top == Top(scopes) + {slot}
    ensures AfterStore(scopes, slot) == scopes[..|scopes| - 1] + [top]
  {
  }

  /** `return 10;` (boxing through a method call, `Other(0)`): no mutation point. */
  lemma HasNoLocals(active: set<nat>)
    ensures Run(active, Initial(), [Code, IntInsn(BIPUSH, 10), Other(0), Insn(ARETURN)]).log == []
  {
    var body := [Code, IntInsn(BIPUSH, 10), Other(0), Insn(ARETURN)];
    forall i | 0 <= i < |body| ensures !IsMutationPoint(body[i]) {
    }
    NoStoresNoMutants(active, body);
  }

  // ---------------------------------------------------------------------
  // int a = 1; return a;
  // ---------------------------------------------------------------------

  /** `int a = 1; return a;` up to the load of `a`. */
  function LocalInteger(): seq<Event> {
    [Code, IntInsn(BIPUSH, 1), VarInsn(ISTORE, 1), VarInsn(ILOAD, 1)]
  }

  /** Its only mutant drops the 1 and stores the zero constant in its place. */
  lemma LocalIntegerMutant()
    ensures Run({0}, Initial(), LocalInteger()).out
         == [IntInsn(BIPUSH, 1), Insn(POP), Insn(ICONST_0), VarInsn(ISTORE, 1), VarInsn(ILOAD, 1)]
  {
    var b := LocalInteger();
    var d := Description(ASSIGNMENT, ISTORE, 1);
    var o := [IntInsn(BIPUSH, 1), Insn(POP), Insn(ICONST_0), VarInsn(ISTORE, 1), VarInsn(ILOAD, 1)];
    StoreInto([{}], 1, {1});
    var states := [Initial(), Initial(),
                   VisitorState([{}], o[..1], []),
                   VisitorState([{1}], o[..4], [d]),
                   VisitorState([{1}], o, [d])];
    // One branch per index, so that each step is checked on its own.
    forall i | 0 <= i < |b| ensures states[i + 1] == Step({0}, states[i], b[i]) {
      if i == 0 {
      } else if i == 1 {
      } else if i == 2 {
      } else {
      }
    }
    RunTrace({0}, states, b);
  }

  lemma ZeroedStoreRuns(l: map<int, Value>)
    ensures ExecAll([IntInsn(BIPUSH, 1), Insn(POP), Insn(ICONST_0), VarInsn(ISTORE, 1), VarInsn(ILOAD, 1)],
                    Machine([], l))
         == Some(Machine([Int(0)], l[1 := Int(0)]))
  {
    var l0 := l[1 := Int(0)];
    ExecLoadOnly(ILOAD, 1, l0);
    ExecCons(VarInsn(ILOAD, 1), [], Machine([], l0), Machine([Int(0)], l0));
    ExecStoreOnly(ISTORE, 1, Int(0), l);
    ExecCons(VarInsn(ISTORE, 1), [VarInsn(ILOAD, 1)], Machine([Int(0)], l), Machine([], l0));
    ExecPushZero(ICONST_0, Integer, l);
    ExecCons(Insn(ICONST_0), [VarInsn(ISTORE, 1), VarInsn(ILOAD, 1)], Machine([], l), Machine([Int(0)], l));
    ExecPopOnly(Int(1), l);
    ExecCons(Insn(POP), [Insn(ICONST_0), VarInsn(ISTORE, 1), VarInsn(ILOAD, 1)],
             Machine([Int(1)], l), Machine([], l));
    ExecPushInt(1, l);
    ExecCons(IntInsn(BIPUSH, 1), [Insn(POP), Insn(ICONST_0), VarInsn(ISTORE, 1), VarInsn(ILOAD, 1)],
             Machine([], l), Machine([Int(1)], l));
  }

  /** So the mutant returns 0 (false, '\u0000' and (byte) 0 are the same int 0). */
  lemma LocalIntegerMutantReturnsZero()
    ensures ExecAll(Run({0}, Initial(), LocalInteger()).out, Machine([], EntryLocals()))
         == Some(Machine([Int(0)], EntryLocals()[1 := Int(0)]))
  {
    LocalIntegerMutant();
    ZeroedStoreRuns(EntryLocals());
  }

  // ---------------------------------------------------------------------
  // int a = 1; a = 10; return a;
  // ---------------------------------------------------------------------

  /** `int a = 1; a = 10; return a;` up to the load of `a`. */
  function SecondAssignment(): seq<Event> {
    [Code, IntInsn(BIPUSH, 1), VarInsn(ISTORE, 1), IntInsn(BIPUSH, 10), VarInsn(ISTORE, 1), VarInsn(ILOAD, 1)]
  }

  lemma StoreDescriptionOfSlot1()
    ensures RegistrationOf(VarInsn(ISTORE, 1)) == ["Removed assignment on local Integer variable 1"]
  {
    assert Strings.IntToString(1) == "1";
    assert TypeName(StoredType(ISTORE).value) == "Integer";
    assert "Removed assignment on local " + "Integer" + " variable " + "1"
        == "Removed assignment on local Integer variable 1";
  }

  lemma SecondAssignmentRegistrations()
    ensures Registrations(SecondAssignment())
         == ["Removed assignment on local Integer variable 1", "Removed assignment on local Integer variable 1"]
  {
    var d := "Removed assignment on local Integer variable 1";
    var body := SecondAssignment();
    StoreDescriptionOfSlot1();
    assert Registrations(body[5..]) == [] by {
      assert body[5..][1..] == [];
    }
    assert Registrations(body[4..]) == [d];
    assert Registrations(body[3..]) == [d];
    assert Registrations(body[2..]) == [d, d];
    assert Registrations(body[1..]) == [d, d];
  }

  /** Two mutation points with the same description, in order. */
  lemma SecondAssignmentLog(active: set<nat>)
    ensures Run(active, Initial(), SecondAssignment()).log
         == ["Removed assignment on local Integer variable 1", "Removed assignment on local Integer variable 1"]
  {
    SecondAssignmentRegistrations();
    RunLog(active, Initial(), SecondAssignment());
  }

  /** The first store is an initialization and the second an assignment:
      activating the second drops the value 10 and stores nothing. */
  lemma SecondAssignmentMutant()
    ensures Run({1}, Initial(), SecondAssignment()).out
         == [IntInsn(BIPUSH, 1), VarInsn(ISTORE, 1), IntInsn(BIPUSH, 10), Insn(POP), VarInsn(ILOAD, 1)]
  {
    var b := SecondAssignment();
    var d := Description(ASSIGNMENT, ISTORE, 1);
    var o := [IntInsn(BIPUSH, 1), VarInsn(ISTORE, 1), IntInsn(BIPUSH, 10), Insn(POP), VarInsn(ILOAD, 1)];
    StoreInto([{}], 1, {1});
    StoreInto([{1}], 1, {1});
    var states := [Initial(), Initial(),
                   VisitorState([{}], o[..1], []),
                   VisitorState([{1}], o[..2], [d]),
                   VisitorState([{1}], o[..3], [d]),
                   VisitorState([{1}], o[..4], [d, d]),
                   VisitorState([{1}], o, [d, d])];
    forall i | 0 <= i < |b| ensures states[i + 1] == Step({1}, states[i], b[i]) {
      if i == 0 {
      } else if i == 1 {
      } else if i == 2 {
      } else if i == 3 {
      } else if i == 4 {
      } else {
      }
    }
    RunTrace({1}, states, b);
  }

  lemma SkippedAssignmentRuns(l: map<int, Value>)
    ensures ExecAll([IntInsn(BIPUSH, 1), VarInsn(ISTORE, 1), IntInsn(BIPUSH, 10), Insn(POP), VarInsn(ILOAD, 1)],
                    Machine([], l))
         == Some(Machine([Int(1)], l[1 := Int(1)]))
  {
    var l1 := l[1 := Int(1)];
    ExecLoadOnly(ILOAD, 1, l1);
    ExecCons(VarInsn(ILOAD, 1), [], Machine([], l1), Machine([Int(1)], l1));
    ExecPopOnly(Int(10), l1);
    ExecCons(Insn(POP), [VarInsn(ILOAD, 1)], Machine([Int(10)], l1), Machine([], l1));
    ExecPushInt(10, l1);
    ExecCons(IntInsn(BIPUSH, 10), [Insn(POP), VarInsn(ILOAD, 1)], Machine([], l1), Machine([Int(10)], l1));
    ExecStoreOnly(ISTORE, 1, Int(1), l);
    ExecCons(VarInsn(ISTORE, 1), [IntInsn(BIPUSH, 10), Insn(POP), VarInsn(ILOAD, 1)],
             Machine([Int(1)], l), Machine([], l1));
    ExecPushInt(1, l);
    ExecCons(IntInsn(BIPUSH, 1), [VarInsn(ISTORE, 1), IntInsn(BIPUSH, 10), Insn(POP), VarInsn(ILOAD, 1)],
             Machine([], l), Machine([Int(1)], l));
  }

  /** So the slot keeps its first value and the mutant returns 1. */
  lemma SecondAssignmentMutantReturnsOne()
    ensures ExecAll(Run({1}, Initial(), SecondAssignment()).out, Machine([], EntryLocals()))
         == Some(Machine([Int(1)], EntryLocals()[1 := Int(1)]))
  {
    SecondAssignmentMutant();
    SkippedAssignmentRuns(EntryLocals());
  }

  // ---------------------------------------------------------------------
  // int a = 11; a++; return a;
  // ---------------------------------------------------------------------

  /** `int a = 11; a++; return a;` up to the load of `a`. */
  function Increment(): seq<Event> {
    [Code, IntInsn(BIPUSH, 11), VarInsn(ISTORE, 1), IincInsn(1, 1), VarInsn(ILOAD, 1)]
  }

  /** Activating the increment (the second mutation point) removes it. */
  lemma IncrementMutant()
    ensures Run({1}, Initial(), Increment()).out
         == [IntInsn(BIPUSH, 11), VarInsn(ISTORE, 1), VarInsn(ILOAD, 1)]
  {
    var b := Increment();
    var d := Description(ASSIGNMENT, ISTORE, 1);
    var e := Description(INCREMENT, IINC, 1);
    var o := [IntInsn(BIPUSH, 11), VarInsn(ISTORE, 1), VarInsn(ILOAD, 1)];
    StoreInto([{}], 1, {1});
    var states := [Initial(), Initial(),
                   VisitorState([{}], o[..1], []),
                   VisitorState([{1}], o[..2], [d]),
                   VisitorState([{1}], o[..2], [d, e]),
                   VisitorState([{1}], o, [d, e])];
    forall i | 0 <= i < |b| ensures states[i + 1] == Step({1}, states[i], b[i]) {
      if i == 0 {
      } else if i == 1 {
      } else if i == 2 {
      } else if i == 3 {
      } else {
      }
    }
    RunTrace({1}, states, b);
  }

  lemma SkippedIncrementRuns(l: map<int, Value>)
    ensures ExecAll([IntInsn(BIPUSH, 11), VarInsn(ISTORE, 1), VarInsn(ILOAD, 1)], Machine([], l))
         == Some(Machine([Int(11)], l[1 := Int(11)]))
  {
    var l11 := l[1 := Int(11)];
    ExecLoadOnly(ILOAD, 1, l11);
    ExecCons(VarInsn(ILOAD, 1), [], Machine([], l11), Machine([Int(11)], l11));
    ExecStoreOnly(ISTORE, 1, Int(11), l);
    ExecCons(VarInsn(ISTORE, 1), [VarInsn(ILOAD, 1)], Machine([Int(11)], l), Machine([], l11));
    ExecPushInt(11, l);
    ExecCons(IntInsn(BIPUSH, 11), [VarInsn(ISTORE, 1), VarInsn(ILOAD, 1)], Machine([], l), Machine([Int(11)], l));
  }

  /** So the mutant returns 11 ... */
  lemma IncrementMutantReturnsEleven()
    ensures ExecAll(Run({1}, Initial(), Increment()).out, Machine([], EntryLocals()))
         == Some(Machine([Int(11)], EntryLocals()[1 := Int(11)]))
  {
    IncrementMutant();
    SkippedIncrementRuns(EntryLocals());
  }

  lemma IncrementRuns(l: map<int, Value>)
    ensures ExecAll([IntInsn(BIPUSH, 11), VarInsn(ISTORE, 1), IincInsn(1, 1), VarInsn(ILOAD, 1)], Machine([], l))
         == Some(Machine([Int(12)], l[1 := Int(12)]))
  {
    var l11, l12 := l[1 := Int(11)], l[1 := Int(12)];
    assert Wrap32(11 + 1) == 12;
    assert l11[1 := Int(12)] == l12;
    ExecLoadOnly(ILOAD, 1, l12);
    ExecCons(VarInsn(ILOAD, 1), [], Machine([], l12), Machine([Int(12)], l12));
    ExecIinc(1, 1, 11, [], l11);
    ExecCons(IincInsn(1, 1), [VarInsn(ILOAD, 1)], Machine([], l11), Machine([], l12));
    ExecStoreOnly(ISTORE, 1, Int(11), l);
    ExecCons(VarInsn(ISTORE, 1), [IincInsn(1, 1), VarInsn(ILOAD, 1)], Machine([Int(11)], l), Machine([], l11));
    ExecPushInt(11, l);
    ExecCons(IntInsn(BIPUSH, 11), [VarInsn(ISTORE, 1), IincInsn(1, 1), VarInsn(ILOAD, 1)],
             Machine([], l), Machine([Int(11)], l));
  }

  /** Nothing active: the body reaches the delegate as it came, less the visitCode. */
  lemma IncrementUnmutated()
    ensures Run({}, Initial(), Increment()).out
         == [IntInsn(BIPUSH, 11), VarInsn(ISTORE, 1), IincInsn(1, 1), VarInsn(ILOAD, 1)]
  {
    var b := Increment();
    InactiveIsIdentity({}, Initial(), b);
    assert Forwarded(b[4..]) == [VarInsn(ILOAD, 1)] by {
      assert b[4..][1..] == [];
    }
    assert Forwarded(b[3..]) == [IincInsn(1, 1), VarInsn(ILOAD, 1)];
    assert Forwarded(b[2..]) == [VarInsn(ISTORE, 1), IincInsn(1, 1), VarInsn(ILOAD, 1)];
    assert Forwarded(b[1..]) == [IntInsn(BIPUSH, 11), VarInsn(ISTORE, 1), IincInsn(1, 1), VarInsn(ILOAD, 1)];
  }

  /** ... where the unmutated method returns 12. */
  lemma IncrementUnmutatedReturnsTwelve()
    ensures ExecAll(Run({}, Initial(), Increment()).out, Machine([], EntryLocals()))
         == Some(Machine([Int(12)], EntryLocals()[1 := Int(12)]))
  {
    IncrementUnmutated();
    IncrementRuns(EntryLocals());
  }

  // ---------------------------------------------------------------------
  // Sibling scopes reusing a slot
  // ---------------------------------------------------------------------

  /** `if (c) { int b = 1; return b; } else { int a = 1; a = 2; return a; }`
      with `c` in slot 1; javac gives `b` and `a` the same slot, 2. */
  function SiblingScopes(): seq<Event> {
    [Code, VarInsn(ILOAD, 1), JumpInsn(IFEQ, 0),
     IntInsn(BIPUSH, 1), VarInsn(ISTORE, 2), VarInsn(ILOAD, 2), Insn(IRETURN),
     Other(0), Frame(-1, 2, [0, 1], 0, []),
     IntInsn(BIPUSH, 1), VarInsn(ISTORE, 2), IntInsn(BIPUSH, 2), VarInsn(ISTORE, 2),
     VarInsn(ILOAD, 2), Insn(IRETURN)]
  }

  /** The scope stack before each of the first thirteen callbacks. */
  function SiblingScopesTrace(): seq<Scopes> {
    [[{}], [{}], [{}], [{}, {}], [{}, {}], [{}, {2}], [{}, {2}], [{}, {2}], [{}, {2}],
     [{}], [{}], [{2}], [{2}]]
  }

  /** The trace through the then-branch: the jump opens a region, the store fills it. */
  lemma SiblingScopesThen()
    ensures forall i :: 0 <= i < 6 ==>
      SiblingScopesTrace()[i + 1] == Track(SiblingScopesTrace()[i], SiblingScopes()[i])
  {
    var b := SiblingScopes();
    var sc := SiblingScopesTrace();
    assert AfterJump([{}], IFEQ) == [{}, {}];
    StoreInto([{}, {}], 2, {2});
    // One branch per index, so that each step is checked on its own.
    forall i | 0 <= i < 6 ensures sc[i + 1] == Track(sc[i], b[i]) {
      if i == 0 {
      } else if i == 1 {
      } else if i == 2 {
      } else if i == 3 {
      } else if i == 4 {
      } else {
      }
    }
  }

  /** The trace through the else-branch: the frame closes the region. */
  lemma SiblingScopesElse()
    ensures forall i :: 6 <= i < 12 ==>
      SiblingScopesTrace()[i + 1] == Track(SiblingScopesTrace()[i], SiblingScopes()[i])
  {
    var b := SiblingScopes();
    var sc := SiblingScopesTrace();
    assert AfterFrame([{}, {2}], 2) == [{}];
    StoreInto([{}], 2, {2});
    StoreInto([{2}], 2, {2});
    // One branch per index, so that each step is checked on its own.
    forall i | 6 <= i < 12 ensures sc[i + 1] == Track(sc[i], b[i]) {
      if i == 6 {
      } else if i == 7 {
      } else if i == 8 {
      } else if i == 9 {
      } else if i == 10 {
      } else {
      }
    }
  }

  /** After the first `k` callbacks the visitor's scopes are those of the trace. */
  lemma SiblingScopesAfter(active: set<nat>, k: nat)
    requires k <= 12
    ensures Run(active, Initial(), SiblingScopes()[..k]).scopes == SiblingScopesTrace()[k]
  {
    var b := SiblingScopes();
    var sc := SiblingScopesTrace();
    SiblingScopesThen();
    SiblingScopesElse();
    TrackPrefix(b, sc, k);
    RunScopes(active, Initial(), b[..k]);
  }

  /** The store of `b` (index 4) is an initialization in the region the
      conditional jump opened; the frame at the else branch closes that
      region, so the store of `a` to the same slot (index 10) is an
      initialization again, and the next store (index 12) an assignment. */
  lemma SiblingScopesClassification(active: set<nat>)
    ensures IsInitialization(Run(active, Initial(), SiblingScopes()[..4]).scopes, 2)
    ensures IsInitialization(Run(active, Initial(), SiblingScopes()[..10]).scopes, 2)
    ensures !IsInitialization(Run(active, Initial(), SiblingScopes()[..12]).scopes, 2)
  {
    SiblingScopesAfter(active, 4);
    SiblingScopesAfter(active, 10);
    SiblingScopesAfter(active, 12);
  }

  /** The scopes after a prefix of `es`, given the scopes after each step. */
  lemma {:induction false} TrackPrefix(es: seq<Event>, sc: seq<Scopes>, k: nat)
    requires k < |sc| && k <= |es|
    requires forall i :: 0 <= i < k ==> sc[i + 1] == Track(sc[i], es[i])
    ensures TrackAll(sc[0], es[..k]) == sc[k]
    decreases k
  {
    if k > 0 {
      TrackPrefix(es, sc, k - 1);
      TrackSnoc(sc[0], es[..k - 1], es[k - 1]);
      assert es[..k] == es[..k - 1] + [es[k - 1]];
    }
  }

  lemma {:induction false} TrackSnoc(scopes: Scopes, es: seq<Event>, e: Event)
    ensures TrackAll(scopes, es + [e]) == Track(TrackAll(scopes, es), e)
    decreases |es|
  {
    if es != [] {
      assert (es + [e])[1..] == es[1..] + [e];
      TrackSnoc(Track(scopes, es[0]), es[1..], e);
    } else {
      assert ([e])[1..] == [];
    }
  }
}
