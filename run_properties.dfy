/** Properties of a whole method body: `Run` over any sequence of callbacks. */
module RunProperties {
  import opened Bytecode
  import opened LocalVariableMutator
  import opened MutatorProperties

  // ---------------------------------------------------------------------
  // Single steps, as needed by the inductions below
  // ---------------------------------------------------------------------

  /** Each callback registers exactly the descriptions `RegistrationOf` lists. */
  lemma StepLog(active: set<nat>, s: VisitorState, e: Event)
    ensures Step(active, s, e).log == s.log + RegistrationOf(e)
  {
    match e
    case VarInsn(op, slot) =>
      if IsStore(op) { StoreDescription(op, slot); }
    case IincInsn(slot, _) => IncrementDescription(slot);
    case _ =>
  }

  /** The scope stack and the log after a callback depend on the scope stack
      and the log before it, not on the oracle or on what was passed on. */
  lemma StepOracleFree(a1: set<nat>, a2: set<nat>, s1: VisitorState, s2: VisitorState, e: Event)
    requires s1.scopes == s2.scopes && s1.log == s2.log
    ensures Step(a1, s1, e).scopes == Step(a2, s2, e).scopes
    ensures Step(a1, s1, e).log == Step(a2, s2, e).log
  {
  }

  lemma StepNested(active: set<nat>, s: VisitorState, e: Event)
    requires Nested(s.scopes)
    ensures Nested(Step(active, s, e).scopes)
  {
    var t := Step(active, s, e).scopes;
    match e
    case VarInsn(op, slot) =>
      if IsStore(op) && s.scopes != [] {
        forall i, j | 0 <= i <= j < |t| ensures t[i] <= t[j] {
          assert s.scopes[i] <= s.scopes[j];
        }
      }
    case JumpInsn(op, _) =>
      if op != GOTO && s.scopes != [] {
        forall i, j | 0 <= i <= j < |t| ensures t[i] <= t[j] {
          if j < |s.scopes| {
            assert s.scopes[i] <= s.scopes[j];
          } else if i < |s.scopes| {
            assert s.scopes[i] <= s.scopes[|s.scopes| - 1];
          }
        }
      }
    case Frame(_, _, _, _, _) =>
      if |s.scopes| > 1 {
        forall i, j | 0 <= i <= j < |t| ensures t[i] <= t[j] {
          assert s.scopes[i] <= s.scopes[j];
        }
      }
    case _ =>
  }

  lemma StepWithin(active: set<nat>, s: VisitorState, e: Event, allowed: set<int>)
    requires Within(s.scopes, allowed)
    ensures Within(Step(active, s, e).scopes, allowed + StoredSlot(e))
  {
    var t := Step(active, s, e).scopes;
    forall i | 0 <= i < |t| ensures t[i] <= allowed + StoredSlot(e) {
      match e
      case VarInsn(op, slot) =>
        if IsStore(op) { assert i < |s.scopes|; }
      case JumpInsn(op, _) =>
        if op != GOTO && i == |s.scopes| && s.scopes != [] {
          assert t[i] == s.scopes[i - 1];
        }
      case _ =>
    }
  }

  /** Without frames, a callback keeps the outer regions, opens one region per
      conditional jump and records a store's slot in the innermost region. */
  lemma StepFrameFree(active: set<nat>, s: VisitorState, e: Event)
    requires s.scopes != [] && !e.Frame?
    ensures var t := Step(active, s, e).scopes;
      && |t| == |s.scopes| + Fork(e)
      && t[..|s.scopes| - 1] == s.scopes[..|s.scopes| - 1]
      && Top(t) == Top(s.scopes) + StoredSlot(e)
  {
    var t := Step(active, s, e).scopes;
    var n := |s.scopes|;
    match e
    case VarInsn(op, slot) =>
      if IsStore(op) { assert t[..n - 1] == s.scopes[..n - 1]; }
    case JumpInsn(op, _) =>
      if op != GOTO { assert t[..n - 1] == t[..n][..n - 1]; }
    case _ =>
  }

  // ---------------------------------------------------------------------
  // Whole runs
  // ---------------------------------------------------------------------

  lemma RunCons(active: set<nat>, s: VisitorState, es: seq<Event>)
    requires es != []
    ensures Run(active, s, es) == Run(active, Step(active, s, es[0]), es[1..])
  {
  }

  lemma RegistrationsCons(es: seq<Event>)
    requires es != []
    ensures Registrations(es) == RegistrationOf(es[0]) + Registrations(es[1..])
  {
  }

  lemma ForwardedCons(es: seq<Event>)
    requires es != []
    ensures Forwarded(es) == (if es[0].Code? then [] else [es[0]]) + Forwarded(es[1..])
  {
  }

  /** A run is the chain of its steps: if each state is the step of the one
      before, the run ends in the last state. */
  lemma {:induction false} RunTrace(active: set<nat>, states: seq<VisitorState>, es: seq<Event>)
    requires |states| == |es| + 1
    requires forall i :: 0 <= i < |es| ==> states[i + 1] == Step(active, states[i], es[i])
    ensures Run(active, states[0], es) == states[|es|]
    decreases |es|
  {
    if es != [] {
      RunCons(active, states[0], es);
      RunTrace(active, states[1..], es[1..]);
    }
  }

  /** What has been passed on and registered is never taken back. */
  lemma {:induction false} RunExtends(active: set<nat>, s: VisitorState, es: seq<Event>)
    ensures var t := Run(active, s, es);
      && |s.out| <= |t.out| && t.out[..|s.out|] == s.out
      && |s.log| <= |t.log| && t.log[..|s.log|] == s.log
    decreases |es|
  {
    if es != [] {
      var s' := Step(active, s, es[0]);
      StepLog(active, s, es[0]);
      RunExtends(active, s', es[1..]);
      var t := Run(active, s, es);
      assert t.out[..|s.out|] == t.out[..|s'.out|][..|s.out|];
      assert t.log[..|s.log|] == t.log[..|s'.log|][..|s.log|];
    }
  }

  /** One registration per store and per increment, in traversal order, with
      its description; nothing else registers. The identifier of the k-th
      mutation point of `es` is therefore |s.log| + k. */
  lemma {:induction false} RunLog(active: set<nat>, s: VisitorState, es: seq<Event>)
    ensures Run(active, s, es).log == s.log + Registrations(es)
    decreases |es|
  {
    if es != [] {
      var s' := Step(active, s, es[0]);
      var r0, rs := RegistrationOf(es[0]), Registrations(es[1..]);
      StepLog(active, s, es[0]);
      RunCons(active, s, es);
      RunLog(active, s', es[1..]);
      RegistrationsCons(es);
      assert s.log + r0 + rs == s.log + (r0 + rs);
    }
  }

  lemma {:induction false} NoPointsNoRegistrations(es: seq<Event>)
    requires forall i :: 0 <= i < |es| ==> !IsMutationPoint(es[i])
    ensures Registrations(es) == []
    decreases |es|
  {
    if es != [] {
      NoPointsNoRegistrations(es[1..]);
      assert !IsMutationPoint(es[0]);
    }
  }

  /** A method body with no store and no increment registers no mutation point. */
  lemma NoStoresNoMutants(active: set<nat>, es: seq<Event>)
    requires forall i :: 0 <= i < |es| ==> !IsMutationPoint(es[i])
    ensures Run(active, Initial(), es).log == []
  {
    RunLog(active, Initial(), es);
    NoPointsNoRegistrations(es);
  }

  /** The scope tracker on its own: the scope stack is a function of the
      callbacks alone. */
  lemma {:induction false} RunScopes(active: set<nat>, s: VisitorState, es: seq<Event>)
    ensures Run(active, s, es).scopes == TrackAll(s.scopes, es)
    decreases |es|
  {
    if es != [] {
      assert Step(active, s, es[0]).scopes == Track(s.scopes, es[0]);
      RunCons(active, s, es);
      RunScopes(active, Step(active, s, es[0]), es[1..]);
    }
  }

  /** The scope stack and the registrations do not depend on the oracle: it
      only selects what is passed on. */
  lemma {:induction false} OracleIndependence(a1: set<nat>, a2: set<nat>, s1: VisitorState, s2: VisitorState, es: seq<Event>)
    requires s1.scopes == s2.scopes && s1.log == s2.log
    ensures Run(a1, s1, es).scopes == Run(a2, s2, es).scopes
    ensures Run(a1, s1, es).log == Run(a2, s2, es).log
    decreases |es|
  {
    if es != [] {
      StepOracleFree(a1, a2, s1, s2, es[0]);
      OracleIndependence(a1, a2, Step(a1, s1, es[0]), Step(a2, s2, es[0]), es[1..]);
    }
  }

  /** With the current mutation point's identifier not active, a callback is forwarded as it is. */
  lemma StepInactive(active: set<nat>, s: VisitorState, e: Event)
    requires |s.log| !in active
    ensures Step(active, s, e).out == s.out + (if e.Code? then [] else [e])
  {
  }

  /** When the oracle activates no identifier still to be handed out, every
      callback but `visitCode` reaches the delegate unchanged and in order. */
  lemma {:induction false} InactiveIsIdentity(active: set<nat>, s: VisitorState, es: seq<Event>)
    requires forall id :: id in active ==> id < |s.log|
    ensures Run(active, s, es).out == s.out + Forwarded(es)
    decreases |es|
  {
    if es != [] {
      var s' := Step(active, s, es[0]);
      var f0, fs := (if es[0].Code? then [] else [es[0]]), Forwarded(es[1..]);
      StepInactive(active, s, es[0]);
      StepLog(active, s, es[0]);
      RunCons(active, s, es);
      InactiveIsIdentity(active, s', es[1..]);
      ForwardedCons(es);
      assert s.out + f0 + fs == s.out + (f0 + fs);
    }
  }

  /** Inner regions always know at least what the regions around them know. */
  lemma {:induction false} RunNested(active: set<nat>, s: VisitorState, es: seq<Event>)
    requires Nested(s.scopes)
    ensures Nested(Run(active, s, es).scopes)
    decreases |es|
  {
    if es != [] {
      StepNested(active, s, es[0]);
      RunNested(active, Step(active, s, es[0]), es[1..]);
    }
  }

  /** Regions hold only slots they held before or that a store of `es` wrote. */
  lemma {:induction false} RunWithin(active: set<nat>, s: VisitorState, es: seq<Event>, allowed: set<int>)
    requires Within(s.scopes, allowed)
    ensures Within(Run(active, s, es).scopes, allowed + StoredSlots(es))
    decreases |es|
  {
    if es != [] {
      StepWithin(active, s, es[0], allowed);
      RunWithin(active, Step(active, s, es[0]), es[1..], allowed + StoredSlot(es[0]));
      assert allowed + StoredSlot(es[0]) + StoredSlots(es[1..]) == allowed + StoredSlots(es);
    }
  }

  /** From the start of a method, the regions are nested and every slot in
      them was written by a store of the body so far. */
  lemma ScopesFromStart(active: set<nat>, es: seq<Event>)
    ensures Nested(Run(active, Initial(), es).scopes)
    ensures Within(Run(active, Initial(), es).scopes, StoredSlots(es))
  {
    RunNested(active, Initial(), es);
    RunWithin(active, Initial(), es, {});
    assert {} + StoredSlots(es) == StoredSlots(es);
  }

  /** Without frames: the outer regions stay as they were, the stack grows by
      one region per conditional jump, and the innermost region gains exactly
      the stored slots. */
  lemma {:induction false} RunFrameFree(active: set<nat>, s: VisitorState, es: seq<Event>)
    requires s.scopes != [] && NoFrames(es)
    ensures var t := Run(active, s, es).scopes;
      && |t| == |s.scopes| + Forks(es)
      && t[..|s.scopes| - 1] == s.scopes[..|s.scopes| - 1]
      && Top(t) == Top(s.scopes) + StoredSlots(es)
    decreases |es|
  {
    if es != [] {
      var s' := Step(active, s, es[0]);
      StepFrameFree(active, s, es[0]);
      assert NoFrames(es[1..]) by {
        forall i | 0 <= i < |es[1..]| ensures !es[1..][i].Frame? {
          assert es[1..][i] == es[i + 1];
        }
      }
      RunFrameFree(active, s', es[1..]);
      var t := Run(active, s, es).scopes;
      var n := |s.scopes|;
      assert t[..n - 1] == t[..|s'.scopes| - 1][..n - 1];
      assert s'.scopes[..|s'.scopes| - 1][..n - 1] == s'.scopes[..n - 1];
      assert Top(s.scopes) + StoredSlot(es[0]) + StoredSlots(es[1..]) == Top(s.scopes) + StoredSlots(es);
    }
  }

  /** The classification rule over a whole frame-free prefix of a method: a
      store is an initialization exactly when no earlier store wrote its slot. */
  lemma ClassificationByHistory(active: set<nat>, prefix: seq<Event>, slot: int)
    requires NoFrames(prefix)
    ensures IsInitialization(Run(active, Initial(), prefix).scopes, slot) <==> slot !in StoredSlots(prefix)
  {
    RunFrameFree(active, Initial(), prefix);
    assert Top(Initial().scopes) == {};
  }
}
