/** What one round does, stated over the functions of module Pipeline:
    when a candidate is deferred, what is recorded and reported, what the
    manifest loop writes, and when the maps are cleared. */
module RoundProperties {
  import opened Symbols
  import opened Validation
  import opened BinaryNames
  import opened Manifest
  import opened Aggregation
  import opened Options
  import opened Pipeline

  // ---- How the service loop ends ----

  /** How the service loop ends, computed from the candidate alone. */
  function Verdict(verify: bool, impl: Candidate, ts: seq<TypeRef>): (r: Next)
    decreases |ts|
  {
    if ts == [] then Continue
    else if Defers(verify, impl, ts[0]) then Defer
    else if Crashes(verify, impl, ts[0]) then Crash
    else Verdict(verify, impl, ts[1..])
  }

  /** The loop goes on to the end exactly when every type is ordinary; it
      defers only because of a type that defers, and throws only because of
      a type that crashes. */
  lemma {:induction false} VerdictMeaning(verify: bool, impl: Candidate, ts: seq<TypeRef>)
    ensures Verdict(verify, impl, ts) == Continue <==> forall j :: 0 <= j < |ts| ==> Ordinary(verify, impl, ts[j])
    ensures Verdict(verify, impl, ts) == Defer ==> exists j :: 0 <= j < |ts| && Defers(verify, impl, ts[j])
    ensures Verdict(verify, impl, ts) == Crash ==> exists j :: 0 <= j < |ts| && Crashes(verify, impl, ts[j])
    decreases |ts|
  {
    if ts != [] {
      VerdictMeaning(verify, impl, ts[1..]);
      assert forall j :: 1 <= j < |ts| ==> ts[j] == ts[1..][j - 1];
    }
  }

  /** The loop's answer depends only on the candidate and its service types,
      never on what the maps already hold. */
  lemma {:induction false} InterfacesVerdict(verify: bool, s: State, impl: Candidate, ts: seq<TypeRef>)
    requires s.reg.WellFormed()
    ensures Interfaces(verify, s, impl, ts).1 == Verdict(verify, impl, ts)
    decreases |ts|
  {
    if ts != [] {
      var step := InterfaceStep(verify, s, impl, ts[0]);
      StepNext(verify, s, impl, ts[0]);
      if step.1 == Continue {
        InterfacesVerdict(verify, step.0, impl, ts[1..]);
      }
    }
  }

  /** The loop leaves at the first service type that defers or crashes: the
      types after it are never looked at, and what the types before it
      recorded stays recorded. */
  lemma {:induction false} InterfacesStopAt(verify: bool, s: State, impl: Candidate, ts: seq<TypeRef>, j: nat)
    requires s.reg.WellFormed()
    requires j < |ts| && !Ordinary(verify, impl, ts[j])
    requires forall i :: 0 <= i < j ==> Ordinary(verify, impl, ts[i])
    ensures Interfaces(verify, s, impl, ts[..j]).1 == Continue
    ensures Interfaces(verify, s, impl, ts) == InterfaceStep(verify, Interfaces(verify, s, impl, ts[..j]).0, impl, ts[j])
    ensures Defers(verify, impl, ts[j]) ==> Interfaces(verify, s, impl, ts) == (Interfaces(verify, s, impl, ts[..j]).0, Defer)
    decreases j
  {
    if j == 0 {
      assert ts[..0] == [];
      StepNext(verify, s, impl, ts[0]);
    } else {
      var step := InterfaceStep(verify, s, impl, ts[0]);
      StepNext(verify, s, impl, ts[0]);
      assert step.1 == Continue;
      assert ts[..j][0] == ts[0] && ts[..j][1..] == ts[1..][..j - 1];
      InterfacesStopAt(verify, step.0, impl, ts[1..], j - 1);
    }
  }

  // ---- Nothing recorded is ever lost during a round ----

  /** Everything `a` holds, `b` holds too. */
  predicate Grows(a: Registry, b: Registry)
  {
    (forall k :: k in a.services ==> k in b.services && Elements(a.services[k]) <= Elements(b.services[k]))
    && a.files.Keys <= b.files.Keys
  }

  lemma {:induction false} InterfacesGrow(verify: bool, s: State, impl: Candidate, ts: seq<TypeRef>)
    requires s.reg.WellFormed()
    ensures Grows(s.reg, Interfaces(verify, s, impl, ts).0.reg)
    ensures s.diagnostics <= Interfaces(verify, s, impl, ts).0.diagnostics
    decreases |ts|
  {
    if ts != [] {
      var step := InterfaceStep(verify, s, impl, ts[0]);
      StepGrows(verify, s, impl, ts[0]);
      InterfacesCons(verify, s, impl, ts);
      if step.1 == Continue {
        InterfacesGrow(verify, step.0, impl, ts[1..]);
        GrowsTrans(s.reg, step.0.reg, Interfaces(verify, step.0, impl, ts[1..]).0.reg);
      }
    }
  }

  lemma StepGrows(verify: bool, s: State, impl: Candidate, t: TypeRef)
    requires s.reg.WellFormed()
    ensures Grows(s.reg, InterfaceStep(verify, s, impl, t).0.reg)
    ensures s.diagnostics <= InterfaceStep(verify, s, impl, t).0.diagnostics
  {
  }

  lemma GrowsTrans(a: Registry, b: Registry, c: Registry)
    requires Grows(a, b) && Grows(b, c)
    ensures Grows(a, c)
  {
  }

  /** Without a crash the loop keeps every set non-empty and duplicate-free:
      a set is created only together with its first element. */
  lemma {:induction false} InterfacesValid(verify: bool, s: State, impl: Candidate, ts: seq<TypeRef>)
    requires s.reg.Valid()
    requires Interfaces(verify, s, impl, ts).1 != Crash
    ensures Interfaces(verify, s, impl, ts).0.reg.Valid()
    decreases |ts|
  {
    if ts != [] {
      var step := InterfaceStep(verify, s, impl, ts[0]);
      if step.1 == Continue {
        StepValid(verify, s, impl, ts[0]);
        InterfacesValid(verify, step.0, impl, ts[1..]);
      }
    }
  }

  lemma StepValid(verify: bool, s: State, impl: Candidate, t: TypeRef)
    requires s.reg.Valid()
    requires InterfaceStep(verify, s, impl, t).1 == Continue
    ensures InterfaceStep(verify, s, impl, t).0.reg.Valid()
  {
    if t.ResolvedType? && t.decl.Some? && Validate(verify, impl.supertypes) == Valid {
      var service := BinaryName(t.decl.value).value;
      var name := BinaryName(impl.info).value;
      assert InterfaceStep(verify, s, impl, t).0.reg == s.reg.Record(service, name, impl.file);
    }
  }

  // ---- Trust mode: every pair is recorded ----

  /** A service type that trust mode accepts without an exception. */
  predicate Acceptable(t: TypeRef)
  {
    t.ResolvedType? && t.decl.Some? && !t.decl.value.isLocal
  }

  function ServiceName(t: TypeRef): (r: string)
    requires Acceptable(t)
  {
    BinaryName(t.decl.value).value
  }

  function ServiceNames(ts: seq<TypeRef>): (r: seq<string>)
    requires forall j :: 0 <= j < |ts| ==> Acceptable(ts[j])
    ensures |r| == |ts| && forall j :: 0 <= j < |ts| ==> r[j] == ServiceName(ts[j])
    decreases |ts|
  {
    if ts == [] then [] else [ServiceName(ts[0])] + ServiceNames(ts[1..])
  }

  /** Trust mode accepts one such type by recording the pair. */
  lemma TrustStep(s: State, impl: Candidate, t: TypeRef)
    requires s.reg.WellFormed() && !impl.info.isLocal && Acceptable(t)
    ensures InterfaceStep(false, s, impl, t)
            == (s.(reg := s.reg.Record(ServiceName(t), BinaryName(impl.info).value, impl.file)), Continue)
  {
  }

  /** With verification off, a non-local candidate whose service types all
      resolve to non-local classes is added to the set of every one of them
      and nothing is reported. */
  lemma {:induction false} TrustModeRecordsAll(s: State, impl: Candidate, ts: seq<TypeRef>)
    requires s.reg.WellFormed() && !impl.info.isLocal
    requires forall j :: 0 <= j < |ts| ==> Acceptable(ts[j])
    ensures Interfaces(false, s, impl, ts).1 == Continue
    ensures Interfaces(false, s, impl, ts).0.diagnostics == s.diagnostics
    ensures forall k :: k in Interfaces(false, s, impl, ts).0.reg.services <==> k in s.reg.services || k in ServiceNames(ts)
    ensures forall k :: k in ServiceNames(ts) ==>
              BinaryName(impl.info).value in Elements(Interfaces(false, s, impl, ts).0.reg.services[k])
    decreases |ts|
  {
    if ts != [] {
      var name := BinaryName(impl.info).value;
      var service := ServiceName(ts[0]);
      TrustStep(s, impl, ts[0]);
      var s1 := s.(reg := s.reg.Record(service, name, impl.file));
      var rest := ts[1..];
      assert forall j :: 0 <= j < |rest| ==> rest[j] == ts[j + 1];
      TrustModeRecordsAll(s1, impl, rest);
      InterfacesGrow(false, s1, impl, rest);
    }
  }

  /** In the same situation, the sets of the other services stay as they were. */
  lemma {:induction false} TrustModeKeepsOthers(s: State, impl: Candidate, ts: seq<TypeRef>)
    requires s.reg.WellFormed() && !impl.info.isLocal
    requires forall j :: 0 <= j < |ts| ==> Acceptable(ts[j])
    ensures forall k :: k in s.reg.services && k !in ServiceNames(ts) ==>
              k in Interfaces(false, s, impl, ts).0.reg.services && Interfaces(false, s, impl, ts).0.reg.services[k] == s.reg.services[k]
    decreases |ts|
  {
    if ts != [] {
      var service := ServiceName(ts[0]);
      TrustStep(s, impl, ts[0]);
      var s1 := s.(reg := s.reg.Record(service, BinaryName(impl.info).value, impl.file));
      var rest := ts[1..];
      assert forall j :: 0 <= j < |rest| ==> rest[j] == ts[j + 1];
      TrustModeKeepsOthers(s1, impl, rest);
      assert ServiceNames(ts) == [service] + ServiceNames(rest);
    }
  }

  // ---- Verification on: nothing is recorded ----

  /** Rejecting a service type: the report the loop makes for it. */
  function Rejection(impl: Candidate, t: TypeRef): (r: Diagnostic)
    requires t.ResolvedType?
  {
    if t.decl.Some? then DoesNotImplement(impl.info.qualifiedName, t.decl.value.qualifiedName)
    else ClassDeclarationMissing(t.name)
  }

  /** With verification on, a candidate whose supertypes are all resolved is
      reported once per service type, in order, and nothing is recorded. */
  lemma {:induction false} VerifyRejectsAll(s: State, impl: Candidate, ts: seq<TypeRef>)
    requires s.reg.WellFormed() && !HasErrorType(impl.supertypes)
    requires forall j :: 0 <= j < |ts| ==> ts[j].ResolvedType?
    ensures Interfaces(true, s, impl, ts).1 == Continue
    ensures Interfaces(true, s, impl, ts).0.reg == s.reg
    ensures |Interfaces(true, s, impl, ts).0.diagnostics| == |s.diagnostics| + |ts|
    ensures Interfaces(true, s, impl, ts).0.diagnostics[..|s.diagnostics|] == s.diagnostics
    ensures forall j :: 0 <= j < |ts| ==>
              Interfaces(true, s, impl, ts).0.diagnostics[|s.diagnostics| + j] == Rejection(impl, ts[j])
    decreases |ts|
  {
    if ts != [] {
      var step := InterfaceStep(true, s, impl, ts[0]);
      assert step.0 == Log(s, Rejection(impl, ts[0]));
      assert forall j :: 1 <= j < |ts| ==> ts[j] == ts[1..][j - 1];
      VerifyRejectsAll(step.0, impl, ts[1..]);
    }
  }

  /** With verification on, the service loop never changes the maps and never
      reaches the binary names that could throw. */
  lemma {:induction false} VerifyKeepsMaps(s: State, impl: Candidate, ts: seq<TypeRef>)
    requires s.reg.WellFormed()
    ensures Interfaces(true, s, impl, ts).0.reg == s.reg
    ensures Interfaces(true, s, impl, ts).1 != Crash
    decreases |ts|
  {
    VerifyNeverAccepts(impl.supertypes);
    if ts != [] {
      var step := InterfaceStep(true, s, impl, ts[0]);
      if step.1 == Continue {
        VerifyKeepsMaps(step.0, impl, ts[1..]);
      }
    }
  }

  // ---- Service types without a class declaration ----

  /** In either mode, a service type without a class declaration is reported
      as such, nothing else changes, and the loop goes on. */
  lemma MissingDeclarationReported(verify: bool, s: State, impl: Candidate, n: string)
    requires s.reg.WellFormed()
    ensures InterfaceStep(verify, s, impl, ResolvedType(n, None)) == (Log(s, ClassDeclarationMissing(n)), Continue)
  {
  }

  /** In either mode, a missing declaration in front of the remaining types
      adds its report and the loop carries on with the rest. */
  lemma MissingDeclarationContinues(verify: bool, s: State, impl: Candidate, n: string, ts: seq<TypeRef>)
    requires s.reg.WellFormed()
    ensures Interfaces(verify, s, impl, [ResolvedType(n, None)] + ts)
            == Interfaces(verify, Log(s, ClassDeclarationMissing(n)), impl, ts)
  {
    assert ([ResolvedType(n, None)] + ts)[1..] == ts;
  }

  /** In either mode, a list of service types none of which has a class
      declaration gives one report per type, in order, and changes no map. */
  lemma {:induction false} MissingDeclarationsReported(verify: bool, s: State, impl: Candidate, ts: seq<TypeRef>)
    requires s.reg.WellFormed()
    requires forall j :: 0 <= j < |ts| ==> ts[j].ResolvedType? && ts[j].decl.None?
    ensures Interfaces(verify, s, impl, ts).1 == Continue
    ensures Interfaces(verify, s, impl, ts).0.reg == s.reg
    ensures |Interfaces(verify, s, impl, ts).0.diagnostics| == |s.diagnostics| + |ts|
    ensures Interfaces(verify, s, impl, ts).0.diagnostics[..|s.diagnostics|] == s.diagnostics
    ensures forall j :: 0 <= j < |ts| ==>
              Interfaces(verify, s, impl, ts).0.diagnostics[|s.diagnostics| + j] == ClassDeclarationMissing(ts[j].name)
    decreases |ts|
  {
    if ts != [] {
      var step := InterfaceStep(verify, s, impl, ts[0]);
      assert step.0 == Log(s, ClassDeclarationMissing(ts[0].name));
      assert forall j :: 1 <= j < |ts| ==> ts[j] == ts[1..][j - 1];
      MissingDeclarationsReported(verify, step.0, impl, ts[1..]);
    }
  }

  // ---- The candidate loop ----

  /** How a candidate's processing ends, from the candidate alone. */
  function Outcome(verify: bool, c: Candidate): (r: Next)
  {
    match Extract(c)
    case Skip(_) => Continue
    case Proceed(ts, _) => Verdict(verify, c, ts)
  }

  /** The classes a symbol contributes to the deferred list. */
  function DeferredBy(verify: bool, sym: Symbol): (r: seq<Candidate>)
  {
    if sym.ClassSymbol? && Outcome(verify, sym.decl) == Defer then [sym.decl] else []
  }

  /** The annotated classes, in order, whose processing defers. */
  function DeferredOf(verify: bool, syms: seq<Symbol>): (r: seq<Candidate>)
    decreases |syms|
  {
    if syms == [] then [] else DeferredBy(verify, syms[0]) + DeferredOf(verify, syms[1..])
  }

  /** A class is handed back to the compiler exactly when it is annotated in
      this round and its processing defers. */
  lemma {:induction false} DeferredOfMembers(verify: bool, syms: seq<Symbol>)
    ensures forall c :: c in DeferredOf(verify, syms) <==> ClassSymbol(c) in syms && Outcome(verify, c) == Defer
    decreases |syms|
  {
    if syms != [] {
      DeferredOfMembers(verify, syms[1..]);
      assert forall x :: x in syms <==> x == syms[0] || x in syms[1..];
    }
  }

  predicate CrashesOn(verify: bool, sym: Symbol)
  {
    sym.ClassSymbol? && Outcome(verify, sym.decl) == Crash
  }

  /** Some class in the round makes its loop throw. */
  predicate AnyCrash(verify: bool, syms: seq<Symbol>)
    decreases |syms|
  {
    syms != [] && (CrashesOn(verify, syms[0]) || AnyCrash(verify, syms[1..]))
  }

  /** One symbol: an exception exactly when its class's loop crashes;
      otherwise deferred exactly when that loop defers. */
  lemma StepDeferred(verify: bool, p: Pass, sym: Symbol)
    requires p.state.reg.WellFormed() && !p.crashed
    ensures CandidateStep(verify, p, sym).crashed <==> CrashesOn(verify, sym)
    ensures !CrashesOn(verify, sym) ==> CandidateStep(verify, p, sym).deferred == p.deferred + DeferredBy(verify, sym)
  {
    if sym.ClassSymbol? && Extract(sym.decl).Proceed? {
      var c := sym.decl;
      var w := Extract(c).warning;
      InterfacesVerdict(verify, if w.Some? then Log(p.state, w.value) else p.state, c, Extract(c).services);
    }
  }

  /** The loop throws exactly when some class's loop crashes. */
  lemma {:induction false} CandidatesCrash(verify: bool, p: Pass, syms: seq<Symbol>)
    requires p.state.reg.WellFormed() && !p.crashed
    ensures Candidates(verify, p, syms).crashed <==> AnyCrash(verify, syms)
    decreases |syms|
  {
    if syms != [] {
      StepDeferred(verify, p, syms[0]);
      var q := CandidateStep(verify, p, syms[0]);
      if !q.crashed {
        CandidatesCrash(verify, q, syms[1..]);
      }
    }
  }

  /** Without an exception the loop returns exactly the deferring classes,
      in symbol order. */
  lemma {:induction false} CandidatesDeferred(verify: bool, p: Pass, syms: seq<Symbol>)
    requires p.state.reg.WellFormed() && !p.crashed && !AnyCrash(verify, syms)
    ensures Candidates(verify, p, syms).deferred == p.deferred + DeferredOf(verify, syms)
    decreases |syms|
  {
    if syms != [] {
      StepDeferred(verify, p, syms[0]);
      var q := CandidateStep(verify, p, syms[0]);
      CandidatesCons(verify, p, syms);
      CandidatesDeferred(verify, q, syms[1..]);
      DeferredOfCons(verify, syms);
      var a, b := DeferredBy(verify, syms[0]), DeferredOf(verify, syms[1..]);
      assert p.deferred + a + b == p.deferred + (a + b);
    }
  }

  lemma CandidatesCons(verify: bool, p: Pass, syms: seq<Symbol>)
    requires p.state.reg.WellFormed() && !p.crashed && syms != []
    requires !CandidateStep(verify, p, syms[0]).crashed
    ensures Candidates(verify, p, syms) == Candidates(verify, CandidateStep(verify, p, syms[0]), syms[1..])
  {
  }

  lemma DeferredOfCons(verify: bool, syms: seq<Symbol>)
    requires syms != []
    ensures DeferredOf(verify, syms) == DeferredBy(verify, syms[0]) + DeferredOf(verify, syms[1..])
  {
  }

  lemma {:induction false} AnyCrashAt(verify: bool, syms: seq<Symbol>)
    ensures AnyCrash(verify, syms) <==> exists j :: 0 <= j < |syms| && CrashesOn(verify, syms[j])
    decreases |syms|
  {
    if syms != [] {
      var rest := syms[1..];
      AnyCrashAt(verify, rest);
      assert forall j :: 0 <= j < |rest| ==> rest[j] == syms[j + 1];
      if !CrashesOn(verify, syms[0]) && exists j :: 0 <= j < |syms| && CrashesOn(verify, syms[j]) {
        var j :| 0 <= j < |syms| && CrashesOn(verify, syms[j]);
        assert CrashesOn(verify, rest[j - 1]);
      }
    }
  }

  /** Without a crash one symbol keeps every set non-empty. */
  lemma CandidateStepValid(verify: bool, p: Pass, sym: Symbol)
    requires p.state.reg.Valid() && !p.crashed
    requires !CandidateStep(verify, p, sym).crashed
    ensures CandidateStep(verify, p, sym).state.reg.Valid()
  {
    if sym.ClassSymbol? && Extract(sym.decl).Proceed? {
      var c := sym.decl;
      var w := Extract(c).warning;
      InterfacesValid(verify, if w.Some? then Log(p.state, w.value) else p.state, c, Extract(c).services);
    }
  }

  /** Without a crash the candidate loop keeps every set non-empty. */
  lemma {:induction false} CandidatesValid(verify: bool, p: Pass, syms: seq<Symbol>)
    requires p.state.reg.Valid() && !p.crashed
    requires !Candidates(verify, p, syms).crashed
    ensures Candidates(verify, p, syms).state.reg.Valid()
    decreases |syms|
  {
    if syms != [] {
      CandidateStepValid(verify, p, syms[0]);
      var q := CandidateStep(verify, p, syms[0]);
      if !q.crashed {
        CandidatesValid(verify, q, syms[1..]);
      }
    }
  }

  lemma CandidateStepGrows(verify: bool, p: Pass, sym: Symbol)
    requires p.state.reg.WellFormed() && !p.crashed
    ensures Grows(p.state.reg, CandidateStep(verify, p, sym).state.reg)
  {
    if sym.ClassSymbol? && Extract(sym.decl).Proceed? {
      var c := sym.decl;
      var w := Extract(c).warning;
      InterfacesGrow(verify, if w.Some? then Log(p.state, w.value) else p.state, c, Extract(c).services);
    }
  }

  /** Nothing recorded in a round is lost before the manifests are written. */
  lemma {:induction false} CandidatesGrow(verify: bool, p: Pass, syms: seq<Symbol>)
    requires p.state.reg.WellFormed() && !p.crashed
    ensures Grows(p.state.reg, Candidates(verify, p, syms).state.reg)
    decreases |syms|
  {
    if syms != [] {
      CandidateStepGrows(verify, p, syms[0]);
      var q := CandidateStep(verify, p, syms[0]);
      if !q.crashed {
        CandidatesGrow(verify, q, syms[1..]);
      }
    }
  }

  lemma VerifyStepKeepsMaps(p: Pass, sym: Symbol)
    requires p.state.reg.WellFormed() && !p.crashed
    ensures CandidateStep(true, p, sym).state.reg == p.state.reg
    ensures !CandidateStep(true, p, sym).crashed
  {
    if sym.ClassSymbol? && Extract(sym.decl).Proceed? {
      var c := sym.decl;
      var w := Extract(c).warning;
      VerifyKeepsMaps(if w.Some? then Log(p.state, w.value) else p.state, c, Extract(c).services);
    }
  }

  /** With verification on, the candidate loop never changes the maps. */
  lemma {:induction false} VerifyCandidatesKeepMaps(p: Pass, syms: seq<Symbol>)
    requires p.state.reg.WellFormed() && !p.crashed
    ensures Candidates(true, p, syms).state.reg == p.state.reg
    ensures !Candidates(true, p, syms).crashed
    decreases |syms|
  {
    if syms != [] {
      VerifyStepKeepsMaps(p, syms[0]);
      VerifyCandidatesKeepMaps(CandidateStep(true, p, syms[0]), syms[1..]);
    }
  }

  /** The loop over a single symbol is that symbol's step. */
  lemma CandidatesSingle(verify: bool, p: Pass, sym: Symbol)
    requires p.state.reg.WellFormed() && !p.crashed
    ensures Candidates(verify, p, [sym]) == CandidateStep(verify, p, sym)
  {
    assert [sym][1..] == [];
  }

  /** The loop takes one step, then goes on with the rest if that step
      continues. */
  lemma InterfacesCons(verify: bool, s: State, impl: Candidate, ts: seq<TypeRef>)
    requires s.reg.WellFormed() && ts != []
    ensures Interfaces(verify, s, impl, ts)
            == (var step := InterfaceStep(verify, s, impl, ts[0]);
                if step.1 == Continue then Interfaces(verify, step.0, impl, ts[1..]) else step)
  {
  }

  /** The loop over a single service type is that type's step. */
  lemma InterfacesSingle(verify: bool, s: State, impl: Candidate, t: TypeRef)
    requires s.reg.WellFormed()
    ensures Interfaces(verify, s, impl, [t]) == InterfaceStep(verify, s, impl, t)
  {
    assert [t][1..] == [];
  }

  /** A candidate with an empty service list is reported, records nothing and
      is not deferred. */
  lemma EmptyListCandidate(verify: bool, p: Pass, c: Candidate)
    requires p.state.reg.WellFormed() && !p.crashed
    requires c.annotation == Some(ListValue([]))
    ensures Candidates(verify, p, [ClassSymbol(c)])
            == Pass(Log(p.state, NoServiceInterfaces(c.info.qualifiedName)), p.deferred, false)
  {
    CandidatesSingle(verify, p, ClassSymbol(c));
  }

  /** A candidate skipped at extraction reports its one error (the annotation
      not found again, a null value, or a value of the wrong type) and changes
      nothing else: no map, no file, no deferral. */
  lemma SkippedCandidate(verify: bool, p: Pass, c: Candidate)
    requires p.state.reg.WellFormed() && !p.crashed
    requires Extract(c).Skip?
    ensures CandidateStep(verify, p, ClassSymbol(c)) == p.(state := Log(p.state, Extract(c).error))
    ensures Candidates(verify, p, [ClassSymbol(c)])
            == Pass(State(p.state.reg, p.state.diagnostics + [Extract(c).error], p.state.written), p.deferred, false)
    ensures c.annotation.None? ==> Extract(c).error == AnnotationNotLocated(c.info.qualifiedName)
    ensures c.annotation == Some(NullValue) ==> Extract(c).error == ValueIsNull(c.info.qualifiedName)
    ensures c.annotation == Some(OtherValue) ==> Extract(c).error == ValueHasWrongType(c.info.qualifiedName)
  {
    CandidatesSingle(verify, p, ClassSymbol(c));
  }

  /** A symbol that is not a class declaration is filtered out: it is not
      reported and changes nothing, wherever it stands in the round. */
  lemma OtherSymbolIgnored(verify: bool, p: Pass, syms: seq<Symbol>)
    requires p.state.reg.WellFormed() && !p.crashed
    ensures CandidateStep(verify, p, OtherSymbol) == p
    ensures Candidates(verify, p, [OtherSymbol] + syms) == Candidates(verify, p, syms)
  {
    assert ([OtherSymbol] + syms)[1..] == syms;
  }

  /** A class whose service loop defers at type `j` is handed back, and the
      pairs recorded for the types before `j` stay recorded, to be written
      at the end of this round. */
  lemma DeferredCandidateKeepsPairs(verify: bool, p: Pass, c: Candidate, j: nat)
    requires p.state.reg.WellFormed() && !p.crashed && Extract(c).Proceed?
    requires j < |Extract(c).services| && Defers(verify, c, Extract(c).services[j])
    requires forall i :: 0 <= i < j ==> Ordinary(verify, c, Extract(c).services[i])
    ensures CandidateStep(verify, p, ClassSymbol(c))
            == Pass(Interfaces(verify, p.state, c, Extract(c).services[..j]).0, p.deferred + [c], false)
  {
    InterfacesStopAt(verify, p.state, c, Extract(c).services, j);
  }

  // ---- The manifest loop ----

  /** The manifest of one service sits at the service's path, is aggregating
      over the source files recorded for its implementors, and reads back, the
      way ServiceLoader reads it, as the implementors in insertion order. */
  lemma ManifestForLoadsBack(wc: bool, reg: Registry, service: string)
    requires service in reg.services
    requires forall i :: 0 <= i < |reg.services[service]| ==> ProviderName(reg.services[service][i])
    ensures ManifestFor(wc, reg, service).path == ServicesDir + service
    ensures ManifestFor(wc, reg, service).deps.aggregating
    ensures forall f :: f in ManifestFor(wc, reg, service).deps.sources <==>
              exists i :: 0 <= i < |reg.services[service]| && reg.services[service][i] in reg.files
                          && reg.files[reg.services[service][i]] == f
    ensures ProviderNames(ManifestFor(wc, reg, service).content) == reg.services[service]
  {
    ContentLoadsBack(reg.services[service], wc);
  }

  /** The files the loop writes for `keys`: one per key whose write succeeds. */
  function Written(wc: bool, reg: Registry, keys: seq<string>, io: map<string, string>): (r: seq<OutputFile>)
    requires forall i :: 0 <= i < |keys| ==> keys[i] in reg.services
    decreases |keys|
  {
    if keys == [] then []
    else
      var rest := Written(wc, reg, keys[1..], io);
      if PathOf(keys[0]) in io then rest else [ManifestFor(wc, reg, keys[0])] + rest
  }

  /** The reports the loop makes for `keys`: one per key whose write fails,
      naming the path and the cause. */
  function Failures(keys: seq<string>, io: map<string, string>): (r: seq<Diagnostic>)
    decreases |keys|
  {
    if keys == [] then []
    else
      var rest := Failures(keys[1..], io);
      var path := PathOf(keys[0]);
      if path in io then [WriteFailed(path, io[path])] + rest else rest
  }

  /** The files written are the manifests of exactly the keys whose write
      succeeds. */
  lemma {:induction false} WrittenFiles(wc: bool, reg: Registry, keys: seq<string>, io: map<string, string>)
    requires forall i :: 0 <= i < |keys| ==> keys[i] in reg.services
    ensures forall k :: k in keys && PathOf(k) !in io ==> ManifestFor(wc, reg, k) in Written(wc, reg, keys, io)
    ensures forall f :: f in Written(wc, reg, keys, io) ==>
              exists k :: k in keys && PathOf(k) !in io && f == ManifestFor(wc, reg, k)
    decreases |keys|
  {
    if keys != [] {
      assert forall i :: 1 <= i < |keys| ==> keys[i] == keys[1..][i - 1];
      WrittenFiles(wc, reg, keys[1..], io);
      assert forall k :: k in keys ==> k == keys[0] || k in keys[1..];
    }
  }

  /** The reports made are those of exactly the keys whose write fails. */
  lemma {:induction false} FailureReports(keys: seq<string>, io: map<string, string>)
    ensures forall k :: k in keys && PathOf(k) in io ==> WriteFailed(PathOf(k), io[PathOf(k)]) in Failures(keys, io)
    ensures forall d :: d in Failures(keys, io) ==>
              exists k :: k in keys && PathOf(k) in io && d == WriteFailed(PathOf(k), io[PathOf(k)])
    decreases |keys|
  {
    if keys != [] {
      FailureReports(keys[1..], io);
      assert forall k :: k in keys ==> k == keys[0] || k in keys[1..];
    }
  }

  /** Every key gets exactly one attempt: a file or a report. */
  lemma {:induction false} OneAttemptPerKey(wc: bool, reg: Registry, keys: seq<string>, io: map<string, string>)
    requires forall i :: 0 <= i < |keys| ==> keys[i] in reg.services
    ensures |Written(wc, reg, keys, io)| + |Failures(keys, io)| == |keys|
    decreases |keys|
  {
    if keys != [] {
      OneAttemptPerKey(wc, reg, keys[1..], io);
    }
  }

  /** For keys whose sets are all non-empty, the loop reaches its end, after
      appending those files and those reports. */
  lemma {:induction false} EmitAttemptsEach(wc: bool, s: State, keys: seq<string>, io: map<string, string>)
    requires forall i :: 0 <= i < |keys| ==> keys[i] in s.reg.services && s.reg.services[keys[i]] != []
    ensures Emit(wc, s, keys, io).1
    ensures Emit(wc, s, keys, io).0
            == s.(written := s.written + Written(wc, s.reg, keys, io), diagnostics := s.diagnostics + Failures(keys, io))
    decreases |keys|
  {
    if keys != [] {
      var k, rest := keys[0], keys[1..];
      assert forall i :: 0 <= i < |rest| ==> rest[i] == keys[i + 1];
      var s1 := Attempt(wc, s, k, io);
      EmitCons(wc, s, keys, io);
      AttemptEffect(wc, s, k, io);
      EmitAttemptsEach(wc, s1, rest, io);
      WrittenCons(wc, s.reg, keys, io);
      FailuresCons(keys, io);
      AppendTwice(s, Written(wc, s.reg, [k], io), Written(wc, s.reg, rest, io), Failures([k], io), Failures(rest, io));
    }
  }

  /** Appending files and reports in two steps appends them in one. */
  lemma AppendTwice(s: State, w1: seq<OutputFile>, w2: seq<OutputFile>, f1: seq<Diagnostic>, f2: seq<Diagnostic>)
    ensures var s1 := s.(written := s.written + w1, diagnostics := s.diagnostics + f1);
            s1.(written := s1.written + w2, diagnostics := s1.diagnostics + f2)
            == s.(written := s.written + (w1 + w2), diagnostics := s.diagnostics + (f1 + f2))
  {
    assert s.written + w1 + w2 == s.written + (w1 + w2);
    assert s.diagnostics + f1 + f2 == s.diagnostics + (f1 + f2);
  }

  lemma EmitCons(wc: bool, s: State, keys: seq<string>, io: map<string, string>)
    requires forall i :: 0 <= i < |keys| ==> keys[i] in s.reg.services
    requires keys != [] && s.reg.services[keys[0]] != []
    ensures Emit(wc, s, keys, io) == Emit(wc, Attempt(wc, s, keys[0], io), keys[1..], io)
  {
  }

  /** One attempt appends the file or the report for its key. */
  lemma AttemptEffect(wc: bool, s: State, k: string, io: map<string, string>)
    requires k in s.reg.services
    ensures Attempt(wc, s, k, io)
            == s.(written := s.written + Written(wc, s.reg, [k], io), diagnostics := s.diagnostics + Failures([k], io))
  {
    assert [k][1..] == [];
  }

  lemma WrittenCons(wc: bool, reg: Registry, keys: seq<string>, io: map<string, string>)
    requires forall i :: 0 <= i < |keys| ==> keys[i] in reg.services
    requires keys != []
    ensures Written(wc, reg, keys, io) == Written(wc, reg, [keys[0]], io) + Written(wc, reg, keys[1..], io)
  {
    assert [keys[0]][1..] == [];
  }

  lemma FailuresCons(keys: seq<string>, io: map<string, string>)
    requires keys != []
    ensures Failures(keys, io) == Failures([keys[0]], io) + Failures(keys[1..], io)
  {
    assert [keys[0]][1..] == [];
  }

  /** After every set has been added to, the manifest loop makes one attempt
      per service, in the order services were first seen, then empties
      `services` and keeps `serviceFiles`. */
  lemma GenerateConfigFilesClears(wc: bool, s: State, io: map<string, string>)
    requires s.reg.Valid()
    ensures GenerateConfigFiles(wc, s, io)
            == State(Cleared(s.reg), s.diagnostics + Failures(s.reg.order, io), s.written + Written(wc, s.reg, s.reg.order, io))
    ensures |Written(wc, s.reg, s.reg.order, io)| + |Failures(s.reg.order, io)| == |s.reg.services|
    ensures forall k :: k in s.reg.order <==> k in s.reg.services
  {
    var keys := s.reg.order;
    assert forall i :: 0 <= i < |keys| ==> keys[i] in Elements(keys);
    EmitAttemptsEach(wc, s, keys, io);
    OneAttemptPerKey(wc, s.reg, keys, io);
    DistinctCount(keys);
  }

  lemma {:induction false} DistinctCount(keys: seq<string>)
    requires NoDup(keys)
    ensures |Elements(keys)| == |keys|
  {
    if keys != [] {
      DistinctCount(keys[1..]);
      assert Elements(keys) == {keys[0]} + Elements(keys[1..]);
      assert keys[0] !in Elements(keys[1..]);
    }
  }

  /** Were a set ever empty, the loop would leave the whole function at that
      key (`return` at line 175) and `services.clear()` would not run. */
  lemma {:induction false} EmptySetSkipsClear(wc: bool, s: State, io: map<string, string>)
    requires s.reg.WellFormed()
    requires exists i :: 0 <= i < |s.reg.order| && s.reg.services[s.reg.order[i]] == []
    ensures GenerateConfigFiles(wc, s, io).reg == s.reg
  {
    assert forall i :: 0 <= i < |s.reg.order| ==> s.reg.order[i] in Elements(s.reg.order);
    EmitStops(wc, s, s.reg.order, io);
  }

  lemma {:induction false} EmitStops(wc: bool, s: State, keys: seq<string>, io: map<string, string>)
    requires forall i :: 0 <= i < |keys| ==> keys[i] in s.reg.services
    requires exists i :: 0 <= i < |keys| && s.reg.services[keys[i]] == []
    ensures !Emit(wc, s, keys, io).1
    decreases |keys|
  {
    if s.reg.services[keys[0]] != [] {
      var i :| 0 <= i < |keys| && s.reg.services[keys[i]] == [];
      assert keys[1..][i - 1] == keys[i];
      EmitStops(wc, Attempt(wc, s, keys[0], io), keys[1..], io);
    }
  }

  // ---- Whole rounds ----

  /** Without the annotation class the round reports once and does nothing. */
  lemma RoundWithoutAnnotation(cfg: Config, s: State, syms: seq<Symbol>, io: map<string, string>)
    requires s.reg.WellFormed()
    ensures Round(cfg, s, false, syms, io).1 == Completed([])
    ensures Round(cfg, s, false, syms, io).0.reg == s.reg
    ensures Round(cfg, s, false, syms, io).0.written == s.written
    ensures Round(cfg, s, false, syms, io).0.diagnostics == s.diagnostics + [ServiceAnnotationMissing]
  {
  }

  /** A round that does not throw hands back exactly the deferring classes,
      ends with `services` empty and keeps every recorded source file. */
  lemma RoundCompletes(cfg: Config, s: State, syms: seq<Symbol>, io: map<string, string>)
    requires s.reg.Valid() && !AnyCrash(cfg.verify, syms)
    ensures Round(cfg, s, true, syms, io).1 == Completed(DeferredOf(cfg.verify, syms))
    ensures Round(cfg, s, true, syms, io).0.reg.services == map[]
    ensures Round(cfg, s, true, syms, io).0.reg.order == []
    ensures s.reg.files.Keys <= Round(cfg, s, true, syms, io).0.reg.files.Keys
  {
    var p0 := Pass(s, [], false);
    CandidatesCrash(cfg.verify, p0, syms);
    CandidatesDeferred(cfg.verify, p0, syms);
    CandidatesValid(cfg.verify, p0, syms);
    CandidatesGrow(cfg.verify, p0, syms);
    GenerateConfigFilesClears(cfg.writeComment, Candidates(cfg.verify, p0, syms).state, io);
  }

  /** A round that throws writes no file. */
  lemma RoundCrashWritesNothing(cfg: Config, s: State, syms: seq<Symbol>, io: map<string, string>)
    requires s.reg.WellFormed() && AnyCrash(cfg.verify, syms)
    ensures Round(cfg, s, true, syms, io).1 == Crashed
    ensures Round(cfg, s, true, syms, io).0.written == s.written
  {
    CandidatesCrash(cfg.verify, Pass(s, [], false), syms);
  }

  /** With verification on, a round that starts with `services` empty, as
      every round does, writes no manifest at all. */
  lemma VerifyModeWritesNothing(cfg: Config, s: State, syms: seq<Symbol>, io: map<string, string>)
    requires cfg.verify && s.reg.WellFormed() && s.reg.services == map[]
    ensures Round(cfg, s, true, syms, io).1.Completed?
    ensures Round(cfg, s, true, syms, io).0.written == s.written
  {
    VerifyCandidatesKeepMaps(Pass(s, [], false), syms);
  }

  /** One acceptable class for one service, verification off: the pair is
      recorded and the class is not deferred. */
  lemma SingleCandidate(s: State, c: Candidate, t: TypeRef)
    requires s.reg.WellFormed() && !c.info.isLocal && Acceptable(t) && c.annotation == Some(SingleValue(t))
    ensures Candidates(false, Pass(s, [], false), [ClassSymbol(c)])
            == Pass(s.(reg := s.reg.Record(ServiceName(t), BinaryName(c.info).value, c.file)), [], false)
  {
    var p := Pass(s, [], false);
    TrustStep(s, c, t);
    InterfacesSingle(false, s, c, t);
    AcceptedCandidate(false, p, c, [t]);
    CandidatesSingle(false, p, ClassSymbol(c));
  }

  /** A class that proceeds without a warning and whose loop continues is
      neither deferred nor crashed. */
  lemma AcceptedCandidate(verify: bool, p: Pass, c: Candidate, ts: seq<TypeRef>)
    requires p.state.reg.WellFormed() && !p.crashed
    requires Extract(c) == Proceed(ts, None) && Interfaces(verify, p.state, c, ts).1 == Continue
    ensures CandidateStep(verify, p, ClassSymbol(c)) == Pass(Interfaces(verify, p.state, c, ts).0, p.deferred, false)
  {
  }

  /** The manifest of a service with a single implementor. */
  lemma SingleManifest(wc: bool, reg: Registry, service: string, name: string, file: string, io: map<string, string>)
    requires reg.services == map[service := [name]] && name in reg.files && reg.files[name] == file
    requires PathOf(service) !in io
    ensures Written(wc, reg, [service], io) == [OutputFile(PathOf(service), Dependencies(true, [file]), Content([name], wc))]
    ensures Failures([service], io) == []
  {
    assert [service][1..] == [] && [name][1..] == [];
    assert SourcesOf([name], reg.files) == [file] + SourcesOf([], reg.files);
    assert ManifestFor(wc, reg, service) == OutputFile(PathOf(service), Dependencies(true, [file]), Content([name], wc));
    assert Written(wc, reg, [service], io) == [ManifestFor(wc, reg, service)] + Written(wc, reg, [], io);
  }

  lemma EmptyOrder(r: Registry)
    requires r.WellFormed() && r.services == map[]
    ensures r.order == []
  {
    HeadIn(r.order);
  }

  lemma HeadIn(s: seq<string>)
    ensures |s| > 0 ==> s[0] in Elements(s)
  {
  }

  /** Recording into empty maps. */
  lemma RecordIntoEmpty(r: Registry, service: string, name: string, file: string)
    requires r.WellFormed() && r.services == map[]
    ensures r.Record(service, name, file) == Registry([service], map[service := [name]], r.files[name := file])
  {
    EmptyOrder(r);
    var g := r.GetOrPut(service);
    assert g == Registry([service], map[service := []], r.files);
    assert [] + [name] == [name];
    assert g.Add(service, name, file).services == map[service := [name]];
  }

  /** A round that does not throw writes the manifests of what its candidate
      loop recorded. */
  lemma RoundOfPass(cfg: Config, s: State, syms: seq<Symbol>, io: map<string, string>)
    requires s.reg.WellFormed() && !Candidates(cfg.verify, Pass(s, [], false), syms).crashed
    ensures Round(cfg, s, true, syms, io)
            == (GenerateConfigFiles(cfg.writeComment, Candidates(cfg.verify, Pass(s, [], false), syms).state, io),
                Completed(Candidates(cfg.verify, Pass(s, [], false), syms).deferred))
  {
  }

  /** The manifest loop over a single service with a single implementor. */
  lemma SingleServiceFiles(wc: bool, s: State, service: string, name: string, file: string, io: map<string, string>)
    requires s.reg.order == [service] && s.reg.services == map[service := [name]]
    requires name in s.reg.files && s.reg.files[name] == file && PathOf(service) !in io
    ensures GenerateConfigFiles(wc, s, io)
            == State(Cleared(s.reg), s.diagnostics,
                     s.written + [OutputFile(PathOf(service), Dependencies(true, [file]), Content([name], wc))])
  {
    GenerateConfigFilesClears(wc, s, io);
    SingleManifest(wc, s.reg, service, name, file, io);
  }

  /** One annotated class for one service, verification off, starting from
      empty maps: the round writes that service's manifest listing the class,
      with the class's file as its only dependency, and defers nothing. */
  lemma SingleServiceRound(cfg: Config, s: State, c: Candidate, t: TypeRef, io: map<string, string>)
    requires !cfg.verify && s.reg.WellFormed() && s.reg.services == map[]
    requires !c.info.isLocal && Acceptable(t) && c.annotation == Some(SingleValue(t))
    requires PathOf(ServiceName(t)) !in io
    ensures Round(cfg, s, true, [ClassSymbol(c)], io).1 == Completed([])
    ensures Round(cfg, s, true, [ClassSymbol(c)], io).0.diagnostics == s.diagnostics
    ensures Round(cfg, s, true, [ClassSymbol(c)], io).0.written
            == s.written + [OutputFile(PathOf(ServiceName(t)), Dependencies(true, [c.file]),
                                       Content([BinaryName(c.info).value], cfg.writeComment))]
  {
    var service, name := ServiceName(t), BinaryName(c.info).value;
    SingleCandidate(s, c, t);
    RecordIntoEmpty(s.reg, service, name, c.file);
    RoundOfPass(cfg, s, [ClassSymbol(c)], io);
    SingleServiceFiles(cfg.writeComment, s.(reg := s.reg.Record(service, name, c.file)), service, name, c.file, io);
  }

  /** A class whose service type is not yet generated is deferred with no
      report and no file; handed back once the type resolves, it gets its
      manifest. */
  lemma DeferThenResolve(cfg: Config, s: State, early: Candidate, late: Candidate, t: TypeRef, io: map<string, string>)
    requires !cfg.verify && s.reg.WellFormed() && s.reg.services == map[]
    requires early.annotation == Some(SingleValue(ErrorType))
    requires late == early.(annotation := Some(SingleValue(t)))
    requires !early.info.isLocal && Acceptable(t) && PathOf(ServiceName(t)) !in io
    ensures Round(cfg, s, true, [ClassSymbol(early)], io).1 == Completed([early])
    ensures Round(cfg, s, true, [ClassSymbol(early)], io).0 == s.(reg := Cleared(s.reg))
    ensures Round(cfg, Round(cfg, s, true, [ClassSymbol(early)], io).0, true, [ClassSymbol(late)], io).0.written
            == s.written + [OutputFile(PathOf(ServiceName(t)), Dependencies(true, [early.file]),
                                       Content([BinaryName(early.info).value], cfg.writeComment))]
  {
    EmptyOrder(s.reg);
    assert Extract(early) == Proceed([ErrorType], None);
    InterfacesSingle(false, s, early, ErrorType);
    CandidatesSingle(false, Pass(s, [], false), ClassSymbol(early));
    assert Candidates(false, Pass(s, [], false), [ClassSymbol(early)]) == Pass(s, [early], false);
    assert GenerateConfigFiles(cfg.writeComment, s, io) == s.(reg := Cleared(s.reg));
    SingleServiceRound(cfg, s.(reg := Cleared(s.reg)), late, t, io);
  }
}
