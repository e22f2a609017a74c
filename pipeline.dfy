/** One processing round of the service processor as pure functions of the
    state before it: extraction of the annotation argument, the per-service
    loop of `processServiceInterfaces`, the candidate loop of `process` and
    the manifest loop of `generateConfigFiles`. The class in module Processor
    runs the same steps imperatively and is proved equal to these functions;
    the lemmas here state what a round does. */
module Pipeline {
  import opened Symbols
  import opened Validation
  import opened BinaryNames
  import opened Manifest
  import opened Aggregation
  import opened Options

  /** Everything a round reads or changes: the two maps, the diagnostics
      reported so far and the files handed to the code generator so far. */
  datatype State = State(reg: Registry, diagnostics: seq<Diagnostic>, written: seq<OutputFile>)

  function Log(s: State, d: Diagnostic): (r: State)
    ensures r.reg == s.reg && r.written == s.written && r.diagnostics == s.diagnostics + [d]
  {
    s.(diagnostics := s.diagnostics + [d])
  }

  // ---- Extraction of the annotation argument (lines 59-112) ----

  datatype Extracted =
    | Skip(error: Diagnostic)
    | Proceed(services: seq<TypeRef>, warning: Option<Diagnostic>)

  /** The service types a candidate asks for, or the error that makes the
      processor skip it. A single class is taken as a one-element list; an
      empty list is reported but still goes on to the service loop. */
  function Extract(c: Candidate): (r: Extracted)
    ensures r.Proceed? <==> c.annotation.Some? && (c.annotation.value.ListValue? || c.annotation.value.SingleValue?)
    ensures c.annotation.None? ==> r == Skip(AnnotationNotLocated(c.info.qualifiedName))
    ensures c.annotation == Some(NullValue) ==> r == Skip(ValueIsNull(c.info.qualifiedName))
    ensures c.annotation == Some(OtherValue) ==> r == Skip(ValueHasWrongType(c.info.qualifiedName))
    ensures r.Proceed? && c.annotation.value.SingleValue? ==> r.services == [c.annotation.value.single]
    ensures r.Proceed? && c.annotation.value.ListValue? ==> r.services == c.annotation.value.types
    ensures r.Proceed? ==> r.warning == if r.services == [] then Some(NoServiceInterfaces(c.info.qualifiedName)) else None
  {
    var name := c.info.qualifiedName;
    match c.annotation
    case None => Skip(AnnotationNotLocated(name))
    case Some(NullValue) => Skip(ValueIsNull(name))
    case Some(OtherValue) => Skip(ValueHasWrongType(name))
    case Some(SingleValue(t)) => Proceed([t], None)
    case Some(ListValue(ts)) => Proceed(ts, if ts == [] then Some(NoServiceInterfaces(name)) else None)
  }

  // ---- processServiceInterfaces (lines 124-162) ----

  /** How the loop over one candidate's service types ends: `false`, `true`,
      or an exception from `require(!isLocal())`. */
  datatype Next = Continue | Defer | Crash

  /** A service type that makes the loop return `true` at once. */
  predicate Defers(verify: bool, impl: Candidate, t: TypeRef)
  {
    t.ErrorType? || (t.decl.Some? && Validate(verify, impl.supertypes) == Deferred)
  }

  /** A service type whose acceptance names a local class. */
  predicate Crashes(verify: bool, impl: Candidate, t: TypeRef)
  {
    t.ResolvedType? && t.decl.Some? && Validate(verify, impl.supertypes) == Valid
    && (t.decl.value.isLocal || impl.info.isLocal)
  }

  predicate Ordinary(verify: bool, impl: Candidate, t: TypeRef)
  {
    !Defers(verify, impl, t) && !Crashes(verify, impl, t)
  }

  /** Accepting a service type: the service's set is created if need be
      (`getOrPut`, keyed by the service's binary name, which is computed
      first), then the implementor is added and its file recorded. Either
      binary name may throw. */
  function Accept(s: State, impl: Candidate, decl: ClassInfo): (r: (State, Next))
    requires s.reg.WellFormed()
    ensures r.0.reg.WellFormed() && r.0.written == s.written && r.0.diagnostics == s.diagnostics
  {
    match BinaryName(decl)
    case None => (s, Crash)
    case Some(service) =>
      var s1 := s.(reg := s.reg.GetOrPut(service));
      match BinaryName(impl.info)
      case None => (s1, Crash)
      case Some(name) => (s1.(reg := s1.reg.Add(service, name, impl.file)), Continue)
  }

  /** One iteration of the loop: an error type defers before anything else is
      looked at; a type without a class declaration is reported; otherwise the
      validation result decides. */
  function InterfaceStep(verify: bool, s: State, impl: Candidate, t: TypeRef): (r: (State, Next))
    requires s.reg.WellFormed()
    ensures r.0.reg.WellFormed() && r.0.written == s.written
  {
    match t
    case ErrorType => (s, Defer)
    case ResolvedType(typeName, None) => (Log(s, ClassDeclarationMissing(typeName)), Continue)
    case ResolvedType(_, Some(decl)) =>
      match Validate(verify, impl.supertypes)
      case Valid => Accept(s, impl, decl)
      case Invalid => (Log(s, DoesNotImplement(impl.info.qualifiedName, decl.qualifiedName)), Continue)
      case Deferred => (s, Defer)
  }

  /** The step defers exactly on the types that make the loop return `true`
      and ends in an exception exactly on the accepted types that name a
      local class. */
  lemma StepNext(verify: bool, s: State, impl: Candidate, t: TypeRef)
    requires s.reg.WellFormed()
    ensures InterfaceStep(verify, s, impl, t).1 == Defer <==> Defers(verify, impl, t)
    ensures InterfaceStep(verify, s, impl, t).1 == Crash <==> Crashes(verify, impl, t)
  {
  }

  /** The loop over a candidate's service types, leaving at the first one
      that defers or crashes. */
  function Interfaces(verify: bool, s: State, impl: Candidate, ts: seq<TypeRef>): (r: (State, Next))
    requires s.reg.WellFormed()
    ensures r.0.reg.WellFormed() && r.0.written == s.written
    decreases |ts|
  {
    if ts == [] then (s, Continue)
    else
      var step := InterfaceStep(verify, s, impl, ts[0]);
      if step.1 == Continue then Interfaces(verify, step.0, impl, ts[1..]) else step
  }

  // ---- The candidate loop of process (lines 54-117) ----

  /** The state of the candidate loop: the processor's state, the declarations
      deferred so far, and whether an exception has left the loop. */
  datatype Pass = Pass(state: State, deferred: seq<Candidate>, crashed: bool)

  /** One iteration of the `forEach`: symbols other than class declarations
      are filtered out; a class is skipped with an error, or its service types
      are processed and it is deferred when that asks for it. */
  function CandidateStep(verify: bool, p: Pass, sym: Symbol): (r: Pass)
    requires p.state.reg.WellFormed() && !p.crashed
    ensures r.state.reg.WellFormed() && r.state.written == p.state.written
  {
    match sym
    case OtherSymbol => p
    case ClassSymbol(c) =>
      match Extract(c)
      case Skip(e) => p.(state := Log(p.state, e))
      case Proceed(ts, w) =>
        var s1 := if w.Some? then Log(p.state, w.value) else p.state;
        var step := Interfaces(verify, s1, c, ts);
        if step.1 == Crash then Pass(step.0, p.deferred, true)
        else Pass(step.0, if step.1 == Defer then p.deferred + [c] else p.deferred, false)
  }

  /** The loop over the annotated symbols; an exception leaves it at once. */
  function Candidates(verify: bool, p: Pass, syms: seq<Symbol>): (r: Pass)
    requires p.state.reg.WellFormed() && !p.crashed
    ensures r.state.reg.WellFormed() && r.state.written == p.state.written
    decreases |syms|
  {
    if syms == [] then p
    else
      var q := CandidateStep(verify, p, syms[0]);
      if q.crashed then q else Candidates(verify, q, syms[1..])
  }

  // ---- generateConfigFiles (lines 164-211) ----

  /** The file written for one service. */
  function ManifestFor(writeComment: bool, reg: Registry, service: string): (r: OutputFile)
    requires service in reg.services
  {
    var impls := reg.services[service];
    OutputFile(PathOf(service), Dependencies(true, SourcesOf(impls, reg.files)), Content(impls, writeComment))
  }

  /** One write attempt: the file, or the report of the I/O error that
      `ioFailures` assigns to its path. */
  function Attempt(writeComment: bool, s: State, service: string, ioFailures: map<string, string>): (r: State)
    requires service in s.reg.services
    ensures r.reg == s.reg
  {
    var path := PathOf(service);
    if path in ioFailures then Log(s, WriteFailed(path, ioFailures[path]))
    else s.(written := s.written + [ManifestFor(writeComment, s.reg, service)])
  }

  /** The loop over the keys; the second component is false when an empty set
      made it `return` before reaching `services.clear()`. */
  function Emit(writeComment: bool, s: State, keys: seq<string>, ioFailures: map<string, string>): (r: (State, bool))
    requires forall i :: 0 <= i < |keys| ==> keys[i] in s.reg.services
    ensures r.0.reg == s.reg
    decreases |keys|
  {
    if keys == [] then (s, true)
    else if s.reg.services[keys[0]] == [] then (s, false)
    else Emit(writeComment, Attempt(writeComment, s, keys[0], ioFailures), keys[1..], ioFailures)
  }

  function GenerateConfigFiles(writeComment: bool, s: State, ioFailures: map<string, string>): (r: State)
    requires s.reg.WellFormed()
    ensures r.reg.files == s.reg.files
  {
    var e := Emit(writeComment, s, s.reg.order, ioFailures);
    if e.1 then e.0.(reg := Cleared(e.0.reg)) else e.0
  }

  // ---- process (lines 39-122) ----

  datatype RoundResult = Completed(deferred: seq<Candidate>) | Crashed

  /** A whole round. `annotationFound` says whether the `@Service` annotation
      class itself resolves; `ioFailures` gives the cause of each write that
      fails. A crash leaves the state as the exception found it. */
  function Round(cfg: Config, s: State, annotationFound: bool, syms: seq<Symbol>, ioFailures: map<string, string>): (r: (State, RoundResult))
    requires s.reg.WellFormed()
  {
    if !annotationFound then (Log(s, ServiceAnnotationMissing), Completed([]))
    else
      var p := Candidates(cfg.verify, Pass(s, [], false), syms);
      if p.crashed then (p.state, Crashed)
      else (GenerateConfigFiles(cfg.writeComment, p.state, ioFailures), Completed(p.deferred))
  }
}
