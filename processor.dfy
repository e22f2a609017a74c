/** The processor object itself: its options, its two maps (kept for the
    lifetime of the processor, across rounds), the logger it reports to and
    the code generator it writes through. Each method runs the loop of the
    corresponding Kotlin function and is proved to end in the state that the
    functions of module Pipeline compute. */
module Processor {
  import opened Symbols
  import opened Validation
  import opened BinaryNames
  import opened Manifest
  import opened Aggregation
  import opened Options
  import opened Pipeline

  class ServiceProcessor {
    const verify: bool
    const writeComment: bool
    const verbose: bool

    /** The keys of `services` in insertion order. */
    var order: seq<string>
    var services: map<string, seq<string>>
    var serviceFiles: map<string, string>
    /** What has been reported to the logger, oldest first. */
    var diagnostics: seq<Diagnostic>
    /** The files created through the code generator, oldest first. */
    var written: seq<OutputFile>

    function Snapshot(): (r: State)
      reads this
    {
      State(Registry(order, services, serviceFiles), diagnostics, written)
    }

    function Settings(): (r: Config)
      reads this
    {
      Config(verify, writeComment, verbose)
    }

    predicate Valid()
      reads this
    {
      Snapshot().reg.WellFormed()
    }

    /** The options are read once, when the processor is created. */
    constructor(options: map<string, string>)
      ensures Valid() && Settings() == ConfigOf(options)
      ensures Snapshot() == State(Empty, [], [])
    {
      var cfg := ConfigOf(options);
      verify, writeComment, verbose := cfg.verify, cfg.writeComment, cfg.verbose;
      order, services, serviceFiles := [], map[], map[];
      diagnostics, written := [], [];
    }

    /** `process`: one round over the annotated symbols. */
    method Process(annotationFound: bool, symbols: seq<Symbol>, ioFailures: map<string, string>) returns (result: RoundResult)
      requires Valid()
      modifies this
      ensures Valid()
      ensures (Snapshot(), result) == Round(Settings(), old(Snapshot()), annotationFound, symbols, ioFailures)
    {
      if !annotationFound {
        diagnostics := diagnostics + [ServiceAnnotationMissing];
        return Completed([]);
      }
      ghost var start := Snapshot();
      var deferredDeclarations: seq<Candidate> := [];
      var i := 0;
      while i < |symbols|
        invariant 0 <= i <= |symbols| && Valid()
        invariant Candidates(verify, Pass(start, [], false), symbols)
                  == Candidates(verify, Pass(Snapshot(), deferredDeclarations, false), symbols[i..])
      {
        ghost var before := Pass(Snapshot(), deferredDeclarations, false);
        assert symbols[i..][1..] == symbols[i + 1..];
        match symbols[i] {
          case OtherSymbol =>
          case ClassSymbol(c) =>
            var extracted := Extract(c);
            match extracted {
              case Skip(e) =>
                diagnostics := diagnostics + [e];
              case Proceed(ts, w) =>
                if w.Some? {
                  diagnostics := diagnostics + [w.value];
                }
                var next := ProcessServiceInterfaces(c, ts);
                if next == Crash {
                  assert Pass(Snapshot(), deferredDeclarations, true) == CandidateStep(verify, before, symbols[i]);
                  return Crashed;
                }
                if next == Defer {
                  deferredDeclarations := deferredDeclarations + [c];
                }
            }
        }
        assert Pass(Snapshot(), deferredDeclarations, false) == CandidateStep(verify, before, symbols[i]);
        i := i + 1;
      }
      GenerateConfigFiles(ioFailures);
      return Completed(deferredDeclarations);
    }

    /** `processServiceInterfaces`: `Defer` is the Kotlin `true`, `Crash` the
        exception thrown by `require(!isLocal())`. */
    method ProcessServiceInterfaces(impl: Candidate, serviceInterfaces: seq<TypeRef>) returns (next: Next)
      requires Valid()
      modifies this
      ensures Valid()
      ensures (Snapshot(), next) == Interfaces(verify, old(Snapshot()), impl, serviceInterfaces)
    {
      ghost var start := Snapshot();
      var i := 0;
      while i < |serviceInterfaces|
        invariant 0 <= i <= |serviceInterfaces| && Valid()
        invariant Interfaces(verify, start, impl, serviceInterfaces) == Interfaces(verify, Snapshot(), impl, serviceInterfaces[i..])
      {
        var serviceInterface := serviceInterfaces[i];
        ghost var before := Snapshot();
        assert serviceInterfaces[i..][1..] == serviceInterfaces[i + 1..];
        match serviceInterface {
          case ErrorType =>
            return Defer;
          case ResolvedType(typeName, None) =>
            diagnostics := diagnostics + [ClassDeclarationMissing(typeName)];
          case ResolvedType(_, Some(serviceDeclaration)) =>
            var validation := Validate(verify, impl.supertypes);
            match validation {
              case Valid =>
                next := Accept(impl, serviceDeclaration);
                if next == Crash {
                  return;
                }
              case Invalid =>
                diagnostics := diagnostics + [DoesNotImplement(impl.info.qualifiedName, serviceDeclaration.qualifiedName)];
              case Deferred =>
                return Defer;
            }
        }
        assert (Snapshot(), Continue) == InterfaceStep(verify, before, impl, serviceInterface);
        i := i + 1;
      }
      return Continue;
    }

    /** The `VALID` branch of `processServiceInterfaces` (lines 139-145). */
    method Accept(impl: Candidate, serviceDeclaration: ClassInfo) returns (next: Next)
      requires Valid()
      modifies this
      ensures Valid()
      ensures (Snapshot(), next) == Pipeline.Accept(old(Snapshot()), impl, serviceDeclaration)
    {
      var serviceName := BinaryName(serviceDeclaration);
      if serviceName.None? {
        return Crash;
      }
      var key := serviceName.value;
      if key !in services {
        order := order + [key];
        services := services[key := []];
      }
      var implName := BinaryName(impl.info);
      if implName.None? {
        return Crash;
      }
      var serviceImplementors := services[key];
      if implName.value !in serviceImplementors {
        serviceImplementors := serviceImplementors + [implName.value];
      }
      services := services[key := serviceImplementors];
      serviceFiles := serviceFiles[implName.value := impl.file];
      return Continue;
    }

    /** `generateConfigFiles`: one file per service, in key order; an I/O
        error is reported and the loop goes on; an empty set leaves the
        function before `services.clear()`. */
    method GenerateConfigFiles(ioFailures: map<string, string>)
      requires Valid()
      modifies this
      ensures Valid()
      ensures Snapshot() == Pipeline.GenerateConfigFiles(writeComment, old(Snapshot()), ioFailures)
    {
      ghost var start := Snapshot();
      var keys := order;
      var i := 0;
      while i < |keys|
        invariant 0 <= i <= |keys| && order == keys && services == start.reg.services
        invariant serviceFiles == start.reg.files
        invariant Emit(writeComment, start, keys, ioFailures) == Emit(writeComment, Snapshot(), keys[i..], ioFailures)
      {
        var serviceInterface := keys[i];
        ghost var before := Snapshot();
        assert keys[i..][1..] == keys[i + 1..];
        var resourceFile := PathOf(serviceInterface);
        var serviceImplementors := services[serviceInterface];
        var sources := SourcesOf(serviceImplementors, serviceFiles);
        if serviceImplementors == [] {
          return;
        }
        if resourceFile in ioFailures {
          diagnostics := diagnostics + [WriteFailed(resourceFile, ioFailures[resourceFile])];
        } else {
          written := written + [OutputFile(resourceFile, Dependencies(true, sources), Content(serviceImplementors, writeComment))];
        }
        assert Snapshot() == Attempt(writeComment, before, serviceInterface, ioFailures);
        i := i + 1;
      }
      order, services := [], map[];
    }
  }
}
