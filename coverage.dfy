/** Which class ends up in which manifest, over a whole round with
    verification off: a class's binary name is in the manifest of a service
    exactly when its own service loop reaches a type naming that service,
    and no manifest is written for a service no class reaches. */
module Coverage {
  import opened Symbols
  import opened Validation
  import opened BinaryNames
  import opened Manifest
  import opened Aggregation
  import opened Options
  import opened Pipeline
  import opened RoundProperties

  // ---- What a class asks for, from the class alone ----

  /** With verification off, the service loop over `ts` gets as far as type
      `j`: every type before it lets the loop go on. */
  predicate Reaches(c: Candidate, ts: seq<TypeRef>, j: nat)
    requires j <= |ts|
  {
    forall i :: 0 <= i < j ==> Ordinary(false, c, ts[i])
  }

  /** With verification off, the loop over `ts` records the class under
      `service`: it reaches a type whose class is that service, and neither
      that class nor the candidate is local. */
  predicate ClaimsIn(c: Candidate, ts: seq<TypeRef>, service: string)
  {
    exists j: nat :: j < |ts| && Reaches(c, ts, j) && Acceptable(ts[j]) && !c.info.isLocal && ServiceName(ts[j]) == service
  }

  /** The symbol is a class that the round records under `service`. */
  predicate Names(sym: Symbol, service: string)
  {
    sym.ClassSymbol? && Extract(sym.decl).Proceed? && ClaimsIn(sym.decl, Extract(sym.decl).services, service)
  }

  /** The symbol is a class that the round records under `service`, and its
      binary name is `name`. */
  predicate Provides(sym: Symbol, service: string, name: string)
  {
    Names(sym, service) && BinaryName(sym.decl.info) == Some(name)
  }

  /** Claiming over a non-empty list: the first type names the service, or
      it lets the loop go on and a later type names it. */
  lemma ClaimsInCons(c: Candidate, ts: seq<TypeRef>, service: string)
    requires ts != []
    ensures ClaimsIn(c, ts, service)
            <==> (Acceptable(ts[0]) && !c.info.isLocal && ServiceName(ts[0]) == service)
                 || (Ordinary(false, c, ts[0]) && ClaimsIn(c, ts[1..], service))
  {
    var rest := ts[1..];
    if ClaimsIn(c, ts, service) {
      var j: nat :| j < |ts| && Reaches(c, ts, j) && Acceptable(ts[j]) && !c.info.isLocal && ServiceName(ts[j]) == service;
      if j > 0 {
        assert Ordinary(false, c, ts[0]);
        assert rest[j - 1] == ts[j];
        assert Reaches(c, rest, j - 1) by {
          forall i | 0 <= i < j - 1 ensures Ordinary(false, c, rest[i]) {
            assert rest[i] == ts[i + 1];
          }
        }
      }
    }
    if Ordinary(false, c, ts[0]) && ClaimsIn(c, rest, service) {
      var j: nat :| j < |rest| && Reaches(c, rest, j) && Acceptable(rest[j]) && !c.info.isLocal && ServiceName(rest[j]) == service;
      assert ts[j + 1] == rest[j];
      assert Reaches(c, ts, j + 1) by {
        forall i | 0 <= i < j + 1 ensures Ordinary(false, c, ts[i]) {
          if i > 0 {
            assert ts[i] == rest[i - 1];
          }
        }
      }
    }
    if Acceptable(ts[0]) && !c.info.isLocal && ServiceName(ts[0]) == service {
      assert Reaches(c, ts, 0);
    }
  }

  /** The services the loop over `ts` records the class under, following
      the loop type by type. */
  function Claimed(c: Candidate, ts: seq<TypeRef>): (r: set<string>)
    decreases |ts|
  {
    if ts == [] then {}
    else
      (if Acceptable(ts[0]) && !c.info.isLocal then {ServiceName(ts[0])} else {})
      + (if Ordinary(false, c, ts[0]) then Claimed(c, ts[1..]) else {})
  }

  /** The loop-following set agrees with the claim read off the whole list. */
  lemma {:induction false} ClaimedMeaning(c: Candidate, ts: seq<TypeRef>)
    ensures forall k :: k in Claimed(c, ts) <==> ClaimsIn(c, ts, k)
    decreases |ts|
  {
    if ts != [] {
      ClaimedMeaning(c, ts[1..]);
      forall k ensures k in Claimed(c, ts) <==> ClaimsIn(c, ts, k) {
        ClaimsInCons(c, ts, k);
      }
    }
  }

  // ---- The service loop of one class ----

  /** Going from `a` to `b`, the keys added are exactly `claimed`, and `name`
      (when there is one) is added to exactly those sets. */
  ghost predicate Adds(a: Registry, b: Registry, claimed: set<string>, name: Option<string>)
  {
    (forall k :: k in b.services <==> k in a.services || k in claimed)
    && forall k, x :: k in b.services ==>
         (x in Elements(b.services[k])
          <==> (k in a.services && x in Elements(a.services[k])) || (k in claimed && name == Some(x)))
  }

  lemma AddsAt(a: Registry, b: Registry, claimed: set<string>, name: Option<string>, k: string, x: string)
    requires Adds(a, b, claimed, name) && k in b.services
    ensures x in Elements(b.services[k]) <==> (k in a.services && x in Elements(a.services[k])) || (k in claimed && name == Some(x))
  {
  }

  /** Recording `name` under `service` and then adding `rest` adds
      `{service} + rest`. `a1` is the registry after the recording, given by
      the facts `Record` guarantees. */
  lemma RecordThenAdds(a: Registry, a1: Registry, b: Registry, rest: set<string>, service: string, name: string)
    requires a1.services.Keys == a.services.Keys + {service}
    requires Elements(a1.services[service]) == (if service in a.services then Elements(a.services[service]) else {}) + {name}
    requires forall k :: k in a.services && k != service ==> a1.services[k] == a.services[k]
    requires Adds(a1, b, rest, Some(name))
    ensures Adds(a, b, {service} + rest, Some(name))
  {
    forall k | k in b.services
      ensures forall x :: x in Elements(b.services[k])
                <==> (k in a.services && x in Elements(a.services[k])) || (k in {service} + rest && Some(name) == Some(x))
    {
      forall x ensures x in Elements(b.services[k])
                       <==> (k in a1.services && x in Elements(a1.services[k])) || (k in rest && name == x) {
        AddsAt(a1, b, rest, Some(name), k, x);
      }
      if k == service {
        assert forall x :: x in Elements(a1.services[k]) <==> (k in a.services && x in Elements(a.services[k])) || x == name;
      } else if k in a.services {
        assert a1.services[k] == a.services[k];
      } else {
        assert k !in a1.services;
      }
    }
  }

  /** With verification off and no exception, the service loop of one class
      adds exactly the services it claims as keys, and adds the class's
      binary name to exactly those sets. */
  lemma {:induction false} TrustInterfacesRecords(s: State, c: Candidate, ts: seq<TypeRef>)
    requires s.reg.WellFormed() && Interfaces(false, s, c, ts).1 != Crash
    ensures Adds(s.reg, Interfaces(false, s, c, ts).0.reg, Claimed(c, ts), BinaryName(c.info))
    decreases |ts|
  {
    if ts == [] {
      return;
    }
    var rest := ts[1..];
    match ts[0]
    case ErrorType =>
      assert Interfaces(false, s, c, ts) == (s, Defer);
      assert Claimed(c, ts) == {};
    case ResolvedType(n, None) =>
      var s1 := Log(s, ClassDeclarationMissing(n));
      assert Interfaces(false, s, c, ts) == Interfaces(false, s1, c, rest);
      assert Claimed(c, ts) == Claimed(c, rest);
      TrustInterfacesRecords(s1, c, rest);
    case ResolvedType(n, Some(d)) =>
      assert Validate(false, c.supertypes) == Valid;
      assert !d.isLocal && !c.info.isLocal;
      TrustStep(s, c, ts[0]);
      var service, name := ServiceName(ts[0]), BinaryName(c.info).value;
      var s1 := s.(reg := s.reg.Record(service, name, c.file));
      assert Interfaces(false, s, c, ts) == Interfaces(false, s1, c, rest);
      assert Claimed(c, ts) == {service} + Claimed(c, rest);
      TrustInterfacesRecords(s1, c, rest);
      RecordThenAdds(s.reg, s1.reg, Interfaces(false, s, c, ts).0.reg, Claimed(c, rest), service, name);
  }

  // ---- The candidate loop ----

  /** The services one symbol is recorded under this round. */
  function SymbolClaims(sym: Symbol): (r: set<string>)
  {
    if sym.ClassSymbol? && Extract(sym.decl).Proceed? then Claimed(sym.decl, Extract(sym.decl).services) else {}
  }

  /** The (service, binary name) pairs one symbol contributes this round. */
  function SymbolPairs(sym: Symbol): (r: set<(string, string)>)
  {
    if sym.ClassSymbol? && BinaryName(sym.decl.info).Some?
    then set k | k in SymbolClaims(sym) :: (k, BinaryName(sym.decl.info).value)
    else {}
  }

  function AllClaims(syms: seq<Symbol>): (r: set<string>)
    decreases |syms|
  {
    if syms == [] then {} else SymbolClaims(syms[0]) + AllClaims(syms[1..])
  }

  function AllPairs(syms: seq<Symbol>): (r: set<(string, string)>)
    decreases |syms|
  {
    if syms == [] then {} else SymbolPairs(syms[0]) + AllPairs(syms[1..])
  }

  /** Going from `a` to `b`, the keys added are exactly `keys`, and the
      elements added are exactly those `pairs` gives for each key. */
  ghost predicate AddsPairs(a: Registry, b: Registry, keys: set<string>, pairs: set<(string, string)>)
  {
    (forall q :: q in pairs ==> q.0 in keys)
    && (forall k :: k in b.services <==> k in a.services || k in keys)
    && forall k, x :: k in b.services ==>
         (x in Elements(b.services[k]) <==> (k in a.services && x in Elements(a.services[k])) || (k, x) in pairs)
  }

  lemma AddsPairsAt(a: Registry, b: Registry, keys: set<string>, pairs: set<(string, string)>, k: string, x: string)
    requires AddsPairs(a, b, keys, pairs) && k in b.services
    ensures x in Elements(b.services[k]) <==> (k in a.services && x in Elements(a.services[k])) || (k, x) in pairs
  {
  }

  lemma AddsAsPairs(a: Registry, b: Registry, keys: set<string>, name: Option<string>)
    requires Adds(a, b, keys, name)
    ensures AddsPairs(a, b, keys, if name.Some? then set k | k in keys :: (k, name.value) else {})
  {
    var pairs := if name.Some? then set k | k in keys :: (k, name.value) else {};
    forall k, x | k in b.services
      ensures x in Elements(b.services[k]) <==> (k in a.services && x in Elements(a.services[k])) || (k, x) in pairs
    {
      AddsAt(a, b, keys, name, k, x);
      if name.Some? && k in keys && name.value == x {
        assert (k, x) in pairs;
      }
    }
  }

  /** Adding in two steps adds the union. */
  lemma AddsPairsTrans(a: Registry, b: Registry, c: Registry, k1: set<string>, p1: set<(string, string)>,
                       k2: set<string>, p2: set<(string, string)>)
    requires AddsPairs(a, b, k1, p1) && AddsPairs(b, c, k2, p2)
    ensures AddsPairs(a, c, k1 + k2, p1 + p2)
  {
    forall k, x | k in c.services
      ensures x in Elements(c.services[k]) <==> (k in a.services && x in Elements(a.services[k])) || (k, x) in p1 + p2
    {
      AddsPairsAt(b, c, k2, p2, k, x);
      if k in b.services {
        AddsPairsAt(a, b, k1, p1, k, x);
      } else {
        assert (k, x) !in p1;
      }
    }
  }

  /** With verification off, one symbol that does not throw adds its own
      claims and pairs. */
  lemma TrustStepRecords(p: Pass, sym: Symbol)
    requires p.state.reg.WellFormed() && !p.crashed && !CandidateStep(false, p, sym).crashed
    ensures AddsPairs(p.state.reg, CandidateStep(false, p, sym).state.reg, SymbolClaims(sym), SymbolPairs(sym))
  {
    if sym.ClassSymbol? && Extract(sym.decl).Proceed? {
      var c := sym.decl;
      var w := Extract(c).warning;
      var s1 := if w.Some? then Log(p.state, w.value) else p.state;
      TrustInterfacesRecords(s1, c, Extract(c).services);
      AddsAsPairs(p.state.reg, CandidateStep(false, p, sym).state.reg, SymbolClaims(sym), BinaryName(c.info));
    } else {
      assert SymbolClaims(sym) == {} && SymbolPairs(sym) == {};
    }
  }

  /** With verification off, a candidate loop that does not throw adds
      exactly the claims and pairs of its symbols. */
  lemma {:induction false} TrustCandidatesRecords(p: Pass, syms: seq<Symbol>)
    requires p.state.reg.WellFormed() && !p.crashed && !Candidates(false, p, syms).crashed
    ensures AddsPairs(p.state.reg, Candidates(false, p, syms).state.reg, AllClaims(syms), AllPairs(syms))
    decreases |syms|
  {
    if syms != [] {
      var q := CandidateStep(false, p, syms[0]);
      assert !q.crashed;
      TrustStepRecords(p, syms[0]);
      TrustCandidatesRecords(q, syms[1..]);
      AddsPairsTrans(p.state.reg, q.state.reg, Candidates(false, p, syms).state.reg,
                     SymbolClaims(syms[0]), SymbolPairs(syms[0]), AllClaims(syms[1..]), AllPairs(syms[1..]));
    }
  }

  // ---- From the loop-following sets to the reference definitions ----

  lemma SymbolMeaning(sym: Symbol)
    ensures forall k :: k in SymbolClaims(sym) <==> Names(sym, k)
    ensures forall k, x :: (k, x) in SymbolPairs(sym) <==> Provides(sym, k, x)
  {
    if sym.ClassSymbol? && Extract(sym.decl).Proceed? {
      ClaimedMeaning(sym.decl, Extract(sym.decl).services);
    }
  }

  lemma {:induction false} AllMeaning(syms: seq<Symbol>)
    ensures forall k :: k in AllClaims(syms) <==> exists i :: 0 <= i < |syms| && Names(syms[i], k)
    ensures forall k, x :: (k, x) in AllPairs(syms) <==> exists i :: 0 <= i < |syms| && Provides(syms[i], k, x)
    decreases |syms|
  {
    if syms != [] {
      var rest := syms[1..];
      SymbolMeaning(syms[0]);
      AllMeaning(rest);
      assert forall i :: 0 <= i < |rest| ==> rest[i] == syms[i + 1];
      forall k ensures (exists i :: 0 <= i < |syms| && Names(syms[i], k))
                       <==> Names(syms[0], k) || exists i :: 0 <= i < |rest| && Names(rest[i], k) {
        if exists i :: 0 <= i < |syms| && Names(syms[i], k) {
          var i :| 0 <= i < |syms| && Names(syms[i], k);
          if i > 0 {
            assert Names(rest[i - 1], k);
          }
        }
      }
      forall k, x ensures (exists i :: 0 <= i < |syms| && Provides(syms[i], k, x))
                          <==> Provides(syms[0], k, x) || exists i :: 0 <= i < |rest| && Provides(rest[i], k, x) {
        if exists i :: 0 <= i < |syms| && Provides(syms[i], k, x) {
          var i :| 0 <= i < |syms| && Provides(syms[i], k, x);
          if i > 0 {
            assert Provides(rest[i - 1], k, x);
          }
        }
      }
    }
  }

  // ---- A whole round ----

  /** Some class of the round asks for `service` and gets that far. */
  predicate Requested(syms: seq<Symbol>, service: string)
  {
    exists i :: 0 <= i < |syms| && Names(syms[i], service)
  }

  /** The manifest `f` declares, once each, exactly the classes of the round
      recorded under `service`. */
  ghost predicate ListsExactly(syms: seq<Symbol>, service: string, f: OutputFile)
  {
    NoDup(ProviderNames(f.content))
    && forall x :: x in ProviderNames(f.content) <==> exists i :: 0 <= i < |syms| && Provides(syms[i], service, x)
  }

  /** Binary names as the compiler produces them can be read back from a
      manifest line: no blank and no `#`. */
  predicate NamesReadable(syms: seq<Symbol>)
  {
    forall i :: 0 <= i < |syms| && syms[i].ClassSymbol? && BinaryName(syms[i].decl.info).Some?
      ==> ProviderName(BinaryName(syms[i].decl.info).value)
  }

  /** The manifest of one recorded service, read back. */
  lemma ManifestOfKey(wc: bool, reg: Registry, syms: seq<Symbol>, service: string)
    requires reg.Valid() && service in reg.services && NamesReadable(syms)
    requires forall x :: x in Elements(reg.services[service]) <==> exists i :: 0 <= i < |syms| && Provides(syms[i], service, x)
    ensures ManifestFor(wc, reg, service).path == PathOf(service)
    ensures ListsExactly(syms, service, ManifestFor(wc, reg, service))
  {
    var impls := reg.services[service];
    forall j | 0 <= j < |impls| ensures ProviderName(impls[j]) {
      assert impls[j] in Elements(impls);
      var i :| 0 <= i < |syms| && Provides(syms[i], service, impls[j]);
    }
    ManifestForLoadsBack(wc, reg, service);
    forall x ensures x in ProviderNames(ManifestFor(wc, reg, service).content) <==> x in Elements(impls) {
    }
  }

  /** The manifests written for a valid registry whose keys are exactly the
      requested services and whose sets hold exactly the recorded classes. */
  lemma EmittedCoverage(wc: bool, reg: Registry, syms: seq<Symbol>, io: map<string, string>)
    requires reg.Valid() && NamesReadable(syms)
    requires forall k :: k in reg.services <==> Requested(syms, k)
    requires forall k, x :: k in reg.services ==>
               (x in Elements(reg.services[k]) <==> exists i :: 0 <= i < |syms| && Provides(syms[i], k, x))
    ensures forall k :: Requested(syms, k) && PathOf(k) !in io ==>
              exists f :: f in Written(wc, reg, reg.order, io) && f.path == PathOf(k) && ListsExactly(syms, k, f)
    ensures forall f :: f in Written(wc, reg, reg.order, io) ==>
              exists k :: f.path == PathOf(k) && PathOf(k) !in io && Requested(syms, k) && ListsExactly(syms, k, f)
  {
    assert forall k :: k in reg.order <==> k in Elements(reg.order);
    WrittenFiles(wc, reg, reg.order, io);
    forall k | k in reg.services
      ensures ManifestFor(wc, reg, k).path == PathOf(k) && ListsExactly(syms, k, ManifestFor(wc, reg, k))
    {
      ManifestOfKey(wc, reg, syms, k);
    }
  }

  /** A round with verification off that starts from empty maps and does
      not throw: for every service some class asks for and gets to, a
      manifest is written at its path (unless the write fails) declaring
      exactly the classes recorded under it; and every manifest written is
      such a one, so no class appears in the manifest of a service it does
      not reach, and no manifest exists for a service no class reaches. */
  /** With verification off, the registry a whole round of symbols leaves
      behind holds, under each requested service, exactly the binary names of
      the classes that provide it. */
  lemma TrustRoundRegistry(s: State, syms: seq<Symbol>)
    requires s.reg.WellFormed() && s.reg.services == map[] && !AnyCrash(false, syms)
    ensures var p := Candidates(false, Pass(s, [], false), syms);
            !p.crashed && p.deferred == DeferredOf(false, syms) && p.state.written == s.written && p.state.reg.Valid()
    ensures var reg := Candidates(false, Pass(s, [], false), syms).state.reg;
            forall k :: k in reg.services <==> Requested(syms, k)
    ensures var reg := Candidates(false, Pass(s, [], false), syms).state.reg;
            forall k, x :: k in reg.services ==>
              (x in Elements(reg.services[k]) <==> exists i :: 0 <= i < |syms| && Provides(syms[i], k, x))
  {
    var p0 := Pass(s, [], false);
    CandidatesCrash(false, p0, syms);
    CandidatesDeferred(false, p0, syms);
    CandidatesValid(false, p0, syms);
    var reg := Candidates(false, p0, syms).state.reg;
    TrustCandidatesRecords(p0, syms);
    AllMeaning(syms);
    forall k, x | k in reg.services
      ensures x in Elements(reg.services[k]) <==> exists i :: 0 <= i < |syms| && Provides(syms[i], k, x)
    {
      AddsPairsAt(s.reg, reg, AllClaims(syms), AllPairs(syms), k, x);
    }
  }

  lemma RoundCoverage(cfg: Config, s: State, syms: seq<Symbol>, io: map<string, string>)
    requires !cfg.verify && s.reg.WellFormed() && s.reg.services == map[]
    requires !AnyCrash(false, syms) && NamesReadable(syms)
    ensures Round(cfg, s, true, syms, io).1 == Completed(DeferredOf(false, syms))
    ensures |Round(cfg, s, true, syms, io).0.written| >= |s.written|
    ensures Round(cfg, s, true, syms, io).0.written[..|s.written|] == s.written
    ensures forall k :: Requested(syms, k) && PathOf(k) !in io ==>
              exists f :: f in Round(cfg, s, true, syms, io).0.written[|s.written|..] && f.path == PathOf(k) && ListsExactly(syms, k, f)
    ensures forall f :: f in Round(cfg, s, true, syms, io).0.written[|s.written|..] ==>
              exists k :: f.path == PathOf(k) && PathOf(k) !in io && Requested(syms, k) && ListsExactly(syms, k, f)
  {
    TrustRoundRegistry(s, syms);
    var p := Candidates(false, Pass(s, [], false), syms);
    var reg := p.state.reg;
    RoundOfPass(cfg, s, syms, io);
    GenerateConfigFilesClears(cfg.writeComment, p.state, io);
    var w := Written(cfg.writeComment, reg, reg.order, io);
    assert Round(cfg, s, true, syms, io).0.written == s.written + w;
    assert (s.written + w)[..|s.written|] == s.written && (s.written + w)[|s.written|..] == w;
    EmittedCoverage(cfg.writeComment, reg, syms, io);
  }
}
