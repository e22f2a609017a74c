/** The processor's two process-lifetime maps: `services` (service binary name
    to the set of implementor binary names) and `serviceFiles` (implementor
    binary name to its source file). Both Kotlin collections keep insertion
    order (`LinkedHashMap`, `LinkedHashSet`), and the manifests follow it, so a
    set is a duplicate-free sequence and the map's key order is kept alongside. */
module Aggregation {

  predicate NoDup(s: seq<string>)
  {
    forall i, j :: 0 <= i < j < |s| ==> s[i] != s[j]
  }

  function Elements(s: seq<string>): (r: set<string>)
  {
    set x | x in s
  }

  datatype Registry = Registry(
    order: seq<string>,                  // keys of `services`, in insertion order
    services: map<string, seq<string>>,
    files: map<string, string>)
  {
    /** The shape of an insertion-ordered map. */
    predicate WellFormed()
    {
      NoDup(order) && services.Keys == Elements(order)
    }

    /** Between two steps of a round: every set has been added to right after
        it was created, and a set never holds an element twice. */
    predicate Valid()
    {
      WellFormed() && forall k :: k in services ==> services[k] != [] && NoDup(services[k])
    }

    /** `services.getOrPut(service) { mutableSetOf() }`, without the set it returns. */
    function GetOrPut(service: string): (r: Registry)
      requires WellFormed()
      ensures r.WellFormed() && service in r.services && r.files == files
      ensures r.order == if service in services then order else order + [service]
      ensures r.services.Keys == services.Keys + {service}
      ensures service in services ==> r == this
      ensures service !in services ==> r.services[service] == []
      ensures forall k :: k in services ==> k in r.services && r.services[k] == services[k]
    {
      if service in services then this
      else Registry(order + [service], services[service := []], files)
    }

    /** `serviceImplementors += impl` on the set of `service`, then
        `serviceFiles[impl] = file`. */
    function Add(service: string, impl: string, file: string): (r: Registry)
      requires service in services
      ensures r.order == order && r.services.Keys == services.Keys
      ensures r.services[service] == if impl in services[service] then services[service] else services[service] + [impl]
      ensures Elements(r.services[service]) == Elements(services[service]) + {impl}
      ensures NoDup(services[service]) ==> NoDup(r.services[service])
      ensures forall k :: k in services && k != service ==> r.services[k] == services[k]
      ensures r.files == files[impl := file]
    {
      var set0 := services[service];
      Registry(order, services[service := if impl in set0 then set0 else set0 + [impl]], files[impl := file])
    }

    /** Accepting one (service, implementor) pair (lines 140-144). */
    function Record(service: string, impl: string, file: string): (r: Registry)
      requires WellFormed()
      ensures r.WellFormed() && r.files == files[impl := file]
      ensures r.order == if service in services then order else order + [service]
      ensures r.services.Keys == services.Keys + {service}
      ensures r.services[service]
              == var set0 := if service in services then services[service] else [];
                 if impl in set0 then set0 else set0 + [impl]
      ensures Elements(r.services[service]) == (if service in services then Elements(services[service]) else {}) + {impl}
      ensures forall k :: k in services && k != service ==> r.services[k] == services[k]
      ensures Valid() ==> r.Valid()
    {
      GetOrPut(service).Add(service, impl, file)
    }
  }

  const Empty := Registry([], map[], map[])

  /** `services.clear()`: the source files stay. */
  function Cleared(r: Registry): (c: Registry)
    ensures c.Valid() && c.services == map[] && c.files == r.files
  {
    Registry([], map[], r.files)
  }

  /** Recording a pair that is already there changes nothing. */
  lemma RecordIdempotent(r: Registry, service: string, impl: string, file: string)
    requires r.WellFormed()
    ensures r.Record(service, impl, file).Record(service, impl, file) == r.Record(service, impl, file)
  {
    var once := r.Record(service, impl, file);
    assert impl in Elements(once.services[service]);
    assert once.GetOrPut(service) == once;
    var twice := once.Add(service, impl, file);
    assert twice.services[service] == once.services[service];
    assert twice.services == once.services;
    assert twice.files == once.files;
  }

  /** The pair is there after recording it, and a set never grows twice for
      the same implementor. */
  lemma RecordTwiceSize(r: Registry, service: string, impl: string, file: string)
    requires r.Valid() && service !in r.services
    ensures r.Record(service, impl, file).services[service] == [impl]
    ensures r.Record(service, impl, file).Record(service, impl, file).services[service] == [impl]
  {
    RecordIdempotent(r, service, impl, file);
  }
}
