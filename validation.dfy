/** `failsServiceValidation`: whether an annotated class may be registered for
    one of its service types. */
module Validation {
  import opened Symbols

  datatype ValidationResult = Valid | Invalid | Deferred

  predicate HasErrorType(types: seq<TypeRef>)
  {
    exists i :: 0 <= i < |types| && types[i].ErrorType?
  }

  /** The check as the code has it. Without `verify` every pair is valid and
      the supertypes are never looked at. With `verify` the assignability test
      is evaluated but its `VALID` is discarded (no `return`), so the answer is
      `Deferred` when some supertype is unresolved and `Invalid` otherwise. */
  function Validate(verify: bool, supertypes: seq<TypeRef>): (r: ValidationResult)
  {
    if !verify then Valid
    else if HasErrorType(supertypes) then Deferred
    else Invalid
  }

  /** Trust mode accepts every pair, whatever the supertypes are. */
  lemma TrustModeAcceptsAll(s1: seq<TypeRef>, s2: seq<TypeRef>)
    ensures Validate(false, s1) == Valid && Validate(false, s1) == Validate(false, s2)
  {
  }

  /** With verification on, no pair is ever accepted; a pair is deferred
      exactly when some supertype is unresolved. */
  lemma VerifyNeverAccepts(supertypes: seq<TypeRef>)
    ensures Validate(true, supertypes) != Valid
    ensures Validate(true, supertypes) == Deferred <==> HasErrorType(supertypes)
    ensures Validate(true, supertypes) == Invalid <==> forall i :: 0 <= i < |supertypes| ==> supertypes[i].ResolvedType?
  {
  }
}
