/** Binary names of classes (section 13.1 of the Java Language Specification):
    the package, a dot, then the enclosing classes and the simple name joined
    by `$`. This is what `toClassName().reflectionName()` produces. */
module BinaryNames {
  import opened Strings
  import opened Symbols

  /** KotlinPoet's `ClassName(pkg, simpleNames).reflectionName()`: the
      top-level class name, qualified by the package unless that is empty,
      then each nested simple name after a `$`. */
  function ReflectionName(pkg: string, simpleNames: seq<string>): (r: string)
  {
    (if pkg == "" then "" else pkg + ".") + Join(simpleNames, "$")
  }

  /** `toBinaryName()`; `None` when `require(!isLocal())` fails, which throws
      out of the processor instead of deferring the declaration. */
  function BinaryName(c: ClassInfo): (r: Option<string>)
    ensures r.None? <==> c.isLocal
  {
    if c.isLocal then None
    else
      var typesString := RemovePrefix(c.qualifiedName, c.pkg + ".");
      Some(ReflectionName(c.pkg, Split(typesString, '.')))
  }

  /** Simple names as the compiler produces them: non-empty, dot-free. */
  predicate SimpleNames(names: seq<string>)
  {
    |names| >= 1 && forall i :: 0 <= i < |names| ==> names[i] != "" && Free(names[i], '.')
  }

  /** A non-local class whose qualified name is its package followed by its
      nesting path gets the package, a dot unless the package is empty, and
      that path joined by `$`. */
  lemma {:induction false} BinaryNameOfNested(pkg: string, simpleNames: seq<string>)
    requires SimpleNames(simpleNames)
    ensures BinaryName(ClassInfo(pkg, (if pkg == "" then "" else pkg + ".") + Join(simpleNames, "."), false))
            == Some((if pkg == "" then "" else pkg + ".") + Join(simpleNames, "$"))
  {
    var path := Join(simpleNames, ".");
    var qn := (if pkg == "" then "" else pkg + ".") + path;
    if pkg == "" {
      JoinHead(simpleNames, ".");
      assert qn == path && pkg + "." == ".";
      assert !("." <= path);
    } else {
      assert (pkg + ".") <= qn;
      assert RemovePrefix(qn, pkg + ".") == path;
    }
    SplitJoin(simpleNames, '.');
  }

  /** A join starts with the first part; used to show a package-less path has
      no leading dot to remove. */
  lemma {:induction false} JoinHead(parts: seq<string>, sep: string)
    requires |parts| >= 1 && parts[0] != ""
    ensures Join(parts, sep) != [] && Join(parts, sep)[0] == parts[0][0]
  {
  }

  /** One level of nesting, the shape of `test.Enclosing.NestedSomeServiceProvider`,
      whose binary name is `test.Enclosing$NestedSomeServiceProvider`. */
  lemma {:induction false} NestedOnce(pkg: string, outer: string, inner: string)
    requires pkg != ""
    requires outer != "" && Free(outer, '.') && inner != "" && Free(inner, '.')
    ensures BinaryName(ClassInfo(pkg, pkg + "." + outer + "." + inner, false))
            == Some(pkg + "." + outer + "$" + inner)
  {
    var names := [outer, inner];
    assert names[1..] == [inner];
    assert Join(names, ".") == outer + "." + inner;
    assert Join(names, "$") == outer + "$" + inner;
    BinaryNameOfNested(pkg, names);
    assert pkg + "." + Join(names, ".") == pkg + "." + outer + "." + inner;
    assert pkg + "." + Join(names, "$") == pkg + "." + outer + "$" + inner;
  }

  /** A top-level class in the default package keeps its name unchanged. */
  lemma {:induction false} DefaultPackage(name: string)
    requires name != "" && Free(name, '.')
    ensures BinaryName(ClassInfo("", name, false)) == Some(name)
  {
    BinaryNameOfNested("", [name]);
    assert "" + Join([name], ".") == name && "" + Join([name], "$") == name;
  }
}
