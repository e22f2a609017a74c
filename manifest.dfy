/** One generated provider-configuration file, in the format `java.util.ServiceLoader`
    reads: one binary name per line, `#` starting a comment, blanks around a
    name and blank lines ignored. */
module Manifest {
  import opened Strings

  /** `n` comment characters. */
  function Hashes(n: nat): (r: string)
    ensures |r| == n && forall i :: 0 <= i < n ==> r[i] == '#'
  {
    if n == 0 then "" else "#" + Hashes(n - 1)
  }

  const RuleWidth: nat := 51
  /** The banner rule: a line of `#` characters. */
  const Rule: string := Hashes(RuleWidth)
  /** The banner title, "## Generated by KSP Service Annotation processor ##",
      written in pieces short enough to be checked character by character. */
  const Title: string := "## Generated " + "by KSP Service" + (" Annotation " + "processor ##")
  /** The three banner lines as the raw string in the source yields them after
      `trimIndent()`: no leading and no trailing newline. */
  const Banner := Rule + "\n" + Title + "\n" + Rule

  const ServicesDir := "META-INF/services/"

  /** The resource path of the manifest for one service. */
  function PathOf(service: string): (p: string)
    ensures |p| == |ServicesDir| + |service| && p[..|ServicesDir|] == ServicesDir && p[|ServicesDir|..] == service
  {
    ServicesDir + service
  }

  /** The build dependencies of a generated file: `Dependencies(aggregating, *sources)`. */
  datatype Dependencies = Dependencies(aggregating: bool, sources: seq<string>)

  /** A file handed to the code generator. */
  datatype OutputFile = OutputFile(path: string, deps: Dependencies, content: string)

  /** What the writer receives: the banner and a newline (`appendLine`), then
      the names joined by newlines, then a newline and the closing rule; with
      the banner off, only the joined names. */
  function Content(implementors: seq<string>, writeComment: bool): (r: string)
  {
    if writeComment then Banner + "\n" + Join(implementors, "\n") + "\n" + Rule
    else Join(implementors, "\n")
  }

  /** `serviceImplementors.mapNotNull { serviceFiles[it] }`: the source file of
      each implementor that has one, in implementor order. */
  function SourcesOf(implementors: seq<string>, files: map<string, string>): (r: seq<string>)
    ensures |r| <= |implementors|
    ensures forall f :: f in r <==> exists i :: 0 <= i < |implementors| && implementors[i] in files && files[implementors[i]] == f
    ensures (forall i :: 0 <= i < |implementors| ==> implementors[i] in files) ==> |r| == |implementors|
    decreases |implementors|
  {
    if implementors == [] then []
    else
      var rest := SourcesOf(implementors[1..], files);
      assert forall i :: 0 < i < |implementors| ==> implementors[i] == implementors[1..][i - 1];
      if implementors[0] in files then [files[implementors[0]]] + rest else rest
  }

  // ---- Reading a manifest back the way ServiceLoader does ----

  /** The part of a line before its first `#`. */
  function StripComment(line: string): (r: string)
    decreases |line|
  {
    if line == [] || line[0] == '#' then [] else [line[0]] + StripComment(line[1..])
  }

  function TrimStart(s: string): (r: string)
    decreases |s|
  {
    if s != [] && s[0] <= ' ' then TrimStart(s[1..]) else s
  }

  function TrimEnd(s: string): (r: string)
    decreases |s|
  {
    if s != [] && s[|s| - 1] <= ' ' then TrimEnd(s[..|s| - 1]) else s
  }

  /** The name a line declares, or "" for a blank or comment line. */
  function Entry(line: string): (r: string)
  {
    TrimEnd(TrimStart(StripComment(line)))
  }

  /** The names the lines declare, in order. */
  function Entries(lines: seq<string>): (r: seq<string>)
    decreases |lines|
  {
    if lines == [] then []
    else (if Entry(lines[0]) == "" then [] else [Entry(lines[0])]) + Entries(lines[1..])
  }

  /** The provider names a manifest's content declares. */
  function ProviderNames(content: string): (r: seq<string>)
  {
    Entries(Split(content, '\n'))
  }

  /** A name that a manifest line carries unchanged: non-empty, no blank or
      control characters (so no line break) and no comment character. */
  predicate ProviderName(n: string)
  {
    n != [] && forall i :: 0 <= i < |n| ==> n[i] > ' ' && n[i] != '#'
  }

  lemma {:induction false} StripCommentKeeps(n: string)
    requires forall i :: 0 <= i < |n| ==> n[i] != '#'
    ensures StripComment(n) == n
  {
    if n != [] {
      StripCommentKeeps(n[1..]);
      assert [n[0]] + n[1..] == n;
    }
  }

  lemma EntryOfName(n: string)
    requires ProviderName(n)
    ensures Entry(n) == n
  {
    StripCommentKeeps(n);
  }

  lemma {:induction false} EntriesAppend(a: seq<string>, b: seq<string>)
    ensures Entries(a + b) == Entries(a) + Entries(b)
  {
    if a == [] {
      assert a + b == b;
    } else {
      var h := if Entry(a[0]) == "" then [] else [Entry(a[0])];
      assert (a + b)[0] == a[0] && (a + b)[1..] == a[1..] + b;
      assert Entries(a + b) == h + Entries(a[1..] + b);
      assert Entries(a) == h + Entries(a[1..]);
      EntriesAppend(a[1..], b);
      assert h + (Entries(a[1..]) + Entries(b)) == (h + Entries(a[1..])) + Entries(b);
    }
  }

  lemma {:induction false} EntriesOfNames(names: seq<string>)
    requires forall i :: 0 <= i < |names| ==> ProviderName(names[i])
    ensures Entries(names) == names
  {
    if names != [] {
      EntryOfName(names[0]);
      EntriesOfNames(names[1..]);
      assert [names[0]] + names[1..] == names;
    }
  }

  lemma FreeAppend(a: string, b: string, c: char)
    requires Free(a, c) && Free(b, c)
    ensures Free(a + b, c)
  {
    assert forall i :: |a| <= i < |a + b| ==> (a + b)[i] == b[i - |a|];
  }

  /** The rule is 51 `#` characters, a comment line. */
  lemma RuleLine()
    ensures |Rule| == 51 && forall i :: 0 <= i < |Rule| ==> Rule[i] == '#'
    ensures Free(Rule, '\n') && Entry(Rule) == ""
  {
  }

  /** The title is a comment line. */
  lemma TitleLine()
    ensures Free(Title, '\n') && Entry(Title) == ""
  {
    var a, b, c, d := "## Generated ", "by KSP Service", " Annotation ", "processor ##";
    assert Free(a, '\n') && Free(b, '\n') && Free(c, '\n') && Free(d, '\n');
    FreeAppend(a, b, '\n');
    FreeAppend(c, d, '\n');
    FreeAppend(a + b, c + d, '\n');
    assert Title[0] == a[0];
  }

  /** The lines of the body: the names themselves, or one empty line. */
  lemma BodyLines(names: seq<string>)
    requires forall i :: 0 <= i < |names| ==> ProviderName(names[i])
    ensures Entries(Split(Join(names, "\n"), '\n')) == names
  {
    if names == [] {
      assert Split(Join(names, "\n"), '\n') == [""];
    } else {
      assert forall i :: 0 <= i < |names| ==> Free(names[i], '\n');
      assert "\n" == ['\n'];
      SplitJoin(names, '\n');
      EntriesOfNames(names);
    }
  }

  /** Five single lines around a body split into those lines and the body's. */
  lemma {:induction false} FramedLines(r: string, t: string, body: string)
    requires Free(r, '\n') && Free(t, '\n')
    ensures Split(r + "\n" + t + "\n" + r + "\n" + body + "\n" + r, '\n')
            == [r, t, r] + Split(body, '\n') + [r]
  {
    var nl := '\n';
    assert "\n" == [nl];
    SplitFree(r, nl);
    SplitFree(t, nl);
    SplitAppend(r + [nl] + t + [nl] + r + [nl] + body, nl, r);
    SplitAppend(r + [nl] + t + [nl] + r, nl, body);
    SplitAppend(r + [nl] + t, nl, r);
    SplitAppend(r, nl, t);
  }

  /** With the banner, the lines are the three banner lines, the lines of the
      banner-free content and the closing rule. */
  lemma CommentedLines(names: seq<string>)
    ensures Split(Content(names, true), '\n')
            == [Rule, Title, Rule] + Split(Content(names, false), '\n') + [Rule]
  {
    RuleLine();
    TitleLine();
    FramedLines(Rule, Title, Join(names, "\n"));
  }

  /** Without the banner the content is exactly the names joined by newlines,
      with no trailing newline: it ends with the last name. */
  lemma NoCommentContent(names: seq<string>)
    requires |names| >= 1
    ensures Content(names, false) == Join(names, "\n")
    ensures |names[|names| - 1]| <= |Content(names, false)|
    ensures Content(names, false)[|Content(names, false)| - |names[|names| - 1]|..] == names[|names| - 1]
  {
    assert Content(names, false) == Join(names, "\n");
    JoinEndsWithLast(names, "\n");
  }

  /** Splitting the banner-free content on newlines gives the names back. */
  lemma {:induction false} NoCommentSplits(names: seq<string>)
    requires |names| >= 1
    requires forall i :: 0 <= i < |names| ==> Free(names[i], '\n')
    ensures Split(Content(names, false), '\n') == names
  {
    assert "\n" == ['\n'];
    assert Content(names, false) == Join(names, "\n");
    SplitJoin(names, '\n');
  }

  /** A manifest reads back, the way ServiceLoader reads it, as exactly the
      implementor list, with the banner or without it. */
  lemma {:induction false} ContentLoadsBack(names: seq<string>, writeComment: bool)
    requires forall i :: 0 <= i < |names| ==> ProviderName(names[i])
    ensures ProviderNames(Content(names, writeComment)) == names
  {
    var body := Join(names, "\n");
    BodyLines(names);
    if writeComment {
      CommentedLines(names);
      RuleLine();
      TitleLine();
      EntriesAppend([Rule, Title, Rule] + Split(body, '\n'), [Rule]);
      EntriesAppend([Rule, Title, Rule], Split(body, '\n'));
      assert Entries([Rule, Title, Rule]) == [];
      assert Entries([Rule]) == [];
    } else {
      assert Content(names, false) == body;
    }
  }
}
