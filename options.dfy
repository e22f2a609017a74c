/** The processor options `kspservice.verify`, `kspservice.comment` and
    `kspservice.verbose`, read once when the processor is created. */
module Options {
  import opened Symbols

  const VerifyKey := "kspservice.verify"
  const CommentKey := "kspservice.comment"
  const VerboseKey := "kspservice.verbose"

  datatype Config = Config(verify: bool, writeComment: bool, verbose: bool)

  /** ASCII case folding; for the letters of "true" no other character folds
      to them, so this decides Kotlin's case-insensitive comparison exactly. */
  function Lower(c: char): (l: char)
  {
    if 'A' <= c <= 'Z' then (c as int - 'A' as int + 'a' as int) as char else c
  }

  /** Kotlin's `String?.toBoolean()`: true exactly for a present value equal
      to "true" when case is ignored. */
  function ToBoolean(v: Option<string>): (b: bool)
    ensures b ==> v.Some? && |v.value| == 4
  {
    match v
    case None => false
    case Some(s) => |s| == 4 && Lower(s[0]) == 't' && Lower(s[1]) == 'r' && Lower(s[2]) == 'u' && Lower(s[3]) == 'e'
  }

  /** The sixteen spellings of "true" that differ only in letter case. */
  const TrueSpellings: set<string> :=
    set a, b, c, d | a in "tT" && b in "rR" && c in "uU" && d in "eE" :: [a, b, c, d]

  /** Case folding maps exactly the two cases of a letter onto it. */
  lemma LowerIs(x: char, lower: char, upper: char)
    requires 'a' <= lower <= 'z' && upper as int == lower as int - 'a' as int + 'A' as int
    ensures Lower(x) == lower <==> x == lower || x == upper
  {
  }

  /** A flag is on exactly for a present value that is one of the case
      spellings of "true". */
  lemma ToBooleanSpellings(v: Option<string>)
    ensures ToBoolean(v) <==> v.Some? && v.value in TrueSpellings
  {
    if v.Some? {
      if ToBoolean(v) {
        OnIsSpelling(v.value);
      }
      if v.value in TrueSpellings {
        SpellingIsOn(v.value);
      }
    }
  }

  /** A value that reads as true is one of the spellings. */
  lemma OnIsSpelling(s: string)
    requires ToBoolean(Some(s))
    ensures s in TrueSpellings
  {
    OnLetters(s);
    Spelled(s, s[0], s[1], s[2], s[3]);
  }

  /** Four letters, each one case of the letter of "true" at its position. */
  lemma Spelled(s: string, a: char, b: char, c: char, d: char)
    requires a in "tT" && b in "rR" && c in "uU" && d in "eE" && s == [a, b, c, d]
    ensures s in TrueSpellings
  {
  }

  /** A value that reads as true has, at each position, one case of the letter
      of "true" there. */
  lemma OnLetters(s: string)
    requires ToBoolean(Some(s))
    ensures |s| == 4 && s[0] in "tT" && s[1] in "rR" && s[2] in "uU" && s[3] in "eE" && s == [s[0], s[1], s[2], s[3]]
  {
    LowerIs(s[0], 't', 'T');
    LowerIs(s[1], 'r', 'R');
    LowerIs(s[2], 'u', 'U');
    LowerIs(s[3], 'e', 'E');
    assert s[0] in "tT" by { assert s[0] == "tT"[0] || s[0] == "tT"[1]; }
    assert s[1] in "rR" by { assert s[1] == "rR"[0] || s[1] == "rR"[1]; }
    assert s[2] in "uU" by { assert s[2] == "uU"[0] || s[2] == "uU"[1]; }
    assert s[3] in "eE" by { assert s[3] == "eE"[0] || s[3] == "eE"[1]; }
  }

  /** Every spelling reads as true. */
  lemma SpellingIsOn(s: string)
    requires s in TrueSpellings
    ensures ToBoolean(Some(s))
  {
    var a, b, c, d :| a in "tT" && b in "rR" && c in "uU" && d in "eE" && s == [a, b, c, d];
    LowerIs(a, 't', 'T');
    LowerIs(b, 'r', 'R');
    LowerIs(c, 'u', 'U');
    LowerIs(d, 'e', 'E');
  }

  function Get(options: map<string, string>, key: string): (r: Option<string>)
  {
    if key in options then Some(options[key]) else None
  }

  /** `verify` and `verbose` are off unless set to "true"; `comment` is read as
      if absent meant "true". */
  function ConfigOf(options: map<string, string>): (cfg: Config)
  {
    Config(
      ToBoolean(Get(options, VerifyKey)),
      ToBoolean(Some(if CommentKey in options then options[CommentKey] else "true")),
      ToBoolean(Get(options, VerboseKey)))
  }

  /** With no options, verification is off and the banner is written. */
  lemma Defaults()
    ensures ConfigOf(map[]) == Config(false, true, false)
  {
  }

  /** Each flag follows its own option; the comment banner can only be turned
      off by an explicit value other than "true". */
  lemma FlagsFollowOptions(options: map<string, string>)
    ensures ConfigOf(options).verify <==> VerifyKey in options && ToBoolean(Some(options[VerifyKey]))
    ensures !ConfigOf(options).writeComment <==> CommentKey in options && !ToBoolean(Some(options[CommentKey]))
    ensures ConfigOf(options).verbose <==> VerboseKey in options && ToBoolean(Some(options[VerboseKey]))
  {
  }

  /** The options in terms of the spellings: `verify` and `verbose` are on
      exactly when their option is a spelling of "true"; the banner is off
      exactly when `kspservice.comment` is given and is not one. */
  lemma OptionsSpelled(options: map<string, string>)
    ensures ConfigOf(options).verify <==> VerifyKey in options && options[VerifyKey] in TrueSpellings
    ensures !ConfigOf(options).writeComment <==> CommentKey in options && options[CommentKey] !in TrueSpellings
    ensures ConfigOf(options).verbose <==> VerboseKey in options && options[VerboseKey] in TrueSpellings
  {
    OptionSpelled(options, VerifyKey);
    OptionSpelled(options, VerboseKey);
    if CommentKey in options {
      ToBooleanSpellings(Some(options[CommentKey]));
    }
  }

  /** One option read with `toBoolean()`. */
  lemma OptionSpelled(options: map<string, string>, key: string)
    ensures ToBoolean(Get(options, key)) <==> key in options && options[key] in TrueSpellings
  {
    ToBooleanSpellings(Get(options, key));
  }

  /** The spellings that switch a flag on, and some that do not. */
  lemma ToBooleanExamples()
    ensures ToBoolean(Some("true")) && ToBoolean(Some("TRUE")) && ToBoolean(Some("True"))
    ensures !ToBoolean(Some("false")) && !ToBoolean(Some("yes")) && !ToBoolean(Some("1"))
    ensures !ToBoolean(Some("")) && !ToBoolean(None)
  {
  }
}
