/**
 What the Lookup function promises its callers, stated over the model in
 LookupFunction and proved from the contracts of its parts.
 */
module LookupProperties {
  import opened JavaStrings
  import opened SuffixPattern
  import opened LookupFunction

  // ---------------------------------------------------------------------
  // Splitting off the suffix
  // ---------------------------------------------------------------------

  /** The input has a suffix: it is a single line with an inner colon. */
  ghost predicate HasSuffix(input: string) {
    SingleLine(input) && exists i :: InnerColon(input, i)
  }

  /** `i` is the first inner colon of `input`. */
  predicate FirstInnerColon(input: string, i: int) {
    InnerColon(input, i) && forall j :: 1 <= j < i ==> input[j] != ':'
  }

  /** On a single-line input, the pattern splits at the first inner colon and nowhere else. */
  lemma {:induction false} MatchAtFirstInnerColon(input: string, i: int)
    requires SingleLine(input) && FirstInnerColon(input, i)
    ensures Match(input) == Some(i)
  {
    MatchCharacterization(input);
  }

  /** Without a suffix, the whole input is the lookup target and no additional function runs. */
  lemma {:induction false} NoSuffixLooksUpWholeInput(input: string, rest: seq<string>, context: KiteContext,
                                                     read: JsonPathReader, additional: seq<AdditionalLookupFunction>)
    requires !HasSuffix(input)
    ensures Apply([input] + rest, context, read, additional) == GetFieldValue(context, input, read)
  {
    MatchCharacterization(input);
    assert ([input] + rest)[0] == input;
  }

  /** With a suffix, a failing lookup of the head is the result, whatever the additional functions are. */
  lemma {:induction false} LookupFailureComesFirst(input: string, i: int, rest: seq<string>, context: KiteContext,
                                                   read: JsonPathReader, additional: seq<AdditionalLookupFunction>)
    requires SingleLine(input) && FirstInnerColon(input, i)
    requires GetFieldValue(context, input[..i], read).Err?
    ensures Apply([input] + rest, context, read, additional) == GetFieldValue(context, input[..i], read)
  {
    MatchAtFirstInnerColon(input, i);
    assert ([input] + rest)[0] == input;
  }

  /** With a suffix and a successful lookup of the head, the value and the suffix go to the additional functions. */
  lemma {:induction false} SuffixDispatch(input: string, i: int, rest: seq<string>, context: KiteContext,
                                          read: JsonPathReader, additional: seq<AdditionalLookupFunction>)
    requires SingleLine(input) && FirstInnerColon(input, i)
    requires GetFieldValue(context, input[..i], read).Ok?
    ensures Apply([input] + rest, context, read, additional)
         == ApplyAdditionalFunction(additional, GetFieldValue(context, input[..i], read).value, input[i + 1..])
  {
    MatchAtFirstInnerColon(input, i);
    assert ([input] + rest)[0] == input;
  }

  /**
   With a suffix and a successful lookup of the head, the result is the
   first additional function (in list order) that accepts the suffix,
   applied to the looked-up value and the suffix.
   */
  lemma {:induction false} SuffixAppliesFirstMatch(input: string, i: int, k: int, rest: seq<string>, context: KiteContext,
                                                   read: JsonPathReader, additional: seq<AdditionalLookupFunction>)
    requires SingleLine(input) && FirstInnerColon(input, i)
    requires GetFieldValue(context, input[..i], read).Ok?
    requires IsFirstMatch(additional, input[i + 1..], k)
    ensures Apply([input] + rest, context, read, additional)
         == Ok(additional[k].apply(GetFieldValue(context, input[..i], read).value, input[i + 1..]))
  {
    SuffixDispatch(input, i, rest, context, read, additional);
    FirstMatchIsApplied(additional, GetFieldValue(context, input[..i], read).value, input[i + 1..], k);
  }

  /** With a suffix that no additional function accepts, a successful lookup still ends in the "cannot find" failure. */
  lemma {:induction false} UnknownSuffixFails(input: string, i: int, rest: seq<string>, context: KiteContext,
                                              read: JsonPathReader, additional: seq<AdditionalLookupFunction>)
    requires SingleLine(input) && FirstInnerColon(input, i)
    requires GetFieldValue(context, input[..i], read).Ok?
    requires forall k :: 0 <= k < |additional| ==> !additional[k].matches(input[i + 1..])
    ensures Apply([input] + rest, context, read, additional)
         == Err(NoAdditionalFunction("Cannot find AdditionalLookupFunction for : " + input[i + 1..]))
  {
    SuffixDispatch(input, i, rest, context, read, additional);
  }

  /** The function applied is the first one that accepts the suffix. */
  lemma {:induction false} FirstMatchIsApplied(additional: seq<AdditionalLookupFunction>, input: string, suffix: string, k: int)
    requires IsFirstMatch(additional, suffix, k)
    ensures ApplyAdditionalFunction(additional, input, suffix) == Ok(additional[k].apply(input, suffix))
  {
    var r := ApplyAdditionalFunction(additional, input, suffix);
    var k' :| IsFirstMatch(additional, suffix, k') && r.value == additional[k'].apply(input, suffix);
    assert !(k' < k) && !(k < k') by {
      assert additional[k].matches(suffix) && additional[k'].matches(suffix);
    }
  }

  /** Additional functions after the first one that accepts the suffix are never consulted. */
  lemma {:induction false} LaterFunctionsIgnored(additional: seq<AdditionalLookupFunction>, tail: seq<AdditionalLookupFunction>,
                                                 input: string, suffix: string)
    requires exists k :: 0 <= k < |additional| && additional[k].matches(suffix)
    ensures ApplyAdditionalFunction(additional + tail, input, suffix) == ApplyAdditionalFunction(additional, input, suffix)
  {
    if !additional[0].matches(suffix) {
      var k :| 0 <= k < |additional| && additional[k].matches(suffix);
      assert additional[1..][k - 1] == additional[k];
      LaterFunctionsIgnored(additional[1..], tail, input, suffix);
      assert (additional + tail)[1..] == additional[1..] + tail;
    }
  }

  // ---------------------------------------------------------------------
  // Looking up the field
  // ---------------------------------------------------------------------

  /** A non-empty parameter made only of dots fails on the empty result of `split`. */
  lemma {:induction false} AllDotsFails(context: KiteContext, parameter: string, read: JsonPathReader)
    requires |parameter| > 0 && AllChar(parameter, '.')
    ensures GetFieldValue(context, parameter, read) == Err(ArrayIndexOutOfBounds(0, 0))
  {
  }

  /** An object name with no captured body fails with the fixed "No payload found" message naming it. */
  lemma {:induction false} MissingBodyFails(context: KiteContext, parameter: string, read: JsonPathReader)
    requires !(|parameter| > 0 && AllChar(parameter, '.'))
    requires PrefixBefore(parameter, '.') !in context
    ensures GetFieldValue(context, parameter, read)
         == Err(MissingPayload("No payload found for " + PrefixBefore(parameter, '.')
                + ". Are you sure any request name " + PrefixBefore(parameter, '.') + " was performed ?"))
  {
  }

  /** A parameter without a dot is an object name: its body is returned unchanged and JsonPath is never invoked. */
  lemma {:induction false} DotlessParameterIsRawBody(context: KiteContext, parameter: string,
                                                     read: JsonPathReader, other: JsonPathReader)
    requires '.' !in parameter
    requires parameter in context
    ensures GetFieldValue(context, parameter, read) == Ok(context[parameter])
    ensures GetFieldValue(context, parameter, read) == GetFieldValue(context, parameter, other)
  {
    assert PrefixBefore(parameter, '.') == parameter;
  }

  /** The lookup reads the context only at the object name: contexts that agree there give the same result. */
  lemma {:induction false} OnlyObjectBodyIsRead(context: KiteContext, other: KiteContext, parameter: string, read: JsonPathReader)
    requires ObjectName(parameter).Ok?
    requires var name := ObjectName(parameter).value;
      (name in context <==> name in other) && (name in context ==> context[name] == other[name])
    ensures GetFieldValue(context, parameter, read) == GetFieldValue(other, parameter, read)
  {
  }

  /**
   With a dot in the parameter and a captured body, the reader gets that
   body and the derived path; a value is returned as is, null fails with
   the "Could not get field" message and a throw with the "path not
   found" message, both naming the path and the object.
   */
  lemma {:induction false} JsonPathOutcomes(context: KiteContext, parameter: string, read: JsonPathReader)
    requires '.' in parameter && !AllChar(parameter, '.')
    requires PrefixBefore(parameter, '.') in context
    ensures var name := PrefixBefore(parameter, '.');
      var field := FieldPath(parameter, name);
      match read(context[name], field)
      case Found(text) => GetFieldValue(context, parameter, read) == Ok(text)
      case NullField =>
        GetFieldValue(context, parameter, read)
        == Err(FieldNotFound("Lookup : Could not get field [" + field + "] for object " + name))
      case Thrown =>
        GetFieldValue(context, parameter, read)
        == Err(PathNotFound("Cannot apply [LookupFunction]: path not found <" + field + ">, on object named <" + name + ">"))
  {
  }

  // ---------------------------------------------------------------------
  // The derived JSONPath
  // ---------------------------------------------------------------------

  /**
   The path is the parameter cut at every leftmost, non-overlapping
   occurrence of `name + "."`, with the pieces glued back together: the
   pieces rebuild the parameter when that text is put back between them,
   and none of them still contains it.
   */
  lemma {:induction false} FieldPathRemovesEveryOccurrence(parameter: string, name: string)
    ensures var pieces := SplitOn(parameter, name + ".");
      && FieldPath(parameter, name) == Join(pieces, "")
      && Join(pieces, name + ".") == parameter
      && forall k :: 0 <= k < |pieces| ==> Free(pieces[k], name + ".")
  {
    ReplaceIsJoin(parameter, name + ".", "");
    SplitOnJoin(parameter, name + ".");
    SplitOnPiecesFree(parameter, name + ".");
  }

  /**
   Two occurrences of `name + "."` with a dot-free name never overlap (the
   only dot of the target is its last character), so the leftmost cut above
   falls on every occurrence of it.
   */
  lemma {:induction false} NameTargetsDoNotOverlap(s: string, name: string, i: nat, j: nat)
    requires '.' !in name
    requires OccursAt(s, name + ".", i) && OccursAt(s, name + ".", j) && i < j
    ensures i + |name| + 1 <= j
  {
    var t := name + ".";
    assert s[i + |name|] == s[i..i + |t|][|name|] == t[|name|] == '.';
    forall m | j <= m < j + |name| ensures s[m] != '.' {
      assert s[m] == s[j..j + |t|][m - j] == t[m - j] == name[m - j];
      assert name[m - j] in name;
    }
  }

  /** In the usual case `name.path`, where `name.` does not occur again, the path is just the text after the first dot. */
  lemma {:induction false} FieldPathOfPlainTarget(name: string, path: string)
    requires Free(path, name + ".")
    ensures FieldPath(name + "." + path, name) == path
  {
    var target := name + ".";
    var s := target + path;
    assert s == name + "." + path;
    assert OccursAt(s, target, 0) by {
      assert s[..|target|] == target;
    }
    assert s[|target|..] == path;
    ReplaceFree(path, target, "");
  }

  /** The name before the first dot can reappear later; each of its occurrences is removed too. */
  lemma RepeatedNameExample()
    ensures ObjectName("ab.cab.d") == Ok("ab")
    ensures FieldPath("ab.cab.d", "ab") == "cd"
  {
    assert "ab.cab.d" == "ab" + "." + "cab.d";
    assert PrefixBefore("cab.d", '.') == "cab";
    assert FieldPath("cab.d", "ab") == "c" + FieldPath("ab.d", "ab");
    assert FieldPath("ab.d", "ab") == "d";
  }

  /** An empty object name (a parameter starting with a dot) removes every dot from the path. */
  lemma {:induction false} EmptyNameDropsEveryDot(parameter: string)
    ensures FieldPath(parameter, "") == Without(parameter, '.')
  {
    assert "" + "." == ['.'];
    ReplaceCharByNothing(parameter, '.');
  }

  // ---------------------------------------------------------------------
  // End-to-end examples
  // ---------------------------------------------------------------------

  /** An input without a colon has no suffix. */
  lemma {:induction false} ColonlessHasNoSuffix(input: string)
    requires ':' !in input
    ensures !HasSuffix(input)
  {
  }

  /** A parameter without a dot is its own object name. */
  lemma {:induction false} DotlessObjectName(parameter: string)
    requires '.' !in parameter
    ensures ObjectName(parameter) == Ok(parameter)
  {
    assert PrefixBefore(parameter, '.') == parameter;
    if |parameter| > 0 {
      assert parameter[0] in parameter;
    }
  }

  /** `Lookup(name)` for a captured name gives back the captured body. */
  lemma {:induction false} CapturedBodyLookup(name: string, rest: seq<string>, context: KiteContext,
                                              read: JsonPathReader, additional: seq<AdditionalLookupFunction>)
    requires !HasSuffix(name) && '.' !in name
    requires name in context
    ensures Apply([name] + rest, context, read, additional) == Ok(context[name])
  {
    NoSuffixLooksUpWholeInput(name, rest, context, read, additional);
    DotlessParameterIsRawBody(context, name, read, read);
  }

  /**
   `Lookup(name.path)`, where `name.` does not occur again in `path`,
   reads `path` in the body captured under `name`.
   */
  lemma {:induction false} PlainPathLookup(name: string, path: string, rest: seq<string>, context: KiteContext,
                                           read: JsonPathReader, additional: seq<AdditionalLookupFunction>)
    requires !HasSuffix(name + "." + path) && '.' !in name
    requires Free(path, name + ".")
    requires name != "" || path != ""
    requires name in context
    ensures var r := Apply([name + "." + path] + rest, context, read, additional);
      match read(context[name], path)
      case Found(text) => r == Ok(text)
      case NullField => r == Err(FieldNotFound(FieldNotFoundMessage(path, name)))
      case Thrown => r == Err(PathNotFound(PathNotFoundMessage(path, name)))
  {
    var input := name + "." + path;
    NoSuffixLooksUpWholeInput(input, rest, context, read, additional);
    assert PrefixBefore(input, '.') == name by {
      assert input[|name|] == '.';
      assert input[..|name|] == name;
    }
    assert !AllChar(input, '.') && '.' in input by {
      assert input[|name|] == '.';
      if |name| > 0 {
        assert input[0] == name[0];
      } else {
        assert !OccursAt(path, ".", 0);
        assert input[1] == path[0];
      }
    }
    FieldPathOfPlainTarget(name, path);
    JsonPathOutcomes(context, input, read);
  }

  /** `Lookup(ghost)` with nothing captured under `ghost` fails with the fixed message. */
  lemma ScenarioMissingCapture(context: KiteContext, read: JsonPathReader, additional: seq<AdditionalLookupFunction>)
    requires "ghost" !in context
    ensures Apply(["ghost"], context, read, additional)
         == Err(MissingPayload(MissingPayloadMessage("ghost")))
  {
    var input := "ghost";
    assert ':' !in input && '.' !in input;
    ColonlessHasNoSuffix(input);
    NoSuffixLooksUpWholeInput(input, [], context, read, additional);
    DotlessObjectName(input);
  }
}
