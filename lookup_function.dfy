/**
 The Lookup template function: `Lookup(name[.jsonpath][:suffix])` reads a
 response body captured earlier under `name`, optionally extracts a field
 of it with JSONPath, and optionally post-processes the value with the
 first additional lookup function that accepts `suffix`.

 Collaborators are parameters: the captured bodies are a map (a missing
 key is the `null` that KiteContext.getBody returns), JsonPath.read is a
 function with three outcomes, and each additional lookup function is a
 pair of its `match` and `apply` operations. Every Java throwable the
 function can raise is a `Failure` value.
 */
module LookupFunction {
  import opened JavaStrings
  import opened SuffixPattern

  /** The name under which the function is registered. */
  const Name: string := "Lookup"

  /** The captured response bodies, by command name. */
  type KiteContext = map<string, string>

  /** What `JsonPath.read(body, path)` does: return a value (already turned into its string form), return null, or throw. */
  datatype JsonRead = Found(text: string) | NullField | Thrown

  type JsonPathReader = (string, string) -> JsonRead

  /** An additional lookup function: `match(suffix)` and `apply(input, suffix)`. */
  datatype AdditionalLookupFunction = AdditionalLookupFunction(
    matches: string -> bool,
    apply: (string, string) -> string)

  /** The failures the Lookup function raises, each with the message it carries. */
  datatype Failure =
    | MissingPayload(message: string)              // TestNG fail: AssertionError
    | FieldNotFound(message: string)               // TestNG fail: AssertionError
    | PathNotFound(message: string)                // IllegalArgumentException wrapping the reader's exception
    | NoAdditionalFunction(message: string)        // IllegalArgumentException
    | ArrayIndexOutOfBounds(index: int, length: int) // `split(..)[0]` on an empty array
    | ListIndexOutOfBounds(index: int, length: int)  // `parameters.get(0)` on an empty list

  datatype Result<T> = Ok(value: T) | Err(failure: Failure)

  function MissingPayloadMessage(objectName: string): string {
    "No payload found for " + objectName + ". Are you sure any request name " + objectName + " was performed ?"
  }

  function FieldNotFoundMessage(field: string, objectName: string): string {
    "Lookup : Could not get field [" + field + "] for object " + objectName
  }

  function PathNotFoundMessage(field: string, objectName: string): string {
    "Cannot apply [LookupFunction]: path not found <" + field + ">, on object named <" + objectName + ">"
  }

  function NoAdditionalFunctionMessage(suffix: string): string {
    "Cannot find AdditionalLookupFunction for : " + suffix
  }

  /**
   `parameter.split("\\.")[0]`: the text before the first '.', which
   throws when the split is empty, that is, for a non-empty string made
   only of dots.
   */
  function ObjectName(parameter: string): (r: Result<string>)
    ensures r.Err? <==> |parameter| > 0 && AllChar(parameter, '.')
    ensures r.Err? ==> r.failure == ArrayIndexOutOfBounds(0, 0)
    ensures r.Ok? ==> r.value == PrefixBefore(parameter, '.')
  {
    var parts := Split(parameter, '.');
    SplitEmptyIff(parameter, '.');
    if |parts| == 0 then Err(ArrayIndexOutOfBounds(0, 0))
    else
      SplitHead(parameter, '.');
      Ok(parts[0])
  }

  /** The JSONPath handed to the reader: the parameter with every `objectName + "."` removed. */
  function FieldPath(parameter: string, objectName: string): string {
    Replace(parameter, objectName + ".", "")
  }

  /** `getFieldValue`: the body captured under the object name, or the field the path selects in it. */
  function GetFieldValue(context: KiteContext, parameter: string, read: JsonPathReader): (r: Result<string>)
    ensures r.Ok? ==> PrefixBefore(parameter, '.') in context
    ensures (r.Err? && r.failure.ArrayIndexOutOfBounds?) <==> |parameter| > 0 && AllChar(parameter, '.')
  {
    match ObjectName(parameter)
    case Err(f) => Err(f)
    case Ok(objectName) =>
      if objectName !in context then
        Err(MissingPayload(MissingPayloadMessage(objectName)))
      else if '.' !in parameter then
        Ok(context[objectName])
      else
        var field := FieldPath(parameter, objectName);
        match read(context[objectName], field)
        case Found(text) => Ok(text)
        case NullField => Err(FieldNotFound(FieldNotFoundMessage(field, objectName)))
        case Thrown => Err(PathNotFound(PathNotFoundMessage(field, objectName)))
  }

  /** `additional[i]` is the first function of the list that accepts `suffix`. */
  ghost predicate IsFirstMatch(additional: seq<AdditionalLookupFunction>, suffix: string, i: int) {
    0 <= i < |additional| && additional[i].matches(suffix)
    && forall j :: 0 <= j < i ==> !additional[j].matches(suffix)
  }

  /**
   `applyAddtionalFunction`: apply the first function, in list order, whose
   `match` accepts the suffix; fail when none does.
   */
  function ApplyAdditionalFunction(additional: seq<AdditionalLookupFunction>, input: string, suffix: string)
    : (r: Result<string>)
    ensures r.Ok? <==> exists i :: 0 <= i < |additional| && additional[i].matches(suffix)
    ensures r.Ok? ==> exists i :: IsFirstMatch(additional, suffix, i) && r.value == additional[i].apply(input, suffix)
    ensures r.Err? ==> r.failure == NoAdditionalFunction(NoAdditionalFunctionMessage(suffix))
  {
    if |additional| == 0 then
      Err(NoAdditionalFunction(NoAdditionalFunctionMessage(suffix)))
    else if additional[0].matches(suffix) then
      assert IsFirstMatch(additional, suffix, 0);
      Ok(additional[0].apply(input, suffix))
    else
      var r := ApplyAdditionalFunction(additional[1..], input, suffix);
      assert forall i :: 0 <= i < |additional| - 1 ==> additional[1..][i] == additional[i + 1];
      assert r.Ok? ==> exists i :: IsFirstMatch(additional, suffix, i) && r.value == additional[i].apply(input, suffix) by {
        if r.Ok? {
          var i :| IsFirstMatch(additional[1..], suffix, i) && r.value == additional[1..][i].apply(input, suffix);
          assert IsFirstMatch(additional, suffix, i + 1);
        }
      }
      r
  }

  /**
   `apply`: split off the suffix, look up the field named by the head (or
   the whole input), then post-process it when there was a suffix.
   */
  function Apply(parameters: seq<string>, context: KiteContext, read: JsonPathReader,
                 additional: seq<AdditionalLookupFunction>): (r: Result<string>)
    ensures (r.Err? && r.failure.ListIndexOutOfBounds?) <==> |parameters| == 0
    ensures r.Ok? && |parameters| > 0 && Match(parameters[0]).None? ==> PrefixBefore(parameters[0], '.') in context
  {
    if |parameters| == 0 then Err(ListIndexOutOfBounds(0, 0))
    else
      var input := parameters[0];
      var split := Match(input);
      var parameter := if split.Some? then input[..split.value] else input;
      match GetFieldValue(context, parameter, read)
      case Err(f) => Err(f)
      case Ok(fieldValue) =>
        if split.Some? then ApplyAdditionalFunction(additional, fieldValue, input[split.value + 1..])
        else Ok(fieldValue)
  }
}
