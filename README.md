# Kite's Lookup template function, in Dafny

Kite runs JSON scenarios of HTTP commands. Later commands can refer to
earlier responses through template expressions. The `Lookup` function
resolves `Lookup(name[.jsonpath][:suffix])` in four steps:

1. It splits an optional post-processor suffix off its argument with the
   pattern `(.+?):(.+?)` and `Matcher.matches()`.
2. It takes the object name, which is the text before the first `.`
   (`split("\\.")[0]`).
3. It fetches the response body captured under that name. With no `.` in
   the target it returns that body unchanged. Otherwise it returns the
   field that JSONPath reads from the body.
4. It applies the first additional lookup function whose `match` accepts
   the suffix.

The model has four modules:

- `JavaStrings` (`java_strings.dfy`) gives the `java.lang.String`
  behaviour this code relies on: `replace`, a split on one character with
  limit 0, and the text before the first occurrence of a character. A
  split/join decomposition is the reference for `replace`.
- `SuffixPattern` (`suffix_pattern.dfy`) models `Matcher.matches()` for
  `(.+?):(.+?)`. It follows java.util.regex's backtracking order for the
  two reluctant groups. Its contracts tie it to what the pattern means: the
  input is split exactly when it holds no line terminator and has a colon
  with at least one character on each side. The split falls on the first
  such colon.
- `LookupFunction` (`lookup_function.dfy`) holds `apply`,
  `applyAddtionalFunction` and `getFieldValue`. Each Java throwable is a
  `Failure` constructor that carries its exact message, or its index and
  length for the two index-out-of-bounds errors.
- `LookupProperties` (`lookup_properties.dfy`) holds the lemmas about what
  the Lookup function promises.

The collaborators are parameters:

- The captured bodies are a `map<string, string>`. A missing key is the
  `null` that `KiteContext.getBody` returns.
- `JsonPath.read` is a function value with three outcomes: `Found(text)`,
  `NullField` and `Thrown`.
- Each additional lookup function is a pair of functions, `matches` and
  `apply`.

## Behaviour of the code the model keeps

- A missing body fails with the message "No payload found for X. Are you
  sure any request name X was performed ?", where X is the object name.
- The JSONPath is the target with every occurrence of `name.` removed,
  scanning left to right, and not only the first one (`"ab.cab.d"` gives
  `"cd"`). With a dot-free name these occurrences never overlap. An empty
  name removes every dot.
- The suffix is split off at the first `:` that has a character before it
  and a character after it. There is no split at all when the input
  contains a line terminator.
- A non-empty target made only of dots makes `split` return an empty
  array, so the index access fails (`ArrayIndexOutOfBounds(0, 0)`). The
  empty target is its own object name.
- TestNG's `fail` throws an `AssertionError`. That is not a
  `RuntimeException`, so the null-field failure raised inside the `try` is
  not turned into the "path not found" failure.

## Model

| member | source | states |
|---|---|---|
| `JavaStrings.PrefixBefore` | src/main/java/com/groupeseb/kite/function/impl/lookup/LookupFunction.java:57 | the result is a prefix of the input that has no `.`, and it stops at the end of the input or at a `.` |
| `JavaStrings.DropTrailingEmpty` | src/main/java/com/groupeseb/kite/function/impl/lookup/LookupFunction.java:57 | split with limit 0 keeps a prefix of the pieces whose last element is non-empty, and drops only empty pieces |
| `JavaStrings.SplitOnCharAllEmpty` | src/main/java/com/groupeseb/kite/function/impl/lookup/LookupFunction.java:57 | splitting on `c` gives only empty pieces exactly when every character is `c` |
| `JavaStrings.SplitOnCharHead` | src/main/java/com/groupeseb/kite/function/impl/lookup/LookupFunction.java:57 | the first piece of a one-character split is the text before the first occurrence |
| `JavaStrings.SplitEmptyIff` | src/main/java/com/groupeseb/kite/function/impl/lookup/LookupFunction.java:57 | `split` returns an empty array exactly for a non-empty string made only of the split character |
| `JavaStrings.SplitHead` | src/main/java/com/groupeseb/kite/function/impl/lookup/LookupFunction.java:57 | element 0 of a non-empty split is the text before the first `.` |
| `JavaStrings.Replace` | src/main/java/com/groupeseb/kite/function/impl/lookup/LookupFunction.java:67 | `replace` itself has no contract of its own; `ReplaceIsJoin`, `ReplaceFree` and `ReplaceCharByNothing` state what it does |
| `JavaStrings.Split` | src/main/java/com/groupeseb/kite/function/impl/lookup/LookupFunction.java:57 | `split` itself has no contract of its own; `SplitEmptyIff` and `SplitHead` state what it returns |
| `JavaStrings.SplitOn` | src/main/java/com/groupeseb/kite/function/impl/lookup/LookupFunction.java:67 | always gives at least one piece; `SplitOnSinglePiece` and `SplitOnLeftmost` state where the cuts fall |
| `JavaStrings.SplitOnSinglePiece` | src/main/java/com/groupeseb/kite/function/impl/lookup/LookupFunction.java:67 | a single piece is the whole string, and then the target does not occur in it |
| `JavaStrings.SplitOnLeftmost` | src/main/java/com/groupeseb/kite/function/impl/lookup/LookupFunction.java:67 | with several pieces, the first piece ends at the first occurrence of the target, and the other pieces are those of the text after that occurrence |
| `JavaStrings.ReplaceIsJoin` | src/main/java/com/groupeseb/kite/function/impl/lookup/LookupFunction.java:67 | `replace` equals the pieces between the leftmost non-overlapping occurrences, joined with the replacement |
| `JavaStrings.SplitOnJoin` | src/main/java/com/groupeseb/kite/function/impl/lookup/LookupFunction.java:67 | joining those pieces with the target rebuilds the original string |
| `JavaStrings.SplitOnPiecesFree` | src/main/java/com/groupeseb/kite/function/impl/lookup/LookupFunction.java:67 | no piece contains the target |
| `JavaStrings.ReplaceFree` | src/main/java/com/groupeseb/kite/function/impl/lookup/LookupFunction.java:67 | a string with no occurrence of the target is left unchanged |
| `JavaStrings.ReplaceCharByNothing` | src/main/java/com/groupeseb/kite/function/impl/lookup/LookupFunction.java:67 | replacing a one-character target by "" deletes that character everywhere |
| `SuffixPattern.Group2ToEnd` | src/main/java/com/groupeseb/kite/function/impl/lookup/LookupFunction.java:20 | the reluctant group 2 reaches the end of the input exactly when it does not have to cross a line terminator |
| `SuffixPattern.Group1From` | src/main/java/com/groupeseb/kite/function/impl/lookup/LookupFunction.java:20 | the backtracking search returns a split the pattern allows, with no allowed split before it, and returns none only when no split is allowed |
| `SuffixPattern.Match` | src/main/java/com/groupeseb/kite/function/impl/lookup/LookupFunction.java:37-38 | `matches()` succeeds exactly when some split is allowed, and then its group 1 is the shortest one |
| `SuffixPattern.SplitsAtIff` | src/main/java/com/groupeseb/kite/function/impl/lookup/LookupFunction.java:20 | the pattern allows a split at `i` exactly when the input has no line terminator and `i` holds a colon with a character on each side |
| `SuffixPattern.MatchCharacterization` | src/main/java/com/groupeseb/kite/function/impl/lookup/LookupFunction.java:37-39 | the input is split exactly when it is one line with an inner colon, and then at the first inner colon |
| `LookupFunction.ObjectName` | src/main/java/com/groupeseb/kite/function/impl/lookup/LookupFunction.java:57 | fails with an index error exactly for a non-empty all-dots parameter; otherwise gives the text before the first `.` |
| `LookupFunction.FieldPath` | src/main/java/com/groupeseb/kite/function/impl/lookup/LookupFunction.java:67 | the path has no contract of its own; `FieldPathRemovesEveryOccurrence`, `FieldPathOfPlainTarget` and `EmptyNameDropsEveryDot` state what it is |
| `LookupFunction.GetFieldValue` | src/main/java/com/groupeseb/kite/function/impl/lookup/LookupFunction.java:56-81 | succeeds only when a body is captured under the object name, and fails with the index error exactly for a non-empty all-dots parameter; `AllDotsFails`, `MissingBodyFails`, `DotlessParameterIsRawBody`, `JsonPathOutcomes` and `OnlyObjectBodyIsRead` state the rest |
| `LookupFunction.Apply` | src/main/java/com/groupeseb/kite/function/impl/lookup/LookupFunction.java:35-45 | fails with the list index error exactly when there is no parameter, and without a suffix succeeds only when a body is captured; `NoSuffixLooksUpWholeInput`, `LookupFailureComesFirst`, `SuffixDispatch`, `SuffixAppliesFirstMatch` and `UnknownSuffixFails` state the rest |
| `LookupFunction.ApplyAdditionalFunction` | src/main/java/com/groupeseb/kite/function/impl/lookup/LookupFunction.java:47-54 | succeeds exactly when some function matches the suffix, and then gives the first match's `apply`; otherwise fails with "Cannot find AdditionalLookupFunction for : " and the suffix |
| `LookupProperties.MatchAtFirstInnerColon` | src/main/java/com/groupeseb/kite/function/impl/lookup/LookupFunction.java:37-39 | on a one-line input, the split falls on the first inner colon |
| `LookupProperties.ColonlessHasNoSuffix` | src/main/java/com/groupeseb/kite/function/impl/lookup/LookupFunction.java:37-39 | an input without a colon has no suffix |
| `LookupProperties.NoSuffixLooksUpWholeInput` | src/main/java/com/groupeseb/kite/function/impl/lookup/LookupFunction.java:36-44 | without a suffix, `apply` is exactly `getFieldValue` of the whole first parameter |
| `LookupProperties.LookupFailureComesFirst` | src/main/java/com/groupeseb/kite/function/impl/lookup/LookupFunction.java:39-42 | with a suffix, a failing lookup of the head is the result whatever the additional functions are |
| `LookupProperties.SuffixDispatch` | src/main/java/com/groupeseb/kite/function/impl/lookup/LookupFunction.java:39-42 | with a suffix and a successful lookup of the head, `apply` hands the looked-up value and the suffix to the additional functions |
| `LookupProperties.SuffixAppliesFirstMatch` | src/main/java/com/groupeseb/kite/function/impl/lookup/LookupFunction.java:39-51 | with a suffix and a successful lookup, the result is the first matching function applied to the value and the suffix |
| `LookupProperties.UnknownSuffixFails` | src/main/java/com/groupeseb/kite/function/impl/lookup/LookupFunction.java:41-53 | with a suffix no function accepts, a successful lookup ends in the "Cannot find AdditionalLookupFunction for : <suffix>" failure |
| `LookupProperties.FirstMatchIsApplied` | src/main/java/com/groupeseb/kite/function/impl/lookup/LookupFunction.java:48-51 | the function applied is the first one in list order whose `match` accepts the suffix |
| `LookupProperties.LaterFunctionsIgnored` | src/main/java/com/groupeseb/kite/function/impl/lookup/LookupFunction.java:48-51 | functions after the first match are never consulted: appending any list leaves the result unchanged |
| `LookupProperties.AllDotsFails` | src/main/java/com/groupeseb/kite/function/impl/lookup/LookupFunction.java:57 | a non-empty all-dots parameter fails with index 0 out of bounds for length 0 |
| `LookupProperties.MissingBodyFails` | src/main/java/com/groupeseb/kite/function/impl/lookup/LookupFunction.java:57-63 | no captured body for the object name (the empty parameter included) fails with "No payload found for X. Are you sure any request name X was performed ?" |
| `LookupProperties.DotlessParameterIsRawBody` | src/main/java/com/groupeseb/kite/function/impl/lookup/LookupFunction.java:64-65 | without a `.`, the stored body is returned unchanged and the result does not depend on the JSONPath reader |
| `LookupProperties.DotlessObjectName` | src/main/java/com/groupeseb/kite/function/impl/lookup/LookupFunction.java:57 | a parameter without a `.` is its own object name |
| `LookupProperties.OnlyObjectBodyIsRead` | src/main/java/com/groupeseb/kite/function/impl/lookup/LookupFunction.java:56-81 | the lookup reads the context only at the object name, so contexts that agree there give the same result |
| `LookupProperties.JsonPathOutcomes` | src/main/java/com/groupeseb/kite/function/impl/lookup/LookupFunction.java:67-80 | the reader gets the body and the derived path; a value is returned, null fails with "Lookup : Could not get field [path] for object X", and a throw fails with "Cannot apply [LookupFunction]: path not found <path>, on object named <X>" |
| `LookupProperties.FieldPathRemovesEveryOccurrence` | src/main/java/com/groupeseb/kite/function/impl/lookup/LookupFunction.java:67 | the path is the parameter's pieces between every leftmost non-overlapping `name.`, glued together; the pieces rebuild the parameter and none still contains `name.` |
| `LookupProperties.NameTargetsDoNotOverlap` | src/main/java/com/groupeseb/kite/function/impl/lookup/LookupFunction.java:67 | two occurrences of `name.` with a dot-free name never overlap, so the path drops every occurrence |
| `LookupProperties.FieldPathOfPlainTarget` | src/main/java/com/groupeseb/kite/function/impl/lookup/LookupFunction.java:67 | for `name.path` where `name.` does not occur again, the path is `path` |
| `LookupProperties.RepeatedNameExample` | src/main/java/com/groupeseb/kite/function/impl/lookup/LookupFunction.java:57-67 | `ab.cab.d` names object `ab` and reads path `cd` |
| `LookupProperties.EmptyNameDropsEveryDot` | src/main/java/com/groupeseb/kite/function/impl/lookup/LookupFunction.java:67 | with an empty object name, the path is the parameter with every `.` deleted |
| `LookupProperties.CapturedBodyLookup` | src/main/java/com/groupeseb/kite/function/impl/lookup/LookupFunction.java:35-65 | `Lookup(n)` for a captured single-line `n` with no dot and no suffix gives back the captured body |
| `LookupProperties.PlainPathLookup` | src/main/java/com/groupeseb/kite/function/impl/lookup/LookupFunction.java:35-80 | `Lookup(name.path)` with no suffix reads `path` in the body captured under `name`, with the three reader outcomes mapped as above |
| `LookupProperties.ScenarioMissingCapture` | src/main/java/com/groupeseb/kite/function/impl/lookup/LookupFunction.java:57-63 | `Lookup(ghost)` with nothing captured under `ghost` fails with the missing-payload message for `ghost` |

## Left out

- JSONPath evaluation (`JsonPath.read`) is an external library. It is a function parameter with three outcomes; its path syntax and the text form of the values it returns are not modelled.
- The additional lookup functions (UpperCase, LowerCase and the others) are not part of this model. They are opaque `matches`/`apply` pairs, taken to be total and free of side effects. An exception thrown by one of them is not modelled.
- KiteContext is not part of this model beyond `getBody`, which is a read of a map. Locations, variables and the object mapper are not read by this function.
- ContextProcessor (the `{{Fn(args)}}` template expander) and the function registry are not part of this model. The end-to-end expansion scenarios that go through them are only covered where they reduce to the Lookup function itself.
- Exceptions are recorded by kind and message only. The Java class hierarchy is not modelled. Neither is the cause wrapped in the "path not found" IllegalArgumentException. The JDK's message text for the two index-out-of-bounds cases is reduced to the index and the length.
- A `null` first parameter (which would throw a NullPointerException in the matcher) is not modelled. Strings are never null here.
- `JavaStrings.Replace` requires a non-empty target. The empty-target case of `String.replace` is never reached, because the target is always the object name followed by `.`.
- Characters are Unicode scalar values, not UTF-16 code units. None of the pattern's line terminators is a surrogate, so the suffix split is unaffected.
- Spring wiring (`@Component`, `@Autowired`) and logging (`@Slf4j`) are framework plumbing. `getName` is the constant `LookupFunction.Name`.
