/**
 The pattern `(.+?):(.+?)` that the Lookup function uses to split an
 optional additional-function suffix off its argument, applied with
 `Matcher.matches()` (the whole input must be matched). Without the DOTALL
 flag, `.` matches any character except a line terminator; the
 CASE_INSENSITIVE flag changes nothing for `.` and `:`.

 `Match` follows java.util.regex's backtracking order for the two
 reluctant groups; `SplitsAt` is the language-level reading of the pattern,
 and the contracts tie the two together.
 */
module SuffixPattern {

  datatype Option<T> = None | Some(value: T)

  /** Line terminators of java.util.regex when UNIX_LINES is off. */
  predicate IsLineTerminator(ch: char) {
    ch == '\n' || ch == '\r' || ch == '\U{85}' || ch == '\U{2028}' || ch == '\U{2029}'
  }

  /** The characters `.` matches when DOTALL is off. */
  predicate IsDot(ch: char) {
    !IsLineTerminator(ch)
  }

  /** `w` is in the language of `.+`. */
  ghost predicate DotPlus(w: string) {
    |w| > 0 && forall k :: 0 <= k < |w| ==> IsDot(w[k])
  }

  /** `s` is matched as a whole by `(.+?):(.+?)` with group 1 = s[..i] and group 2 = s[i + 1..]. */
  ghost predicate SplitsAt(s: string, i: int) {
    0 <= i < |s| && DotPlus(s[..i]) && s[i] == ':' && DotPlus(s[i + 1..])
  }

  /**
   The reluctant group 2 has just been extended to end at `k` (it started
   right after the colon): it succeeds as soon as it reaches the end of the
   input, and cannot step over a line terminator.
   */
  function Group2ToEnd(s: string, k: nat): (ok: bool)
    requires k >= 1
    ensures ok <==> k <= |s| && forall m :: k - 1 <= m < |s| ==> IsDot(s[m])
    decreases |s| + 1 - k
  {
    if k > |s| || !IsDot(s[k - 1]) then false
    else if k == |s| then true
    else Group2ToEnd(s, k + 1)
  }

  /**
   The reluctant group 1 covers s[..i]: try the colon and group 2 after
   it, and only when that fails extend group 1 by one more character.
   */
  function Group1From(s: string, i: nat): (r: Option<nat>)
    requires i >= 1
    requires i <= |s| + 1 && forall k :: 0 <= k < i - 1 ==> IsDot(s[k])
    ensures r.Some? ==> i <= r.value && SplitsAt(s, r.value)
    ensures r.Some? ==> forall j :: i <= j < r.value ==> !SplitsAt(s, j)
    ensures r.None? ==> forall j :: i <= j ==> !SplitsAt(s, j)
    decreases |s| + 1 - i
  {
    if i > |s| || !IsDot(s[i - 1]) then None
    else if i < |s| && s[i] == ':' && Group2ToEnd(s, i + 2) then
      assert SplitsAt(s, i) by {
        assert s[..i] == s[..i - 1] + [s[i - 1]];
      }
      Some(i)
    else
      Group1From(s, i + 1)
  }

  /**
   `Matcher.matches()` for `(.+?):(.+?)`: the end of group 1 (the colon's
   index) when the input matches, and None when it does not. The match
   found is the one with the shortest group 1.
   */
  function Match(s: string): (r: Option<nat>)
    ensures r.Some? <==> exists i :: SplitsAt(s, i)
    ensures r.Some? ==> SplitsAt(s, r.value) && forall j :: 0 <= j < r.value ==> !SplitsAt(s, j)
  {
    Group1From(s, 1)
  }

  /** No character of `s` is a line terminator. */
  predicate SingleLine(s: string) {
    forall k :: 0 <= k < |s| ==> IsDot(s[k])
  }

  /** `s[i]` is a colon with at least one character before it and at least one after it. */
  predicate InnerColon(s: string, i: int) {
    1 <= i < |s| - 1 && s[i] == ':'
  }

  /** The language-level reading in plain terms: a single line, and the split falls on an inner colon. */
  lemma {:induction false} SplitsAtIff(s: string, i: int)
    ensures SplitsAt(s, i) <==> SingleLine(s) && InnerColon(s, i)
  {
    if SplitsAt(s, i) {
      forall k | 0 <= k < |s| ensures IsDot(s[k]) {
        if k < i {
          assert s[k] == s[..i][k];
        } else if k > i {
          assert s[k] == s[i + 1..][k - i - 1];
        }
      }
    }
    if SingleLine(s) && InnerColon(s, i) {
      assert forall k :: 0 <= k < i ==> s[..i][k] == s[k];
      assert forall k :: i + 1 <= k < |s| ==> s[i + 1..][k - i - 1] == s[k];
    }
  }

  /**
   The input is split exactly when it holds no line terminator and has an
   inner colon; the split then falls on the first inner colon, and the
   suffix is everything after it.
   */
  lemma {:induction false} MatchCharacterization(s: string)
    ensures Match(s).Some? <==> SingleLine(s) && exists i :: InnerColon(s, i)
    ensures Match(s).Some? ==>
      InnerColon(s, Match(s).value) && forall j :: 1 <= j < Match(s).value ==> s[j] != ':'
  {
    if Match(s).Some? {
      var i := Match(s).value;
      SplitsAtIff(s, i);
      forall j | 1 <= j < i ensures s[j] != ':' {
        SplitsAtIff(s, j);
      }
    } else if SingleLine(s) && exists i :: InnerColon(s, i) {
      var i :| InnerColon(s, i);
      SplitsAtIff(s, i);
    }
  }
}
