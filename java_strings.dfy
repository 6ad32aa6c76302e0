/**
 The parts of java.lang.String that the Lookup function relies on:
 `contains`, `replace(CharSequence, CharSequence)` and `split` with a
 one-character pattern and the default limit 0. Strings are sequences of
 characters; Java's `null` never reaches these operations.
 */
module JavaStrings {

  /** `target` occurs in `s` starting at index `i`. */
  predicate OccursAt(s: string, target: string, i: nat) {
    i + |target| <= |s| && s[i..i + |target|] == target
  }

  /** `s` holds no occurrence of `target` anywhere. */
  ghost predicate Free(s: string, target: string) {
    forall i: nat :: !OccursAt(s, target, i)
  }

  /**
   `s.replace(target, replacement)`: scanning left to right, every
   occurrence of `target` that does not overlap an earlier replaced one is
   replaced. Java also accepts an empty target; the Lookup function never
   passes one.
   */
  function Replace(s: string, target: string, replacement: string): string
    requires |target| > 0
    decreases |s|
  {
    if |s| < |target| then s
    else if OccursAt(s, target, 0) then replacement + Replace(s[|target|..], target, replacement)
    else [s[0]] + Replace(s[1..], target, replacement)
  }

  /**
   The pieces of `s` between the occurrences of `target` that `Replace`
   consumes (the leftmost, non-overlapping ones), trailing empty pieces
   included. There is always one more piece than occurrences.
   */
  function SplitOn(s: string, target: string): (pieces: seq<string>)
    requires |target| > 0
    ensures |pieces| > 0
    decreases |s|
  {
    if |s| < |target| then [s]
    else if OccursAt(s, target, 0) then [""] + SplitOn(s[|target|..], target)
    else
      var rest := SplitOn(s[1..], target);
      [[s[0]] + rest[0]] + rest[1..]
  }

  /** The pieces glued together with `sep` between neighbours. */
  function Join(pieces: seq<string>, sep: string): string {
    if |pieces| == 0 then ""
    else if |pieces| == 1 then pieces[0]
    else pieces[0] + sep + Join(pieces[1..], sep)
  }

  /** `s` with every occurrence of `c` deleted. */
  function Without(s: string, c: char): string {
    if |s| == 0 then ""
    else if s[0] == c then Without(s[1..], c)
    else [s[0]] + Without(s[1..], c)
  }

  /** Every piece is the empty string. */
  predicate AllEmpty(pieces: seq<string>) {
    forall k :: 0 <= k < |pieces| ==> pieces[k] == ""
  }

  /** Every character of `s` is `c` (vacuously true of ""). */
  predicate AllChar(s: string, c: char) {
    forall i :: 0 <= i < |s| ==> s[i] == c
  }

  /** The longest prefix of `s` that does not contain `c`. */
  function PrefixBefore(s: string, c: char): (p: string)
    ensures |p| <= |s| && p == s[..|p|]
    ensures c !in p
    ensures |p| == |s| || s[|p|] == c
    decreases |s|
  {
    if |s| == 0 || s[0] == c then ""
    else [s[0]] + PrefixBefore(s[1..], c)
  }

  /** Trailing empty strings removed, as `split` does with limit 0. */
  function DropTrailingEmpty(pieces: seq<string>): (r: seq<string>)
    ensures |r| <= |pieces| && r == pieces[..|r|]
    ensures |r| > 0 ==> r[|r| - 1] != ""
    ensures forall k :: |r| <= k < |pieces| ==> pieces[k] == ""
    decreases |pieces|
  {
    if |pieces| > 0 && pieces[|pieces| - 1] == "" then DropTrailingEmpty(pieces[..|pieces| - 1])
    else pieces
  }

  /**
   `s.split(regex)` where the regex is the single literal character `c`
   (for instance "\\." for '.'): when `c` does not occur, the whole string
   is the only element (so "" gives [""]); otherwise the pieces with
   trailing empty strings removed (so an all-`c` string gives []).
   */
  function Split(s: string, c: char): seq<string> {
    if c !in s then [s] else DropTrailingEmpty(SplitOn(s, [c]))
  }

  // ---------------------------------------------------------------------
  // Replace and SplitOn agree: replacing is joining the pieces with the
  // replacement, and joining them with the target gives `s` back.
  // ---------------------------------------------------------------------

  lemma {:induction false} JoinCons(p: string, rest: seq<string>, sep: string)
    requires |rest| > 0
    ensures Join([p] + rest, sep) == p + sep + Join(rest, sep)
  {
    assert ([p] + rest)[1..] == rest;
  }

  /** Prepending a character to the first piece prepends it to the join. */
  lemma {:induction false} JoinPrependFirst(ch: char, pieces: seq<string>, sep: string)
    requires |pieces| > 0
    ensures Join([[ch] + pieces[0]] + pieces[1..], sep) == [ch] + Join(pieces, sep)
  {
    if |pieces| == 1 {
      assert [[ch] + pieces[0]] + pieces[1..] == [[ch] + pieces[0]];
    } else {
      JoinCons([ch] + pieces[0], pieces[1..], sep);
      assert pieces == [pieces[0]] + pieces[1..];
      JoinCons(pieces[0], pieces[1..], sep);
    }
  }

  /** Java's `replace` is the join of the pieces with the replacement. */
  lemma {:induction false} ReplaceIsJoin(s: string, target: string, replacement: string)
    requires |target| > 0
    ensures Replace(s, target, replacement) == Join(SplitOn(s, target), replacement)
    decreases |s|
  {
    if |s| < |target| {
    } else if OccursAt(s, target, 0) {
      ReplaceIsJoin(s[|target|..], target, replacement);
      JoinCons("", SplitOn(s[|target|..], target), replacement);
    } else {
      ReplaceIsJoin(s[1..], target, replacement);
      JoinPrependFirst(s[0], SplitOn(s[1..], target), replacement);
    }
  }

  /** Joining the pieces with the target itself rebuilds the string. */
  lemma {:induction false} SplitOnJoin(s: string, target: string)
    requires |target| > 0
    ensures Join(SplitOn(s, target), target) == s
    decreases |s|
  {
    if |s| < |target| {
    } else if OccursAt(s, target, 0) {
      var tail := s[|target|..];
      SplitOnJoin(tail, target);
      JoinCons("", SplitOn(tail, target), target);
      assert SplitOn(s, target) == [""] + SplitOn(tail, target);
      assert Join(SplitOn(s, target), target) == target + tail;
      assert s == s[..|target|] + tail;
    } else {
      var tail := s[1..];
      SplitOnJoin(tail, target);
      var rest := SplitOn(tail, target);
      JoinPrependFirst(s[0], rest, target);
      assert SplitOn(s, target) == [[s[0]] + rest[0]] + rest[1..];
      assert s == [s[0]] + tail;
    }
  }

  /** The first piece is a prefix of the joined string. */
  lemma {:induction false} JoinStartsWithFirst(pieces: seq<string>, sep: string)
    requires |pieces| > 0
    ensures |pieces[0]| <= |Join(pieces, sep)|
    ensures Join(pieces, sep)[..|pieces[0]|] == pieces[0]
  {
    if |pieces| > 1 {
      assert Join(pieces, sep) == pieces[0] + (sep + Join(pieces[1..], sep));
    }
  }

  /** No piece contains the target: every occurrence was consumed. */
  lemma {:induction false} SplitOnPiecesFree(s: string, target: string)
    requires |target| > 0
    ensures forall k :: 0 <= k < |SplitOn(s, target)| ==> Free(SplitOn(s, target)[k], target)
    decreases |s|
  {
    var pieces := SplitOn(s, target);
    if |s| < |target| {
      forall i: nat ensures !OccursAt(s, target, i) { }
    } else if OccursAt(s, target, 0) {
      SplitOnPiecesFree(s[|target|..], target);
      var rest := SplitOn(s[|target|..], target);
      assert pieces == [""] + rest;
      forall k | 0 <= k < |pieces| ensures Free(pieces[k], target) {
        if k == 0 {
          forall i: nat ensures !OccursAt("", target, i) { }
        } else {
          assert pieces[k] == rest[k - 1];
        }
      }
    } else {
      SplitOnPiecesFree(s[1..], target);
      var rest := SplitOn(s[1..], target);
      var first := [s[0]] + rest[0];
      assert pieces == [first] + rest[1..];
      SplitOnJoin(s, target);
      JoinStartsWithFirst(pieces, target);
      assert first == s[..|first|];
      forall i: nat ensures !OccursAt(first, target, i) {
        if i == 0 {
          if |target| <= |first| {
            assert first[..|target|] == s[..|target|];
          }
        } else if i + |target| <= |first| {
          assert first[i..i + |target|] == rest[0][i - 1..i - 1 + |target|];
          assert !OccursAt(rest[0], target, i - 1);
        }
      }
      forall k | 0 <= k < |pieces| ensures Free(pieces[k], target) {
        if k > 0 {
          assert pieces[k] == rest[k];
        }
      }
    }
  }

  /** An occurrence past index 0 is an occurrence in the tail, one place earlier. */
  lemma OccursAtTail(s: string, target: string, i: nat)
    requires 0 < i <= |s|
    ensures OccursAt(s, target, i) <==> OccursAt(s[1..], target, i - 1)
  {
    if i + |target| <= |s| {
      assert s[i..i + |target|] == s[1..][i - 1..i - 1 + |target|];
    }
  }

  /** A single piece is the whole string, and means the target does not occur in it. */
  lemma {:induction false} SplitOnSinglePiece(s: string, target: string)
    requires |target| > 0
    requires |SplitOn(s, target)| == 1
    ensures SplitOn(s, target)[0] == s && Free(s, target)
    decreases |s|
  {
    if |s| < |target| {
      forall i: nat ensures !OccursAt(s, target, i) { }
    } else {
      assert !OccursAt(s, target, 0);
      var tail := s[1..];
      SplitOnSinglePiece(tail, target);
      forall i: nat ensures !OccursAt(s, target, i) {
        if 0 < i <= |s| {
          OccursAtTail(s, target, i);
        }
      }
    }
  }

  /**
   The cut is the leftmost one: with several pieces, the first piece ends
   at the first occurrence of the target, and the remaining pieces are
   those of the text after that occurrence.
   */
  lemma {:induction false} SplitOnLeftmost(s: string, target: string)
    requires |target| > 0
    requires |SplitOn(s, target)| > 1
    ensures var p0 := SplitOn(s, target)[0];
      && OccursAt(s, target, |p0|)
      && (forall i: nat :: i < |p0| ==> !OccursAt(s, target, i))
      && p0 == s[..|p0|]
      && SplitOn(s, target)[1..] == SplitOn(s[|p0| + |target|..], target)
    decreases |s|
  {
    var pieces := SplitOn(s, target);
    if OccursAt(s, target, 0) {
      var tail := s[|target|..];
      assert pieces == [""] + SplitOn(tail, target);
      assert pieces[1..] == SplitOn(tail, target);
    } else {
      var tail := s[1..];
      var rest := SplitOn(tail, target);
      assert pieces == [[s[0]] + rest[0]] + rest[1..];
      SplitOnLeftmost(tail, target);
      var k := |rest[0]|;
      OccursAtTail(s, target, k + 1);
      forall i: nat | 0 < i < k + 1 ensures !OccursAt(s, target, i) {
        OccursAtTail(s, target, i);
      }
      assert pieces[0] == s[..k + 1];
      assert tail[k + |target|..] == s[k + 1 + |target|..];
      assert pieces[1..] == rest[1..];
    }
  }

  /** A string that holds no occurrence of the target is left unchanged. */
  lemma {:induction false} ReplaceFree(s: string, target: string, replacement: string)
    requires |target| > 0
    requires Free(s, target)
    ensures Replace(s, target, replacement) == s
    decreases |s|
  {
    if |s| >= |target| {
      assert !OccursAt(s, target, 0);
      forall i: nat ensures !OccursAt(s[1..], target, i) {
        if i + |target| <= |s| - 1 {
          assert s[1..][i..i + |target|] == s[i + 1..i + 1 + |target|];
          assert !OccursAt(s, target, i + 1);
        }
      }
      ReplaceFree(s[1..], target, replacement);
      assert s == [s[0]] + s[1..];
    }
  }

  /** Replacing a one-character target by nothing deletes that character everywhere. */
  lemma {:induction false} ReplaceCharByNothing(s: string, c: char)
    ensures Replace(s, [c], "") == Without(s, c)
    decreases |s|
  {
    if |s| > 0 {
      ReplaceCharByNothing(s[1..], c);
      assert OccursAt(s, [c], 0) <==> s[0] == c;
    }
  }

  // ---------------------------------------------------------------------
  // Split with one character: when it is empty, and what its head is.
  // ---------------------------------------------------------------------

  /** Splitting on one character gives only empty pieces exactly when every character is that one. */
  lemma {:induction false} SplitOnCharAllEmpty(s: string, c: char)
    ensures AllEmpty(SplitOn(s, [c])) <==> AllChar(s, c)
    decreases |s|
  {
    var pieces := SplitOn(s, [c]);
    if |s| > 0 {
      SplitOnCharAllEmpty(s[1..], c);
      var rest := SplitOn(s[1..], [c]);
      if s[0] == c {
        assert OccursAt(s, [c], 0);
        assert pieces == [""] + rest;
        assert AllChar(s, c) <==> AllChar(s[1..], c) by {
          if AllChar(s[1..], c) {
            forall i | 0 <= i < |s| ensures s[i] == c {
              if i > 0 { assert s[i] == s[1..][i - 1]; }
            }
          }
        }
        assert AllEmpty(pieces) <==> AllEmpty(rest) by {
          if AllEmpty(rest) {
            forall k | 0 <= k < |pieces| ensures pieces[k] == "" {
              if k > 0 { assert pieces[k] == rest[k - 1]; }
            }
          }
          if AllEmpty(pieces) {
            forall k | 0 <= k < |rest| ensures rest[k] == "" {
              assert rest[k] == pieces[k + 1];
            }
          }
        }
      } else {
        assert !OccursAt(s, [c], 0);
        assert pieces[0] == [s[0]] + rest[0];
        assert pieces[0] != "";
        assert !AllEmpty(pieces);
        assert !AllChar(s, c);
      }
    }
  }

  /** The first piece of a one-character split is the text before the first occurrence. */
  lemma {:induction false} SplitOnCharHead(s: string, c: char)
    ensures SplitOn(s, [c])[0] == PrefixBefore(s, c)
    decreases |s|
  {
    if |s| > 0 {
      assert OccursAt(s, [c], 0) <==> s[0] == c;
      if s[0] != c {
        SplitOnCharHead(s[1..], c);
      }
    }
  }

  /** Java's `split` on one character returns nothing exactly for a non-empty string made only of that character. */
  lemma {:induction false} SplitEmptyIff(s: string, c: char)
    ensures Split(s, c) == [] <==> |s| > 0 && AllChar(s, c)
  {
    if c in s {
      var pieces := SplitOn(s, [c]);
      SplitOnCharAllEmpty(s, c);
      var r := DropTrailingEmpty(pieces);
      if r == [] {
        assert forall k :: |r| <= k < |pieces| ==> pieces[k] == "";
      } else {
        assert pieces[|r| - 1] == r[|r| - 1];
        assert pieces[|r| - 1] != "";
        assert !AllChar(s, c);
      }
    } else if |s| > 0 {
      assert s[0] != c;
    }
  }

  /** When Java's `split` on one character returns something, its first element is the text before the first occurrence. */
  lemma {:induction false} SplitHead(s: string, c: char)
    requires Split(s, c) != []
    ensures Split(s, c)[0] == PrefixBefore(s, c)
  {
    if c in s {
      SplitOnCharHead(s, c);
    } else {
      assert |PrefixBefore(s, c)| == |s|;
    }
  }
}
