/** One logical line of a .properties text: its key, its value and its escapes. */
module PropertyFormat {

  const FORM_FEED: char := '\U{0C}'

  predicate IsSpace(c: char) {
    c == ' ' || c == '\t' || c == FORM_FEED
  }

  predicate IsSeparator(c: char) {
    c == '=' || c == ':'
  }

  // ----- backslashes -----

  /** The number of backslashes right before `i`. */
  function BackslashesBefore(s: string, i: nat): nat
    requires i <= |s|
  {
    if i > 0 && s[i - 1] == '\\' then 1 + BackslashesBefore(s, i - 1) else 0
  }

  /** A character is escaped when an odd number of backslashes stands before it. */
  predicate Escaped(s: string, i: nat)
    requires i <= |s|
  {
    BackslashesBefore(s, i) % 2 == 1
  }

  lemma EscapedStep(s: string, i: nat)
    requires i < |s|
    ensures Escaped(s, i + 1) == (s[i] == '\\' && !Escaped(s, i))
  {
  }

  lemma {:induction false} EscapedBehind(s: string, t: string, i: nat)
    requires i <= |t| && (s == [] || s[|s| - 1] != '\\')
    ensures Escaped(s + t, |s| + i) == Escaped(t, i)
    decreases i
  {
    if i > 0 {
      EscapedBehind(s, t, i - 1);
      EscapedStep(s + t, |s| + i - 1);
      EscapedStep(t, i - 1);
    }
  }

  // ----- key and value -----

  /** `i` ends the key: a separator or a space there is not escaped. */
  predicate EndsKey(s: string, i: nat)
    requires i < |s|
  {
    (IsSeparator(s[i]) || IsSpace(s[i])) && !Escaped(s, i)
  }

  ghost predicate IsKeyLength(s: string, k: nat) {
    k <= |s| && (k < |s| ==> EndsKey(s, k)) && forall i :: 0 <= i < k ==> !EndsKey(s, i)
  }

  /** The space at the start of `s`. */
  function LeadingSpace(s: string): (n: nat)
    ensures n <= |s| && (forall i :: 0 <= i < n ==> IsSpace(s[i])) && (n < |s| ==> !IsSpace(s[n]))
  {
    if s != [] && IsSpace(s[0]) then 1 + LeadingSpace(s[1..]) else 0
  }

  function Strip(s: string): string {
    s[LeadingSpace(s)..]
  }

  /** What follows the key: space, at most one separator, and space are not part of the value. */
  function ValueOf(s: string, k: nat): string
    requires k <= |s|
  {
    var t := Strip(s[k..]);
    if t != [] && IsSeparator(t[0]) then Strip(t[1..]) else t
  }

  // ----- escapes -----

  predicate IsEscape(c: char) {
    c in "abfnrt\\\"'0! #:=u"
  }

  predicate IsHex(c: char) {
    '0' <= c <= '9' || 'a' <= c <= 'f' || 'A' <= c <= 'F'
  }

  /** The backslash at `i`, which is not escaped itself, starts a valid escape. A backslash at the
      very end counts as valid. */
  predicate EscapeAt(s: string, i: nat)
    requires i < |s|
  {
    i + 1 == |s| ||
    (IsEscape(s[i + 1]) &&
     (s[i + 1] == 'u' ==> i + 6 <= |s| && forall j :: i + 2 <= j < i + 6 ==> IsHex(s[j])))
  }

  ghost predicate EscapesValid(s: string) {
    forall i :: 0 <= i < |s| && s[i] == '\\' && !Escaped(s, i) ==> EscapeAt(s, i)
  }

  /** A non-empty key, a non-empty value, and only valid escapes. */
  ghost predicate ValidLine(s: string) {
    exists k :: IsKeyLength(s, k) && k > 0 && ValueOf(s, k) != [] && EscapesValid(s)
  }

  lemma KeyLengthIsUnique(s: string, j: nat, k: nat)
    requires IsKeyLength(s, j) && IsKeyLength(s, k)
    ensures j == k
  {
  }

  // ----- the validator of one line -----

  method FindKey(s: string) returns (k: nat, valueStart: nat, hasSep: bool)
    ensures IsKeyLength(s, k)
    ensures k == |s| ==> valueStart == |s|
    ensures k < |s| ==> valueStart == k + 1 && hasSep == IsSeparator(s[k])
  {
    k, valueStart, hasSep := 0, |s|, false;
    var precedingBackslash := false;
    while k < |s|
      invariant 0 <= k <= |s| && valueStart == |s| && !hasSep
      invariant precedingBackslash == Escaped(s, k)
      invariant forall i :: 0 <= i < k ==> !EndsKey(s, i)
    {
      var c := s[k];
      if IsSeparator(c) && !precedingBackslash {
        valueStart, hasSep := k + 1, true;
        return;
      }
      if IsSpace(c) && !precedingBackslash {
        valueStart := k + 1;
        return;
      }
      EscapedStep(s, k);
      precedingBackslash := if c == '\\' then !precedingBackslash else false;
      k := k + 1;
    }
  }

  /** The value that the loop over spaces and a separator will find from `i` on. */
  function Remaining(s: string, i: nat, hasSep: bool): string
    requires i <= |s|
  {
    var t := Strip(s[i..]);
    if !hasSep && t != [] && IsSeparator(t[0]) then Strip(t[1..]) else t
  }

  lemma RemainingStep(s: string, i: nat, hasSep: bool)
    requires i < |s|
    ensures IsSpace(s[i]) ==> Remaining(s, i, hasSep) == Remaining(s, i + 1, hasSep)
    ensures !IsSpace(s[i]) && IsSeparator(s[i]) && !hasSep ==> Remaining(s, i, hasSep) == Remaining(s, i + 1, true)
    ensures !IsSpace(s[i]) && !(IsSeparator(s[i]) && !hasSep) ==> Remaining(s, i, hasSep) == s[i..]
  {
    var t := s[i..];
    assert t[1..] == s[i + 1..] && t[0] == s[i];
    if IsSpace(s[i]) {
      assert Strip(t) == Strip(t[1..]) by { assert t[1 + LeadingSpace(t[1..])..] == t[1..][LeadingSpace(t[1..])..]; }
    } else {
      assert Strip(t) == t;
    }
  }

  /** The loop that skips to the value. */
  method SkipToValue(s: string, start: nat, hasSep0: bool) returns (valueStart: nat)
    requires start <= |s|
    ensures valueStart <= |s| && s[valueStart..] == Remaining(s, start, hasSep0)
  {
    hide Remaining;
    valueStart := start;
    var hasSep := hasSep0;
    AtTheEnd(s);
    while valueStart < |s|
      invariant valueStart <= |s| && Remaining(s, valueStart, hasSep) == Remaining(s, start, hasSep0)
    {
      RemainingStep(s, valueStart, hasSep);
      var c := s[valueStart];
      if !IsSpace(c) {
        if !hasSep && IsSeparator(c) {
          hasSep := true;
        } else {
          break;
        }
      }
      valueStart := valueStart + 1;
    }
  }

  lemma AtTheEnd(s: string)
    ensures forall hasSep :: Remaining(s, |s|, hasSep) == s[|s|..]
  {
    assert s[|s|..] == [];
  }

  /** What the escape loop has found so far: it stands at `i`, which is not escaped, and every escape
      that starts before `i` is valid and ends before `i`. */
  ghost predicate CheckedTo(s: string, i: nat) {
    && (i <= |s| ==> !Escaped(s, i))
    && forall j :: 0 <= j < i && j < |s| && s[j] == '\\' && !Escaped(s, j) ==> EscapeAt(s, j)
  }

  lemma EscapeStep(s: string, i: nat)
    requires i < |s| && CheckedTo(s, i)
    ensures s[i] != '\\' ==> CheckedTo(s, i + 1)
    ensures s[i] == '\\' && EscapeAt(s, i) ==> CheckedTo(s, if i + 1 < |s| && s[i + 1] == 'u' then i + 6 else i + 2)
  {
    EscapedStep(s, i);
    if s[i] == '\\' && i + 1 < |s| {
      EscapedStep(s, i + 1);
      if s[i + 1] == 'u' && EscapeAt(s, i) {
        PlainRun(s, i + 2, i + 6);
      }
    }
  }

  lemma {:induction false} PlainRun(s: string, i: nat, k: nat)
    requires i <= k <= |s| && !Escaped(s, i) && forall j :: i <= j < k ==> IsHex(s[j])
    ensures !Escaped(s, k)
    decreases k - i
  {
    if i < k {
      EscapedStep(s, i);
      PlainRun(s, i + 1, k);
    }
  }

  method ValidateKeyOrValue(s: string, start: nat, end: nat) returns (ok: bool)
    ensures ok <==> start < end && EscapesValid(s)
  {
    if start >= end {
      return false;
    }
    var index := 0;
    while index < |s|
      invariant 0 <= index && CheckedTo(s, index)
      decreases |s| - index
    {
      EscapeStep(s, index);
      var at := index;
      var c := s[index];
      index := index + 1;
      if c != '\\' {
        continue;
      }
      if index < |s| && !IsEscape(s[index]) {
        assert !EscapeAt(s, at);
        return false;
      }
      index := index + 1;
      if index <= |s| && s[index - 1] == 'u' {
        if index + 4 > |s| || !(IsHex(s[index]) && IsHex(s[index + 1]) && IsHex(s[index + 2]) && IsHex(s[index + 3])) {
          assert !EscapeAt(s, at);
          return false;
        }
        index := index + 4;
      }
    }
    return true;
  }

  /** A line is valid iff it has a non-empty key, a non-empty value and only valid escapes. */
  method ValidateProperty(s: string) returns (ok: bool)
    ensures ok <==> ValidLine(s)
  {
    var k, start, hasSep := FindKey(s);
    var valueStart := SkipToValue(s, start, hasSep);
    ValueIsRemaining(s, k, start, hasSep);
    ok := ValidateKeyOrValue(s, 0, k);
    if ok {
      ok := ValidateKeyOrValue(s, valueStart, |s|);
    }
    forall j: nat | IsKeyLength(s, j)
      ensures j == k
    {
      KeyLengthIsUnique(s, j, k);
    }
  }

  lemma ValueIsRemaining(s: string, k: nat, start: nat, hasSep: bool)
    requires IsKeyLength(s, k) && start <= |s| && (k == |s| ==> start == |s|)
    requires k < |s| ==> start == k + 1 && hasSep == IsSeparator(s[k])
    ensures ValueOf(s, k) == Remaining(s, start, hasSep)
  {
    if k < |s| {
      assert ValueOf(s, k) == Remaining(s, k, false);
      hide Remaining, ValueOf, Strip;
      RemainingStep(s, k, false);
    } else {
      assert s[k..] == [];
    }
  }
}
