/**
 The enablement gate set by `FlowReconcileManager.init`: reconciliation is
 enabled unless the `enable` configuration value is present and equal,
 ignoring case, to `"false"`. Case-insensitive comparison follows Java's
 `String.equalsIgnoreCase`, with the case mappings restricted to ASCII.
 */
module EnableGate {

  /** The configuration key read by `init`. */
  const EnableConfigKey: string := "enable"

  /** The one value, compared ignoring case, that disables reconciliation. */
  const DisableValue: string := "false"

  /** `Character.toUpperCase`, restricted to ASCII letters. */
  function ToUpperAscii(c: char): char {
    if 'a' <= c <= 'z' then (c as int - 32) as char else c
  }

  /** `Character.toLowerCase`, restricted to ASCII letters. */
  function ToLowerAscii(c: char): char {
    if 'A' <= c <= 'Z' then (c as int + 32) as char else c
  }

  /** The per-character test of `String.regionMatches` with `ignoreCase`:
      equal, or equal after upper-casing, or equal after upper- then
      lower-casing. */
  predicate CharsMatchIgnoreCase(a: char, b: char) {
    || a == b
    || ToUpperAscii(a) == ToUpperAscii(b)
    || ToLowerAscii(ToUpperAscii(a)) == ToLowerAscii(ToUpperAscii(b))
  }

  /** The reference notion of case-insensitive equality: same length, and
      equal characters once both are lower-cased. */
  predicate SameLowerFold(s: string, t: string) {
    && |s| == |t|
    && forall i :: 0 <= i < |s| ==> ToLowerAscii(s[i]) == ToLowerAscii(t[i])
  }

  /** Java's three-step character test agrees with comparing lower-cased
      characters. */
  lemma CharsMatchIsLowerFold(a: char, b: char)
    ensures CharsMatchIgnoreCase(a, b) <==> ToLowerAscii(a) == ToLowerAscii(b)
  {
    if ToLowerAscii(a) == ToLowerAscii(b) {
      assert ToUpperAscii(a) == ToUpperAscii(b) || a == b;
    }
  }

  /** `regionMatches(true, 0, t, 0, |s|)` over two strings of equal length,
      character by character from the front. */
  function RegionMatchesIgnoreCase(s: string, t: string): (eq: bool)
    requires |s| == |t|
    ensures eq <==> SameLowerFold(s, t)
  {
    if s == [] then
      true
    else
      CharsMatchIsLowerFold(s[0], t[0]);
      var rest := RegionMatchesIgnoreCase(s[1..], t[1..]);
      assert SameLowerFold(s, t) <==> ToLowerAscii(s[0]) == ToLowerAscii(t[0]) && SameLowerFold(s[1..], t[1..]) by {
        if ToLowerAscii(s[0]) == ToLowerAscii(t[0]) && SameLowerFold(s[1..], t[1..]) {
          forall i | 0 < i < |s|
            ensures ToLowerAscii(s[i]) == ToLowerAscii(t[i])
          {
            assert s[i] == s[1..][i - 1] && t[i] == t[1..][i - 1];
          }
        }
      }
      CharsMatchIgnoreCase(s[0], t[0]) && rest
  }

  /** `String.equalsIgnoreCase`: equal lengths, then `regionMatches` with
      `ignoreCase` over the whole string. */
  function EqualsIgnoreCase(s: string, t: string): (eq: bool)
    ensures eq <==> SameLowerFold(s, t)
  {
    |s| == |t| && RegionMatchesIgnoreCase(s, t)
  }

  /** The reference list of spellings that disable reconciliation: the
      five letters of `false`, each in either case (32 spellings). */
  predicate IsFalseSpelling(s: string) {
    && |s| == 5
    && forall i :: 0 <= i < 5 ==> s[i] == "false"[i] || s[i] == "FALSE"[i]
  }

  /** A character lower-cases to a given lower-case letter exactly when it
      is that letter or its upper-case form. */
  lemma LowerFoldOfLetter(c: char, x: char)
    requires 'a' <= x <= 'z'
    ensures ToLowerAscii(c) == x <==> c == x || c == ToUpperAscii(x)
  {
  }

  /** Case-insensitive equality with `"false"` holds exactly for the 32
      case spellings of `false`. */
  lemma EqualsFalseIffFalseSpelling(s: string)
    ensures EqualsIgnoreCase(s, DisableValue) <==> IsFalseSpelling(s)
  {
    if |s| == 5 {
      forall i | 0 <= i < 5
        ensures ToLowerAscii(s[i]) == ToLowerAscii(DisableValue[i]) <==> s[i] == "false"[i] || s[i] == "FALSE"[i]
      {
        LowerFoldOfLetter(s[i], DisableValue[i]);
      }
    }
  }

  /** The flag `init` leaves in `flowReconcileEnabled`, given the module's
      configuration parameters: true when `enable` is absent, and false
      exactly when it is one of the case spellings of `false`. */
  function Init(configParams: map<string, string>): (flowReconcileEnabled: bool)
    ensures flowReconcileEnabled <==> EnableConfigKey !in configParams || !IsFalseSpelling(configParams[EnableConfigKey])
  {
    if EnableConfigKey in configParams then
      EqualsFalseIffFalseSpelling(configParams[EnableConfigKey]);
      !EqualsIgnoreCase(configParams[EnableConfigKey], DisableValue)
    else
      true
  }

  /** Examples: every casing of `false` disables reconciliation; any other
      value, or no value, leaves it enabled. */
  lemma InitExamples()
    ensures Init(map[])
    ensures !Init(map[EnableConfigKey := "false"])
    ensures !Init(map[EnableConfigKey := "FALSE"])
    ensures !Init(map[EnableConfigKey := "False"])
    ensures !Init(map[EnableConfigKey := "fAlSe"])
    ensures Init(map[EnableConfigKey := "true"])
    ensures Init(map[EnableConfigKey := "no"])
    ensures Init(map[EnableConfigKey := "0"])
    ensures Init(map[EnableConfigKey := ""])
    ensures Init(map[EnableConfigKey := " false"])
    ensures Init(map[EnableConfigKey := "falsey"])
    ensures Init(map["Enable" := "false"])
  {
    assert !IsFalseSpelling(" false") by { assert " false"[0] == ' '; }
  }
}
