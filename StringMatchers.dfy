/** The string predicates the compatibility rules compare names and plug-in IDs with
    (Engine/KnobSerialization.cpp:313-346), and the closed set of comparison kinds that
    stands for the `stringFuncPtr` each rule carries. */
module StringMatchers {
  import opened Common

  /** `startsWith`: the first |prefix| characters of `str` (fewer if `str` is shorter) equal `prefix`. */
  function StartsWith(str: string, prefix: string): (b: bool)
    ensures b <==> |prefix| <= |str| && forall i :: 0 <= i < |prefix| ==> str[i] == prefix[i]
  {
    str[..Min(|str|, |prefix|)] == prefix
  }

  /** `endsWith`: `str` is at least as long as `suffix` and its last |suffix| characters equal it. */
  function EndsWith(str: string, suffix: string): (b: bool)
    ensures b <==> |suffix| <= |str| && forall i :: 0 <= i < |suffix| ==> str[|str| - |suffix| + i] == suffix[i]
  {
    |str| >= |suffix| && str[|str| - |suffix|..] == suffix
  }

  /** `sub` occurs in `str` starting at position `i`. */
  predicate OccursAt(str: string, sub: string, i: nat)
  {
    i + |sub| <= |str| && str[i..i + |sub|] == sub
  }

  /** `std::string::find` from position `from`: the first position at or after `from` where `sub` occurs. */
  function FindFrom(str: string, sub: string, from: nat): (r: Option<nat>)
    requires from <= |str|
    ensures r.Some? ==> from <= r.value && OccursAt(str, sub, r.value)
    ensures r.Some? ==> forall j :: from <= j < r.value ==> !OccursAt(str, sub, j)
    ensures r.None? ==> forall j :: from <= j <= |str| ==> !OccursAt(str, sub, j)
    decreases |str| - from
  {
    if OccursAt(str, sub, from) then Some(from)
    else if from == |str| then None
    else FindFrom(str, sub, from + 1)
  }

  /** `containsString`: `str.find(substring) != npos`. The empty string occurs in every string. */
  function ContainsString(str: string, substring: string): (b: bool)
    ensures b <==> exists i :: 0 <= i <= |str| && OccursAt(str, substring, i)
    ensures substring == [] ==> b
  {
    assert OccursAt(str, [], 0);
    FindFrom(str, substring, 0).Some?
  }

  /** `str1 == str2` on `std::string`: the same length and the same character at every position. */
  function EqualsStringCaseSensitive(str1: string, str2: string): (b: bool)
    ensures b <==> |str1| == |str2| && forall i :: 0 <= i < |str1| ==> str1[i] == str2[i]
  {
    str1 == str2
  }

  /** ASCII upper-casing, the fold `boost::iequals` applies to each character pair. */
  function ToUpper(c: char): (u: char)
    ensures 'a' <= c <= 'z' ==> 'A' <= u <= 'Z' && u as int == c as int - 32
    ensures !('a' <= c <= 'z') ==> u == c
  {
    if 'a' <= c <= 'z' then (c as int - 32) as char else c
  }

  /** `boost::iequals`: walks both strings in step, comparing folded characters,
      and holds when both end together. */
  function EqualsStringCaseInsensitive(str1: string, str2: string): (b: bool)
    ensures b <==> |str1| == |str2| && forall i :: 0 <= i < |str1| ==> ToUpper(str1[i]) == ToUpper(str2[i])
    decreases |str1|
  {
    if str1 == [] || str2 == [] then str1 == [] && str2 == []
    else ToUpper(str1[0]) == ToUpper(str2[0]) && EqualsStringCaseInsensitive(str1[1..], str2[1..])
  }

  /** Which of the five predicates a rule compares with: the function pointer of
      `FilterMatcher::func` and `PluginMatch::func` as a closed set. */
  datatype Comparison = PrefixMatch | SuffixMatch | SubstringMatch | ExactMatch | CaseInsensitiveMatch

  /** Calls the predicate `func` with the subject first and the rule's string second,
      as `func(name, nameToMatch)` and `func(pluginID, it2->pluginID)` do. */
  function Compare(func: Comparison, subject: string, pattern: string): bool
  {
    match func
    case PrefixMatch => StartsWith(subject, pattern)
    case SuffixMatch => EndsWith(subject, pattern)
    case SubstringMatch => ContainsString(subject, pattern)
    case ExactMatch => EqualsStringCaseSensitive(subject, pattern)
    case CaseInsensitiveMatch => EqualsStringCaseInsensitive(subject, pattern)
  }

  /** Equal strings are equal ignoring case; the case-insensitive test is symmetric. */
  lemma CaseSensitiveImpliesInsensitive(str1: string, str2: string)
    ensures EqualsStringCaseSensitive(str1, str2) ==> EqualsStringCaseInsensitive(str1, str2)
    ensures EqualsStringCaseInsensitive(str1, str2) == EqualsStringCaseInsensitive(str2, str1)
  {
  }

  /** Every comparison kind accepts a subject equal to the rule's own string. */
  lemma CompareReflexive(func: Comparison, s: string)
    ensures Compare(func, s, s)
  {
    match func
    case PrefixMatch =>
    case SuffixMatch =>
    case SubstringMatch => assert OccursAt(s, s, 0);
    case ExactMatch =>
    case CaseInsensitiveMatch => CaseSensitiveImpliesInsensitive(s, s);
  }

  /** The exact predicate tells `r` from `R`; the case-insensitive one does not. */
  lemma CaseMatters()
    ensures !Compare(ExactMatch, "R", "r")
    ensures Compare(CaseInsensitiveMatch, "R", "r")
  {
    assert ToUpper('r') == 'R';
  }
}
