/** The few PHP runtime semantics the module relies on. */
module Php {

  /** PHP's `empty()` on a string value: true for "" and for "0". */
  predicate EmptyString(s: string) {
    s == "" || s == "0"
  }

  /** PHP's `empty($configuration[$key])`: a missing key reads as NULL, which is empty too. */
  predicate EmptyAt(configuration: map<string, string>, key: string) {
    key !in configuration || EmptyString(configuration[key])
  }

  function LowerChar(c: char): (l: char)
    ensures 'A' <= c <= 'Z' ==> l as int == c as int + 32
    ensures !('A' <= c <= 'Z') ==> l == c
  {
    if 'A' <= c <= 'Z' then (c as int - 'A' as int + 'a' as int) as char else c
  }

  /** `Unicode::strtolower`, restricted to the ASCII letters. */
  function Lower(s: string): (l: string)
    ensures |l| == |s|
    ensures forall i :: 0 <= i < |s| ==> l[i] == LowerChar(s[i])
  {
    if s == [] then [] else [LowerChar(s[0])] + Lower(s[1..])
  }
}
