/** The few PHP string built-ins the setup code relies on. */
module PhpStrings {

  /** ASCII upper-casing of one character (`ucfirst` is locale-independent from PHP 8.2 on). */
  function ToUpperAscii(c: char): char
  {
    if 'a' <= c <= 'z' then (c as int - 32) as char else c
  }

  /** PHP `ucfirst`: upper-case the first character, keep the rest. */
  function Ucfirst(s: string): string
  {
    if s == "" then s else [ToUpperAscii(s[0])] + s[1..]
  }

  /** PHP `implode($separator, $pieces)` / `join`. */
  function Join(separator: string, pieces: seq<string>): string
  {
    if pieces == [] then ""
    else if |pieces| == 1 then pieces[0]
    else Join(separator, pieces[..|pieces| - 1]) + separator + pieces[|pieces| - 1]
  }

  /** `sprintf('"%s"', $s)`: the string in double quotes. */
  function Quoted(s: string): string
  {
    "\"" + s + "\""
  }

  /** PHP `$s ?: ''` on a string: the strings "" and "0" are falsy. */
  function OrEmpty(s: string): string
  {
    if s == "" || s == "0" then "" else s
  }

  /** `needle` occurs in `haystack` starting at position `i`. */
  predicate OccursAt(haystack: string, needle: string, i: int)
  {
    0 <= i <= |haystack| - |needle| && haystack[i..i + |needle|] == needle
  }

  /** `needle` occurs somewhere inside `haystack`. */
  predicate Contains(haystack: string, needle: string)
  {
    exists i :: 0 <= i <= |haystack| && OccursAt(haystack, needle, i)
  }

  lemma ContainsMiddle(prefix: string, needle: string, suffix: string)
    ensures Contains(prefix + needle + suffix, needle)
  {
    var s := prefix + needle + suffix;
    assert OccursAt(s, needle, |prefix|);
  }
}
