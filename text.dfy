/** Character and suffix helpers shared by both stages. */
module Text {

  /** ASCII lower-casing of one character; every other character is kept. */
  function LowerChar(c: char): char
  {
    if 'A' <= c <= 'Z' then (c as int - 'A' as int + 'a' as int) as char else c
  }

  /** `s.toLowerCase()`, with ASCII case folding only. */
  function Lower(s: string): string
  {
    seq(|s|, i requires 0 <= i < |s| => LowerChar(s[i]))
  }

  /** `s.endsWith(suffix)` */
  predicate EndsWith(s: string, suffix: string)
  {
    |suffix| <= |s| && s[|s| - |suffix|..] == suffix
  }

  /** `s.toLowerCase().endsWith(suffix)`; `suffix` is given in lower case. */
  predicate EndsWithIgnoreCase(s: string, suffix: string)
  {
    EndsWith(Lower(s), suffix)
  }

  /** Lower-casing commutes with slicing off a tail. */
  lemma LowerTail(s: string, n: nat)
    requires n <= |s|
    ensures Lower(s)[|s| - n..] == Lower(s[|s| - n..])
  {
  }

  /** The case-insensitive suffix test only looks at the last |suffix| characters. */
  lemma EndsWithIgnoreCaseTail(s: string, suffix: string)
    ensures EndsWithIgnoreCase(s, suffix) <==> |suffix| <= |s| && Lower(s[|s| - |suffix|..]) == suffix
  {
    if |suffix| <= |s| {
      LowerTail(s, |suffix|);
    }
  }

  /** A string ending in an already lower-case suffix passes the case-insensitive test. */
  lemma EndsWithLowerSuffix(stem: string, suffix: string)
    requires Lower(suffix) == suffix
    ensures EndsWithIgnoreCase(stem + suffix, suffix)
  {
    var s := stem + suffix;
    assert s[|s| - |suffix|..] == suffix;
    EndsWithIgnoreCaseTail(s, suffix);
  }
}
