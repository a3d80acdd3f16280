/** The string operations the pages apply to record fields and borough names. */
module Strings {

  /** `s.split(sep)[0]`: the text before the first `sep`, or all of `s` when there is none. */
  function FirstSegment(s: string, sep: char): (r: string)
    ensures r <= s
    ensures sep !in r
    ensures |r| < |s| ==> s[|r|] == sep
    decreases |s|
  {
    if s == [] || s[0] == sep then [] else [s[0]] + FirstSegment(s[1..], sep)
  }

  /** Splitting `a + sep + b` at the first `sep` gives back `a` whenever `a` holds no `sep`. */
  lemma SplitAtFirst(a: string, b: string, sep: char)
    requires sep !in a
    ensures FirstSegment(a + [sep] + b, sep) == a
  {
    var s := a + [sep] + b;
    var r := FirstSegment(s, sep);
    assert forall i :: 0 <= i < |a| ==> s[i] == a[i] && s[i] != sep;
    assert s[|a|] == sep;
    assert |r| == |a|;
    assert s[..|a|] == a;
  }

  /** ASCII lower-casing of one character; every other character is left as it is. */
  function LowerChar(ch: char): char
  {
    if 'A' <= ch <= 'Z' then (ch as int + 32) as char else ch
  }

  /** `s.toLowerCase()` on ASCII text. */
  function ToLowerAscii(s: string): (r: string)
    ensures |r| == |s|
    ensures forall i :: 0 <= i < |s| ==> r[i] == LowerChar(s[i])
  {
    seq(|s|, i requires 0 <= i < |s| => LowerChar(s[i]))
  }

  /** The position of the first `ch` in `s`. */
  function FirstIndex(s: string, ch: char): (k: nat)
    requires ch in s
    ensures k < |s| && s[k] == ch && ch !in s[..k]
    decreases |s|
  {
    if s[0] == ch then 0 else 1 + FirstIndex(s[1..], ch)
  }

  /**
   * `s.replace(from, to)` with a one-character string pattern: only the first occurrence of
   * `from` becomes `to`; a string without `from` comes back unchanged.
   */
  function ReplaceFirst(s: string, from: char, to: char): (r: string)
    ensures from !in s ==> r == s
    ensures from in s ==> var k := FirstIndex(s, from); r == s[..k] + [to] + s[k + 1..]
    decreases |s|
  {
    if s == [] then []
    else if s[0] == from then [to] + s[1..]
    else [s[0]] + ReplaceFirst(s[1..], from, to)
  }

  /** Replacing the first `from` of `a + from + b`, where `a` holds none, leaves `b` as it is. */
  lemma {:induction false} ReplaceFirstAt(a: string, b: string, from: char, to: char)
    requires from !in a
    ensures ReplaceFirst(a + [from] + b, from, to) == a + [to] + b
    decreases |a|
  {
    if a == [] {
      assert a + [from] + b == [from] + b;
    } else {
      assert (a + [from] + b)[1..] == a[1..] + [from] + b;
      ReplaceFirstAt(a[1..], b, from, to);
      assert a + [to] + b == [a[0]] + (a[1..] + [to] + b);
    }
  }
}
