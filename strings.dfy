/**
 * The few `java.lang.String` operations the converters use, on `seq<char>`.
 * Case conversion is modelled on ASCII letters only.
 */
module Strings {

  /** `String.trim` drops leading and trailing characters at or below U+0020. */
  predicate IsBlank(c: char) {
    c <= ' '
  }

  /** `String.trim`'s left half: drop blanks from the front. */
  function TrimLeft(s: string): (r: string)
    ensures |r| <= |s|
    ensures r == [] || !IsBlank(r[0])
    ensures |s| > 0 && !IsBlank(s[0]) ==> r == s
  {
    if |s| > 0 && IsBlank(s[0]) then TrimLeft(s[1..]) else s
  }

  /** What `TrimLeft` drops is a run of blanks, and what it keeps is the rest. */
  lemma {:induction false} TrimLeftDropsBlanks(s: string)
    ensures var r := TrimLeft(s);
            r == s[|s| - |r|..] && forall i :: 0 <= i < |s| - |r| ==> IsBlank(s[i])
    decreases |s|
  {
    if |s| > 0 && IsBlank(s[0]) {
      TrimLeftDropsBlanks(s[1..]);
    }
  }

  /** `String.trim`'s right half: drop blanks from the back. */
  function TrimRight(s: string): (r: string)
    ensures |r| <= |s|
    ensures r == [] || (r[0] == s[0] && !IsBlank(r[|r| - 1]))
    ensures |s| > 0 && !IsBlank(s[|s| - 1]) ==> r == s
  {
    if |s| > 0 && IsBlank(s[|s| - 1]) then TrimRight(s[..|s| - 1]) else s
  }

  /** What `TrimRight` drops is a run of blanks, and what it keeps is the rest. */
  lemma {:induction false} TrimRightDropsBlanks(s: string)
    ensures var r := TrimRight(s);
            r == s[..|r|] && forall i :: |r| <= i < |s| ==> IsBlank(s[i])
    decreases |s|
  {
    if |s| > 0 && IsBlank(s[|s| - 1]) {
      TrimRightDropsBlanks(s[..|s| - 1]);
    }
  }

  /** `String.trim`. */
  function Trim(s: string): (r: string)
    ensures |r| <= |s|
    ensures r == [] || (!IsBlank(r[0]) && !IsBlank(r[|r| - 1]))
    ensures |s| > 0 && !IsBlank(s[0]) && !IsBlank(s[|s| - 1]) ==> r == s
  {
    TrimRight(TrimLeft(s))
  }

  /** Trimming only removes characters, so it cannot bring in one that was not there. */
  lemma TrimKeepsOut(s: string, c: char)
    requires c !in s
    ensures c !in Trim(s)
  {
    TrimLeftDropsBlanks(s);
    var l := TrimLeft(s);
    assert forall i :: 0 <= i < |l| ==> l[i] == s[|s| - |l| + i];
    TrimRightDropsBlanks(l);
  }

  /** `String.indexOf(char)`: the first position of `c`, or -1. */
  function IndexOf(s: string, c: char): (r: int)
    ensures -1 <= r < |s|
    ensures r == -1 <==> c !in s
    ensures 0 <= r ==> s[r] == c && c !in s[..r]
  {
    if |s| == 0 then -1
    else if s[0] == c then 0
    else
      var k := IndexOf(s[1..], c);
      assert s[1..][..if k < 0 then 0 else k] == s[1..1 + (if k < 0 then 0 else k)];
      if k < 0 then -1 else k + 1
  }

  /** `String.lastIndexOf(char)`: the last position of `c`, or -1. */
  function LastIndexOf(s: string, c: char): (r: int)
    ensures -1 <= r < |s|
    ensures r == -1 <==> c !in s
    ensures 0 <= r ==> s[r] == c && c !in s[r + 1..]
  {
    if |s| == 0 then -1
    else if s[|s| - 1] == c then |s| - 1
    else
      var k := LastIndexOf(s[..|s| - 1], c);
      if k < 0 then
        assert s == s[..|s| - 1] + [s[|s| - 1]];
        -1
      else
        assert s[k + 1..] == s[..|s| - 1][k + 1..] + [s[|s| - 1]];
        k
  }

  function UpperChar(c: char): char {
    if 'a' <= c <= 'z' then (c as int - 32) as char else c
  }

  function LowerChar(c: char): char {
    if 'A' <= c <= 'Z' then (c as int + 32) as char else c
  }

  /** `String.toUpperCase` on ASCII letters. */
  function ToUpper(s: string): (r: string)
    ensures |r| == |s|
    ensures forall i :: 0 <= i < |s| ==> r[i] == UpperChar(s[i])
  {
    seq(|s|, i requires 0 <= i < |s| => UpperChar(s[i]))
  }

  /** `String.toLowerCase` on ASCII letters. */
  function ToLower(s: string): (r: string)
    ensures |r| == |s|
    ensures forall i :: 0 <= i < |s| ==> r[i] == LowerChar(s[i])
  {
    seq(|s|, i requires 0 <= i < |s| => LowerChar(s[i]))
  }

  /** Folding to lower case forgets an earlier fold to upper case. */
  lemma LowerOfUpper(s: string)
    ensures ToLower(ToUpper(s)) == ToLower(s)
  {
    assert forall i :: 0 <= i < |s| ==> LowerChar(UpperChar(s[i])) == LowerChar(s[i]);
  }

  /** Folding to upper case forgets an earlier fold to lower case. */
  lemma UpperOfLower(s: string)
    ensures ToUpper(ToLower(s)) == ToUpper(s)
  {
    assert forall i :: 0 <= i < |s| ==> UpperChar(LowerChar(s[i])) == UpperChar(s[i]);
  }

  /** `Boolean.parseBoolean`: true exactly for "true" in any letter case. */
  function ParseBoolean(s: string): bool {
    ToLower(s) == "true"
  }

  /** `String.valueOf(boolean)`. */
  function BoolText(b: bool): (r: string)
    ensures r == "true" <==> b
  {
    if b then "true" else "false"
  }

  /** `String.contains`: `sub` occurs somewhere in `s`. */
  predicate Contains(s: string, sub: string)
    decreases |s|
  {
    sub <= s || (|s| > 0 && Contains(s[1..], sub))
  }

  /** `String.join(sep, parts)`. */
  function Join(parts: seq<string>, sep: string): (r: string)
    ensures parts == [] ==> r == []
    ensures |parts| == 1 ==> r == parts[0]
  {
    if |parts| == 0 then []
    else if |parts| == 1 then parts[0]
    else parts[0] + sep + Join(parts[1..], sep)
  }

  /** A Java string literal's content in double quotes, as `"\"" + s + "\""`. */
  function Quoted(s: string): string {
    "\"" + s + "\""
  }
}
