/**
 * The string operations the pages apply to search boxes and form inputs:
 * `trim`, `toLowerCase` and `includes`. Only ASCII white space and ASCII
 * letters are modelled.
 */
module Text {

  /** The ASCII white-space characters that `String.prototype.trim` strips. */
  predicate IsSpace(c: char) {
    c == ' ' || c == '\t' || c == '\n' || c == '\r' || c == '\U{000B}' || c == '\U{000C}'
  }

  /** Every character is white space (the empty string included). */
  predicate IsBlank(s: string) {
    forall i | 0 <= i < |s| :: IsSpace(s[i])
  }

  lemma BlankConcat(a: string, b: string)
    requires IsBlank(a) && IsBlank(b)
    ensures IsBlank(a + b)
  {
    forall i | 0 <= i < |a + b| ensures IsSpace((a + b)[i]) {
      if i >= |a| { assert (a + b)[i] == b[i - |a|]; }
    }
  }

  /** Leading white space removed: the result is a suffix of `s`, what was cut is blank. */
  function TrimStart(s: string): (r: string)
    ensures |r| <= |s| && r == s[|s| - |r|..]
    ensures IsBlank(s[..|s| - |r|])
    ensures r != [] ==> !IsSpace(r[0])
  {
    if s != [] && IsSpace(s[0]) then
      var r := TrimStart(s[1..]);
      assert s[..|s| - |r|] == [s[0]] + s[1..][..|s| - 1 - |r|];
      BlankConcat([s[0]], s[1..][..|s| - 1 - |r|]);
      r
    else s
  }

  /** Trailing white space removed: the result is a prefix of `s`, what was cut is blank. */
  function TrimEnd(s: string): (r: string)
    ensures |r| <= |s| && r == s[..|r|]
    ensures IsBlank(s[|r|..])
    ensures r != [] ==> !IsSpace(r[|r| - 1])
  {
    if s != [] && IsSpace(s[|s| - 1]) then
      var r := TrimEnd(s[..|s| - 1]);
      assert s[|r|..] == s[..|s| - 1][|r|..] + [s[|s| - 1]];
      BlankConcat(s[..|s| - 1][|r|..], [s[|s| - 1]]);
      r
    else s
  }

  /**
   * `s.trim()`: a piece of `s` that neither starts nor ends with white
   * space, and it is empty exactly when `s` is blank.
   */
  function Trim(s: string): (r: string)
    ensures r == [] <==> IsBlank(s)
    ensures r != [] ==> !IsSpace(r[0]) && !IsSpace(r[|r| - 1])
    ensures Contains(s, r)
    ensures exists i | 0 <= i <= |s| - |r| :: CutAt(s, r, i)
  {
    TrimEmptyWhenBlank(s);
    TrimBlankWhenEmpty(s);
    TrimOccurs(s);
    TrimEnd(TrimStart(s))
  }

  /** `r` sits at position `i` of `s` and everything around it is blank. */
  predicate CutAt(s: string, r: string, i: int)
    requires 0 <= i <= |s| - |r|
  {
    IsBlank(s[..i]) && s[i..i + |r|] == r && IsBlank(s[i + |r|..])
  }

  lemma TrimOccurs(s: string)
    ensures Contains(s, TrimEnd(TrimStart(s)))
    ensures exists i | 0 <= i <= |s| - |TrimEnd(TrimStart(s))| :: CutAt(s, TrimEnd(TrimStart(s)), i)
  {
    var t := TrimStart(s);
    var r := TrimEnd(t);
    var i := |s| - |t|;
    assert s[i..i + |r|] == t[..|r|];
    assert OccursAt(s, r, i);
    assert s[i + |r|..] == t[|r|..];
    assert CutAt(s, r, i);
  }

  lemma TrimBlankWhenEmpty(s: string)
    ensures TrimEnd(TrimStart(s)) == [] ==> IsBlank(s)
  {
    var t := TrimStart(s);
    if TrimEnd(t) == [] {
      assert t[0..] == t;
      // a blank `t` would have had its first character trimmed already
      assert IsBlank(t);
      assert t == [];
      assert s[..|s|] == s;
    }
  }

  lemma TrimEmptyWhenBlank(s: string)
    ensures IsBlank(s) ==> TrimStart(s) == []
  {
    var t := TrimStart(s);
    if t != [] {
      assert t[0] == s[|s| - |t|];
    }
  }

  /** Trimming an already trimmed string changes nothing. */
  lemma TrimIdempotent(s: string)
    ensures Trim(Trim(s)) == Trim(s)
  {
    var t := Trim(s);
    if t != [] {
      var a := TrimStart(t);
      assert !IsBlank(t[..1]);
      assert a == t;
      var b := TrimEnd(t);
      assert !IsBlank(t[|t| - 1..]);
      assert b == t;
    }
  }

  /** ASCII `toLowerCase` of one character. */
  function LowerChar(c: char): char {
    if 'A' <= c <= 'Z' then (c as int + 32) as char else c
  }

  /** ASCII `toLowerCase`: same length, each letter lowered. */
  function Lower(s: string): (r: string)
    ensures |r| == |s|
    ensures forall i | 0 <= i < |s| :: r[i] == LowerChar(s[i])
  {
    seq(|s|, i requires 0 <= i < |s| => LowerChar(s[i]))
  }

  /** `needle` occurs in `hay` starting at position `i`. */
  predicate OccursAt(hay: string, needle: string, i: int) {
    0 <= i && i + |needle| <= |hay| && hay[i..i + |needle|] == needle
  }

  /** `hay.includes(needle)`. */
  predicate Contains(hay: string, needle: string) {
    exists i | 0 <= i <= |hay| - |needle| :: OccursAt(hay, needle, i)
  }

  /** Every string includes the empty string, so an empty search box matches everything. */
  lemma ContainsEmpty(hay: string)
    ensures Contains(hay, "")
  {
    assert OccursAt(hay, "", 0);
  }

  /** A needle longer than the haystack never occurs in it. */
  lemma NotContainsLonger(hay: string, needle: string)
    requires |needle| > |hay|
    ensures !Contains(hay, needle)
  {
  }
}
