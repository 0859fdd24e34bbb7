/** The string operations the filters and forms rely on: lower-casing, `includes`, the default
    `Array.prototype.sort` string order and `String.prototype.trim`. */
module Text {

  /** `toLowerCase`, restricted to the ASCII letters. */
  function LowerChar(c: char): char {
    if 'A' <= c <= 'Z' then (c as int - 'A' as int + 'a' as int) as char else c
  }

  function Lower(s: string): (r: string)
    ensures |r| == |s|
    ensures forall i :: 0 <= i < |s| ==> r[i] == LowerChar(s[i])
  {
    seq(|s|, i requires 0 <= i < |s| => LowerChar(s[i]))
  }

  /** `needle` occurs in `hay` starting at index `i`. */
  ghost predicate OccursAt(hay: string, needle: string, i: int) {
    0 <= i && i + |needle| <= |hay| && hay[i..i + |needle|] == needle
  }

  predicate StartsWith(hay: string, prefix: string) {
    |prefix| <= |hay| && hay[..|prefix|] == prefix
  }

  /** Substring search (`includes`), from the left. */
  predicate Includes(hay: string, needle: string)
    decreases |hay|
  {
    StartsWith(hay, needle) || (hay != [] && Includes(hay[1..], needle))
  }

  /** `includes` finds `needle` exactly when it occurs at some index. */
  lemma {:induction false} IncludesIff(hay: string, needle: string)
    ensures Includes(hay, needle) <==> exists i :: OccursAt(hay, needle, i)
    decreases |hay|
  {
    if StartsWith(hay, needle) {
      assert OccursAt(hay, needle, 0);
    } else if hay == [] {
    } else {
      var tail := hay[1..];
      IncludesIff(tail, needle);
      if exists i :: OccursAt(hay, needle, i) {
        var i :| OccursAt(hay, needle, i);
        assert i != 0;
        assert tail[i - 1..i - 1 + |needle|] == hay[i..i + |needle|];
        assert OccursAt(tail, needle, i - 1);
      }
      if exists i :: OccursAt(tail, needle, i) {
        var i :| OccursAt(tail, needle, i);
        assert hay[i + 1..i + 1 + |needle|] == tail[i..i + |needle|];
        assert OccursAt(hay, needle, i + 1);
      }
    }
  }

  /** The default string order of `Array.prototype.sort`: lexicographic on characters, a
      proper prefix first. */
  predicate StrLess(a: string, b: string)
    decreases |a|
  {
    if a == [] then b != []
    else if b == [] then false
    else if a[0] != b[0] then a[0] < b[0]
    else StrLess(a[1..], b[1..])
  }

  lemma {:induction false} StrLessIrreflexive(a: string)
    ensures !StrLess(a, a)
    decreases |a|
  {
    if a != [] { StrLessIrreflexive(a[1..]); }
  }

  lemma {:induction false} StrLessTransitive(a: string, b: string, c: string)
    requires StrLess(a, b) && StrLess(b, c)
    ensures StrLess(a, c)
    decreases |a|
  {
    if a != [] && b != [] && c != [] && a[0] == b[0] && b[0] == c[0] {
      StrLessTransitive(a[1..], b[1..], c[1..]);
    }
  }

  lemma {:induction false} StrLessTotal(a: string, b: string)
    ensures a == b || StrLess(a, b) || StrLess(b, a)
    decreases |a|
  {
    if a != [] && b != [] && a[0] == b[0] {
      StrLessTotal(a[1..], b[1..]);
      if a[1..] == b[1..] {
        assert a == [a[0]] + a[1..] && b == [b[0]] + b[1..];
      }
    }
  }

  /** `WhiteSpace` and `LineTerminator` of the ECMAScript grammar: what `trim` removes. */
  predicate IsJsSpace(c: char) {
    c == '\t' || c == '\n' || c == '\U{B}' || c == '\U{C}' || c == '\r' || c == ' '
    || c == '\U{A0}' || c == '\U{1680}' || ('\U{2000}' <= c <= '\U{200A}')
    || c == '\U{2028}' || c == '\U{2029}' || c == '\U{202F}' || c == '\U{205F}'
    || c == '\U{3000}' || c == '\U{FEFF}'
  }

  function TrimStart(s: string): string
    decreases |s|
  {
    if s != [] && IsJsSpace(s[0]) then TrimStart(s[1..]) else s
  }

  function TrimEnd(s: string): string
    decreases |s|
  {
    if s != [] && IsJsSpace(s[|s| - 1]) then TrimEnd(s[..|s| - 1]) else s
  }

  /** `trim`: the string without its leading and trailing whitespace. */
  function Trim(s: string): (r: string)
    ensures |r| <= |s|
    ensures r != [] ==> !IsJsSpace(r[0]) && !IsJsSpace(r[|r| - 1])
  {
    TrimStartShape(s);
    TrimEndShape(TrimStart(s));
    TrimEnd(TrimStart(s))
  }

  ghost predicate AllSpace(s: string) {
    forall i :: 0 <= i < |s| ==> IsJsSpace(s[i])
  }

  /** `TrimStart` drops a run of white space from the front and nothing else. */
  lemma {:induction false} TrimStartShape(s: string)
    ensures |TrimStart(s)| <= |s|
    ensures TrimStart(s) == s[|s| - |TrimStart(s)|..]
    ensures AllSpace(s[..|s| - |TrimStart(s)|])
    ensures TrimStart(s) == [] || !IsJsSpace(TrimStart(s)[0])
    decreases |s|
  {
    if s != [] && IsJsSpace(s[0]) {
      var tail := s[1..];
      TrimStartShape(tail);
      var k := |tail| - |TrimStart(tail)|;
      assert tail[k..] == s[k + 1..];
      var lead := s[..k + 1];
      forall i | 0 <= i < |lead| ensures IsJsSpace(lead[i]) {
        if i > 0 { assert lead[i] == tail[..k][i - 1]; }
      }
    }
  }

  /** `TrimEnd` drops a run of white space from the back and nothing else. */
  lemma {:induction false} TrimEndShape(s: string)
    ensures |TrimEnd(s)| <= |s|
    ensures TrimEnd(s) == s[..|TrimEnd(s)|]
    ensures AllSpace(s[|TrimEnd(s)|..])
    ensures TrimEnd(s) == [] || !IsJsSpace(TrimEnd(s)[|TrimEnd(s)| - 1])
    decreases |s|
  {
    if s != [] && IsJsSpace(s[|s| - 1]) {
      var init := s[..|s| - 1];
      TrimEndShape(init);
      var k := |TrimEnd(init)|;
      assert init[..k] == s[..k];
      var trail := s[k..];
      forall i | 0 <= i < |trail| ensures IsJsSpace(trail[i]) {
        if i < |init| - k { assert trail[i] == init[k..][i]; }
      }
    }
  }

  /** `trim` removes only white space, from both ends. */
  lemma TrimShape(s: string)
    ensures exists i, j :: 0 <= i <= j <= |s| && Trim(s) == s[i..j] && AllSpace(s[..i]) && AllSpace(s[j..])
  {
    TrimStartShape(s);
    var i := |s| - |TrimStart(s)|;
    var mid := s[i..];
    TrimEndShape(mid);
    var k := |TrimEnd(mid)|;
    assert mid[..k] == s[i..i + k];
    assert s[i + k..] == mid[k..];
  }

  /** A string trims to nothing exactly when it is all white space. */
  lemma TrimEmptyIff(s: string)
    ensures Trim(s) == "" <==> AllSpace(s)
  {
    TrimShape(s);
    var i, j :| 0 <= i <= j <= |s| && Trim(s) == s[i..j] && AllSpace(s[..i]) && AllSpace(s[j..]);
    if Trim(s) == "" {
      forall m | 0 <= m < |s| ensures IsJsSpace(s[m]) {
        if m < i { assert s[..i][m] == s[m]; } else { assert s[j..][m - j] == s[m]; }
      }
    } else {
      assert !IsJsSpace(s[i]);
    }
  }
}
