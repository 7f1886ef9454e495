/**
 * The two Python string operations the chat handler relies on:
 * `str.strip()` without arguments and `sep.join(parts)`.
 */
module Text {

  /** The characters for which Python's `str.isspace()` holds. */
  predicate IsSpace(c: char)
  {
    || ('\t' <= c <= '\r')            // tab, line feed, vertical tab, form feed, carriage return
    || ('\U{1C}' <= c <= ' ')         // the four information separators and the space
    || c == '\U{85}' || c == '\U{A0}' || c == '\U{1680}'
    || ('\U{2000}' <= c <= '\U{200A}')
    || c == '\U{2028}' || c == '\U{2029}' || c == '\U{202F}' || c == '\U{205F}' || c == '\U{3000}'
  }

  predicate AllSpace(s: string)
  {
    forall i :: 0 <= i < |s| ==> IsSpace(s[i])
  }

  /** Where `s.lstrip()` starts cutting no more: the first non-whitespace position from `from` on. */
  function SpanStart(s: string, from: nat): (a: nat)
    requires from <= |s|
    ensures from <= a <= |s|
    ensures forall i :: from <= i < a ==> IsSpace(s[i])
    ensures a < |s| ==> !IsSpace(s[a])
    decreases |s| - from
  {
    if from < |s| && IsSpace(s[from]) then SpanStart(s, from + 1) else from
  }

  /** Where `s.rstrip()` stops, looking back from `hi` but not before `lo`. */
  function SpanEnd(s: string, lo: nat, hi: nat): (b: nat)
    requires lo <= hi <= |s|
    ensures lo <= b <= hi
    ensures forall i :: b <= i < hi ==> IsSpace(s[i])
    ensures b > lo ==> !IsSpace(s[b - 1])
    decreases hi
  {
    if hi > lo && IsSpace(s[hi - 1]) then SpanEnd(s, lo, hi - 1) else hi
  }

  /**
   * `s.strip()`: what is left of `s` once the whitespace at both ends is cut
   * away. The result neither starts nor ends with whitespace.
   */
  function Strip(s: string): (r: string)
    ensures |r| <= |s|
    ensures r != [] ==> !IsSpace(r[0]) && !IsSpace(r[|r| - 1])
  {
    var a := SpanStart(s, 0);
    var b := SpanEnd(s, a, |s|);
    s[a..b]
  }

  /** Only whitespace is cut: the stripped string is a slice of `s` with nothing but whitespace around it. */
  lemma StripSlice(s: string)
    ensures exists a ::
              && 0 <= a <= |s| - |Strip(s)| && Strip(s) == s[a..a + |Strip(s)|]
              && AllSpace(s[..a]) && AllSpace(s[a + |Strip(s)|..])
  {
    var a := SpanStart(s, 0);
    var b := SpanEnd(s, a, |s|);
    assert Strip(s) == s[a..b];
    assert AllSpace(s[..a]);
    assert AllSpace(s[b..]);
  }

  /** A string strips to nothing exactly when it is all whitespace. */
  lemma StripBlank(s: string)
    ensures Strip(s) == [] <==> AllSpace(s)
  {
    var a := SpanStart(s, 0);
    var b := SpanEnd(s, a, |s|);
    if a < |s| {
      assert !IsSpace(s[a]);
      assert b > a;
    } else {
      assert forall i :: 0 <= i < |s| ==> IsSpace(s[i]);
    }
  }

  /** Stripping twice cuts nothing more. */
  lemma StripIdempotent(s: string)
    ensures Strip(Strip(s)) == Strip(s)
  {
    var r := Strip(s);
    if r != [] {
      assert SpanStart(r, 0) == 0;
      assert SpanEnd(r, 0, |r|) == |r|;
    }
  }

  /** `sep.join(parts)`. */
  function Join(sep: string, parts: seq<string>): (r: string)
    decreases |parts|
  {
    if |parts| == 0 then ""
    else if |parts| == 1 then parts[0]
    else parts[0] + sep + Join(sep, parts[1..])
  }

  /** Where part `i` starts in `Join(sep, parts)`: all earlier parts, each followed by one separator. */
  function Offset(sep: string, parts: seq<string>, i: nat): (at: nat)
    requires i <= |parts|
    decreases i
  {
    if i == 0 then 0 else |parts[0]| + |sep| + Offset(sep, parts[1..], i - 1)
  }

  /** Total length of a join: every part, plus one separator between neighbours. */
  lemma {:induction false} JoinLength(sep: string, parts: seq<string>)
    requires |parts| > 0
    ensures |Join(sep, parts)| == Offset(sep, parts, |parts| - 1) + |parts[|parts| - 1]|
    decreases |parts|
  {
    if |parts| > 1 {
      JoinLength(sep, parts[1..]);
    }
  }

  /** A slice of `x + y` that lies wholly in `y`. */
  lemma SliceRight(x: string, y: string, a: nat, b: nat)
    requires a <= b <= |y|
    ensures (x + y)[|x| + a..|x| + b] == y[a..b]
  {
  }

  /**
   * Every part appears in the join, in order, at its offset, and is followed
   * by exactly one separator unless it is the last.
   */
  lemma {:induction false} JoinPartAt(sep: string, parts: seq<string>, i: nat)
    requires i < |parts|
    ensures Offset(sep, parts, i) + |parts[i]| <= |Join(sep, parts)|
    ensures Join(sep, parts)[Offset(sep, parts, i)..Offset(sep, parts, i) + |parts[i]|] == parts[i]
    ensures i + 1 < |parts| ==>
      Offset(sep, parts, i + 1) == Offset(sep, parts, i) + |parts[i]| + |sep| &&
      Offset(sep, parts, i + 1) <= |Join(sep, parts)|
    ensures i + 1 < |parts| ==>
      Join(sep, parts)[Offset(sep, parts, i) + |parts[i]|..Offset(sep, parts, i + 1)] == sep
    decreases i
  {
    var j := Join(sep, parts);
    if i == 0 {
      if |parts| > 1 {
        assert j == parts[0] + sep + Join(sep, parts[1..]);
        assert Offset(sep, parts, 1) == |parts[0]| + |sep| + Offset(sep, parts[1..], 0);
        assert j[|parts[0]|..|parts[0]| + |sep|] == sep;
      }
    } else {
      var tail := parts[1..];
      JoinPartAt(sep, tail, i - 1);
      var head := parts[0] + sep;
      var jt := Join(sep, tail);
      assert j == head + jt;
      var o := Offset(sep, tail, i - 1);
      assert Offset(sep, parts, i) == |head| + o;
      assert tail[i - 1] == parts[i];
      SliceRight(head, jt, o, o + |parts[i]|);
      if i + 1 < |parts| {
        assert Offset(sep, parts, i + 1) == |head| + Offset(sep, tail, i);
        var o2 := Offset(sep, tail, i);
        SliceRight(head, jt, o + |parts[i]|, o2);
      }
    }
  }
}
