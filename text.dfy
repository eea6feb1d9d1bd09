/**
 * The one string operation the tracker relies on: JavaScript's
 * `String.prototype.trim`, used when a habit is renamed and when the table
 * decides whether the last row is still blank.
 */
module Text {

  /** The characters `trim` strips: ECMAScript's WhiteSpace (tab, vertical
      tab, form feed, space, no-break space, byte order mark and the other
      Unicode space separators) and LineTerminator (LF, CR, U+2028, U+2029). */
  predicate IsSpace(c: char)
  {
    c == '\t' || c == '\n' || c == '\U{000B}' || c == '\U{000C}' || c == '\r' || c == ' '
    || c == '\U{00A0}' || c == '\U{1680}' || ('\U{2000}' <= c <= '\U{200A}')
    || c == '\U{2028}' || c == '\U{2029}' || c == '\U{202F}' || c == '\U{205F}'
    || c == '\U{3000}' || c == '\U{FEFF}'
  }

  predicate AllSpace(s: string)
  {
    forall i :: 0 <= i < |s| ==> IsSpace(s[i])
  }

  /** The length of the white-space run at the start of `s`. */
  function LeadingSpace(s: string): (n: nat)
    ensures n <= |s|
  {
    if s != [] && IsSpace(s[0]) then 1 + LeadingSpace(s[1..]) else 0
  }

  /** Every character before the leading run's end is white space, and the
      one at its end, if any, is not. */
  lemma {:induction false} LeadingSpaceRun(s: string)
    ensures forall i :: 0 <= i < LeadingSpace(s) ==> IsSpace(s[i])
    ensures LeadingSpace(s) < |s| ==> !IsSpace(s[LeadingSpace(s)])
  {
    if s != [] && IsSpace(s[0]) {
      LeadingSpaceRun(s[1..]);
      assert forall i :: 1 <= i < |s| ==> s[i] == s[1..][i - 1];
    }
  }

  /** The length of the white-space run at the end of `s`. */
  function TrailingSpace(s: string): (n: nat)
    ensures n <= |s|
  {
    if s != [] && IsSpace(s[|s| - 1]) then 1 + TrailingSpace(s[..|s| - 1]) else 0
  }

  /** Every character after the trailing run's start is white space, and
      the one just before it, if any, is not. */
  lemma {:induction false} TrailingSpaceRun(s: string)
    ensures forall i :: |s| - TrailingSpace(s) <= i < |s| ==> IsSpace(s[i])
    ensures TrailingSpace(s) < |s| ==> !IsSpace(s[|s| - 1 - TrailingSpace(s)])
  {
    if s != [] && IsSpace(s[|s| - 1]) {
      TrailingSpaceRun(s[..|s| - 1]);
      assert forall i :: 0 <= i < |s| - 1 ==> s[i] == s[..|s| - 1][i];
    }
  }

  /** `s.trim()`: the white space at the start is dropped, then the white
      space at the end of what remains. */
  function Trim(s: string): (r: string)
    ensures |r| <= |s|
  {
    var t := s[LeadingSpace(s)..];
    t[..|t| - TrailingSpace(t)]
  }

  /** The result of `trim` is empty exactly when `s` is all white space,
      and otherwise neither starts nor ends with white space. */
  lemma TrimEnds(s: string)
    ensures Trim(s) == [] <==> AllSpace(s)
    ensures Trim(s) != [] ==> !IsSpace(Trim(s)[0]) && !IsSpace(Trim(s)[|Trim(s)| - 1])
  {
    var a := LeadingSpace(s);
    var t := s[a..];
    var b := TrailingSpace(t);
    var r := t[..|t| - b];
    assert Trim(s) == r;
    LeadingSpaceRun(s);
    if a < |s| {
      assert t[0] == s[a];
      TrailingStops(t);
      TrailingSpaceRun(t);
      assert r[0] == s[a];
      assert r[|r| - 1] == t[|t| - 1 - b];
    } else {
      assert r == [];
    }
  }

  /** The white-space run at the end cannot reach a first character that
      is not white space. */
  lemma TrailingStops(t: string)
    requires t != [] && !IsSpace(t[0])
    ensures TrailingSpace(t) < |t|
  {
    TrailingSpaceRun(t);
  }

  /** Trimming removes white space from the two ends of `s` and nothing
      else: the result is the slice of `s` between a white-space prefix and
      a white-space suffix. */
  lemma TrimIsSlice(s: string)
    ensures var i := LeadingSpace(s);
      && i + |Trim(s)| <= |s|
      && Trim(s) == s[i..i + |Trim(s)|]
      && AllSpace(s[..i])
      && AllSpace(s[i + |Trim(s)|..])
  {
    var i := LeadingSpace(s);
    var t := s[i..];
    var j := |t| - TrailingSpace(t);
    assert Trim(s) == t[..j];
    assert t[..j] == s[i..i + j];
    assert s[i + j..] == t[j..];
    LeadingPrefix(s);
    TrailingSuffix(t);
  }

  lemma LeadingPrefix(s: string)
    ensures AllSpace(s[..LeadingSpace(s)])
  {
    LeadingSpaceRun(s);
  }

  lemma TrailingSuffix(s: string)
    ensures AllSpace(s[|s| - TrailingSpace(s)..])
  {
    TrailingSpaceRun(s);
  }

  /** A string that neither starts nor ends with white space is left alone. */
  lemma TrimKeeps(s: string)
    requires s == [] || (!IsSpace(s[0]) && !IsSpace(s[|s| - 1]))
    ensures Trim(s) == s
  {
    if s != [] {
      assert LeadingSpace(s) == 0;
      assert s[0..] == s;
      assert TrailingSpace(s) == 0;
    }
  }

  /** Trimming twice is trimming once, so a name stored by a rename is
      already in trimmed form. */
  lemma {:induction false} TrimIdempotent(s: string)
    ensures Trim(Trim(s)) == Trim(s)
  {
    TrimEnds(s);
    TrimKeeps(Trim(s));
  }
}
