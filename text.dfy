/**
 * String operations of JavaScript's `String.prototype` that the stores and
 * the importer use, restricted to ASCII case mapping.
 */
module Text {

  predicate IsUpperAscii(c: char) { 'A' <= c <= 'Z' }
  predicate IsLowerAscii(c: char) { 'a' <= c <= 'z' }

  function LowerChar(c: char): char {
    if IsUpperAscii(c) then (c as int + 32) as char else c
  }

  function UpperChar(c: char): char {
    if IsLowerAscii(c) then (c as int - 32) as char else c
  }

  /** `s.toLowerCase()`: same length, every letter lowered, everything else kept. */
  function ToLower(s: string): (r: string)
    ensures |r| == |s|
    ensures forall i :: 0 <= i < |s| ==> r[i] == LowerChar(s[i])
  {
    if s == [] then [] else [LowerChar(s[0])] + ToLower(s[1..])
  }

  lemma ToLowerNoUpper(s: string)
    ensures forall i :: 0 <= i < |ToLower(s)| ==> !IsUpperAscii(ToLower(s)[i])
  {
  }

  /** `s.startsWith(p)` */
  predicate StartsWith(s: string, p: string) {
    |p| <= |s| && s[..|p|] == p
  }

  /** `s.includes(sub)`: `sub` occurs in `s` at some offset. */
  predicate Includes(s: string, sub: string)
    decreases |s|
  {
    StartsWith(s, sub) || (s != [] && Includes(s[1..], sub))
  }

  /** `sub` occurs in `s` starting at offset `i`. */
  predicate OccursAt(s: string, sub: string, i: int) {
    0 <= i <= |s| - |sub| && s[i..i + |sub|] == sub
  }

  /** Includes agrees with the textbook definition of a substring occurrence. */
  lemma {:induction false} IncludesAt(s: string, sub: string)
    ensures Includes(s, sub) <==> exists i :: OccursAt(s, sub, i)
    decreases |s|
  {
    if s != [] {
      IncludesAt(s[1..], sub);
      if Includes(s[1..], sub) {
        var i :| OccursAt(s[1..], sub, i);
        assert s[i + 1..i + 1 + |sub|] == s[1..][i..i + |sub|];
        assert OccursAt(s, sub, i + 1);
      }
      if exists i :: OccursAt(s, sub, i) {
        var i :| OccursAt(s, sub, i);
        if i > 0 {
          assert s[1..][i - 1..i - 1 + |sub|] == s[i..i + |sub|];
          assert OccursAt(s[1..], sub, i - 1);
        } else {
          assert StartsWith(s, sub);
        }
      }
    }
    if StartsWith(s, sub) {
      assert OccursAt(s, sub, 0);
    }
  }

  /** Characters matched by the regular-expression class `\w`. */
  predicate IsWordChar(c: char) {
    IsLowerAscii(c) || IsUpperAscii(c) || ('0' <= c <= '9') || c == '_'
  }

  /** Whether `\b\w` matches at position `i`: a word character with no word
      character before it. */
  predicate WordStart(s: string, i: int)
    requires 0 <= i < |s|
  {
    IsWordChar(s[i]) && (i == 0 || !IsWordChar(s[i - 1]))
  }

  /** `s.toLowerCase().replace(/\b\w/g, c => c.toUpperCase())`. */
  function TitleCase(s: string): (r: string)
    ensures |r| == |s|
    ensures forall i :: 0 <= i < |s| ==>
      r[i] == if WordStart(ToLower(s), i) then UpperChar(LowerChar(s[i])) else LowerChar(s[i])
  {
    var l := ToLower(s);
    seq(|l|, i requires 0 <= i < |l| => if WordStart(l, i) then UpperChar(l[i]) else l[i])
  }

  /** Lowering a character does not change whether it is a word character. */
  lemma LowerKeepsWordChar(c: char)
    ensures IsWordChar(LowerChar(c)) == IsWordChar(c)
  {
  }

  /** Only the first character of a word can come out of title casing in
      upper case: after a word character the output is always lower case. */
  lemma TitleCaseInner(s: string, i: int)
    requires 0 < i < |s| && IsWordChar(s[i - 1])
    ensures !IsUpperAscii(TitleCase(s)[i])
  {
    LowerKeepsWordChar(s[i - 1]);
    assert !WordStart(ToLower(s), i);
  }

  /** A string whose word starts are upper case and whose other letters are
      lower case is its own title case. */
  lemma TitleCaseFixed(s: string)
    requires forall i :: 0 <= i < |s| ==>
      s[i] == if WordStart(s, i) then UpperChar(LowerChar(s[i])) else LowerChar(s[i])
    ensures TitleCase(s) == s
  {
    forall i | 0 <= i < |s|
      ensures WordStart(ToLower(s), i) == WordStart(s, i)
    {
      LowerKeepsWordChar(s[i]);
      if i > 0 {
        LowerKeepsWordChar(s[i - 1]);
      }
    }
  }

  /** A single word with no lower-case letter in front and no upper-case
      letter after it is its own title case. */
  lemma TitleCaseOneWord(s: string)
    requires forall i :: 0 <= i < |s| ==> IsWordChar(s[i])
    requires |s| > 0 ==> !IsLowerAscii(s[0])
    requires forall i :: 0 < i < |s| ==> !IsUpperAscii(s[i])
    ensures TitleCase(s) == s
  {
    TitleCaseFixed(s);
  }

  /** Characters matched by `\s` (ASCII whitespace; Unicode spaces are not modelled). */
  predicate IsSpace(c: char) {
    c == ' ' || c == '\t' || c == '\n' || c == '\r' || c == '\U{000B}' || c == '\U{000C}'
  }

  /** `s.replace(/\s+/g, sep)`: every maximal run of whitespace becomes one `sep`. */
  function CollapseSpaces(s: string, sep: char): (r: string)
    ensures forall i :: 0 <= i < |r| ==> !IsSpace(r[i]) || r[i] == sep
    ensures |r| <= |s|
    ensures (forall i :: 0 <= i < |s| ==> !IsSpace(s[i])) ==> r == s
    decreases |s|
  {
    if s == [] then []
    else if IsSpace(s[0]) then [sep] + CollapseSpaces(DropSpaces(s), sep)
    else [s[0]] + CollapseSpaces(s[1..], sep)
  }

  /** `s` without its leading whitespace. */
  function DropSpaces(s: string): (r: string)
    ensures |r| <= |s|
    ensures r == [] || !IsSpace(r[0])
    ensures |s| > 0 && IsSpace(s[0]) ==> |r| < |s|
  {
    if s != [] && IsSpace(s[0]) then DropSpaces(s[1..]) else s
  }

  /** Leading whitespace followed by text that does not start with
      whitespace is dropped exactly. */
  lemma {:induction false} DropSpacesRun(w: string, b: string)
    requires forall i :: 0 <= i < |w| ==> IsSpace(w[i])
    requires b == [] || !IsSpace(b[0])
    ensures DropSpaces(w + b) == b
    decreases |w|
  {
    if w == [] {
      assert w + b == b;
    } else {
      assert (w + b)[1..] == w[1..] + b;
      DropSpacesRun(w[1..], b);
    }
  }

  /** Text free of whitespace is kept, the maximal whitespace run after it
      becomes one separator, and the rest is collapsed in turn. */
  lemma {:induction false} CollapseSpacesRun(a: string, w: string, b: string, sep: char)
    requires forall i :: 0 <= i < |a| ==> !IsSpace(a[i])
    requires |w| > 0 && forall i :: 0 <= i < |w| ==> IsSpace(w[i])
    requires b == [] || !IsSpace(b[0])
    ensures CollapseSpaces(a + w + b, sep) == a + [sep] + CollapseSpaces(b, sep)
    decreases |a|
  {
    if a == [] {
      assert a + w + b == w + b;
      DropSpacesRun(w, b);
    } else {
      assert (a + w + b)[0] == a[0];
      assert (a + w + b)[1..] == a[1..] + w + b;
      CollapseSpacesRun(a[1..], w, b, sep);
    }
  }
}
