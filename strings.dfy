/**
 The JavaScript string operations the editor relies on, stated on `seq<char>`:
 `trim`, `split` with a one-character separator (and its inverse, `join`),
 `includes` of a character, and the global removal of the literal `<br>`.
 */
module JsStrings {

  /** The characters that `String.prototype.trim` removes: ECMAScript WhiteSpace and LineTerminator. */
  predicate IsJsSpace(c: char) {
    || c == '\t' || c == '\n' || c == '\U{000B}' || c == '\U{000C}' || c == '\r' || c == ' '
    || c == '\U{00A0}' || c == '\U{1680}' || ('\U{2000}' <= c <= '\U{200A}')
    || c == '\U{2028}' || c == '\U{2029}' || c == '\U{202F}' || c == '\U{205F}'
    || c == '\U{3000}' || c == '\U{FEFF}'
  }

  /** `s.trim() === ''`: the string holds nothing but white space. */
  ghost predicate Blank(s: string) {
    forall i :: 0 <= i < |s| ==> IsJsSpace(s[i])
  }

  /** `s` with its leading white space removed. */
  function TrimStart(s: string): (r: string)
    ensures |r| <= |s| && r == s[|s| - |r|..]
    ensures r == [] || !IsJsSpace(r[0])
    ensures Blank(s[..|s| - |r|])
  {
    if s != [] && IsJsSpace(s[0]) then
      var r := TrimStart(s[1..]);
      assert s[1..][..|s| - 1 - |r|] == s[1..|s| - |r|];
      r
    else s
  }

  /** `s` with its trailing white space removed. */
  function TrimEnd(s: string): (r: string)
    ensures |r| <= |s| && r == s[..|r|]
    ensures r == [] || !IsJsSpace(r[|r| - 1])
    ensures Blank(s[|r|..])
  {
    if s != [] && IsJsSpace(s[|s| - 1]) then
      var t := s[..|s| - 1];
      var r := TrimEnd(t);
      assert t[..|r|] == s[..|r|];
      assert t[|r|..] == s[|r|..|s| - 1];
      assert forall k :: |r| <= k < |s| ==> s[k] == (if k < |s| - 1 then t[|r|..][k - |r|] else s[|s| - 1]);
      r
    else s
  }

  /** `String.prototype.trim`. */
  function Trim(s: string): string {
    TrimEnd(TrimStart(s))
  }

  /** Trimming the front leaves nothing exactly when the string is blank. */
  lemma TrimStartEmpty(s: string)
    ensures TrimStart(s) == [] <==> Blank(s)
  {
    var r := TrimStart(s);
    if r == [] {
      assert s[..|s|] == s;
    } else {
      assert s[|s| - |r|] == r[0];
    }
  }

  /** Trimming the back leaves nothing exactly when the string is blank. */
  lemma TrimEndEmpty(s: string)
    ensures TrimEnd(s) == [] <==> Blank(s)
  {
    var r := TrimEnd(s);
    if r == [] {
      assert s[0..] == s;
    } else {
      assert s[|r| - 1] == r[|r| - 1];
    }
  }

  /** `s.trim() === ''` holds exactly when `s` is blank. */
  lemma TrimEmptyIffBlank(s: string)
    ensures Trim(s) == [] <==> Blank(s)
  {
    var t := TrimStart(s);
    TrimStartEmpty(s);
    TrimEndEmpty(t);
    if t != [] {
      assert !IsJsSpace(t[0]);
    }
  }

  /** Whether every character is white space, one character at a time. */
  function IsBlank(s: string): (b: bool)
    ensures b <==> Blank(s)
  {
    if s == [] then true
    else
      assert forall i :: 1 <= i < |s| ==> s[i] == s[1..][i - 1];
      IsJsSpace(s[0]) && IsBlank(s[1..])
  }

  /** `IsBlank` is the test `s.trim() === ''`. */
  lemma IsBlankIsTrimTest(s: string)
    ensures IsBlank(s) <==> Trim(s) == []
  {
    TrimEmptyIffBlank(s);
  }

  /** `s.split(sep)` for a one-character separator: the maximal separator-free pieces, in order. */
  function Split(s: string, sep: char): (r: seq<string>)
    ensures |r| >= 1
    ensures forall k :: 0 <= k < |r| ==> sep !in r[k]
  {
    if s == [] then [""]
    else
      var rest := Split(s[1..], sep);
      if s[0] == sep then [""] + rest
      else [[s[0]] + rest[0]] + rest[1..]
  }

  /** `parts.join(sep)`. */
  function Join(parts: seq<string>, sep: char): string {
    if parts == [] then ""
    else if |parts| == 1 then parts[0]
    else parts[0] + [sep] + Join(parts[1..], sep)
  }

  /** The number of occurrences of `c` in `s`. */
  function Occurrences(s: string, c: char): nat {
    if s == [] then 0 else (if s[0] == c then 1 else 0) + Occurrences(s[1..], c)
  }

  /** Joining the pieces of a split gives back the string. */
  lemma {:induction false} JoinSplit(s: string, sep: char)
    ensures Join(Split(s, sep), sep) == s
  {
    if s != [] {
      JoinSplit(s[1..], sep);
      var rest := Split(s[1..], sep);
      if s[0] != sep && |rest| > 1 {
        assert Split(s, sep)[1..] == rest[1..];
      }
    }
  }

  /** Splitting a join of separator-free pieces gives back the pieces. */
  lemma {:induction false} SplitJoin(parts: seq<string>, sep: char)
    requires |parts| >= 1
    requires forall k :: 0 <= k < |parts| ==> sep !in parts[k]
    ensures Split(Join(parts, sep), sep) == parts
  {
    if |parts| == 1 {
      SplitFree(parts[0], sep);
    } else {
      SplitJoin(parts[1..], sep);
      SplitPrefix(parts[0], Join(parts[1..], sep), sep);
      assert Join(parts, sep) == parts[0] + ([sep] + Join(parts[1..], sep));
    }
  }

  /** A separator-free string splits into itself. */
  lemma {:induction false} SplitFree(s: string, sep: char)
    requires sep !in s
    ensures Split(s, sep) == [s]
  {
    if s != [] {
      SplitFree(s[1..], sep);
      assert [s[0]] + s[1..] == s;
    }
  }

  /** A separator-free prefix followed by the separator becomes the first piece. */
  lemma {:induction false} SplitPrefix(p: string, t: string, sep: char)
    requires sep !in p
    ensures Split(p + [sep] + t, sep) == [p] + Split(t, sep)
  {
    if p == [] {
      assert p + [sep] + t == [sep] + t;
      assert ([sep] + t)[1..] == t;
    } else {
      SplitPrefix(p[1..], t, sep);
      assert (p + [sep] + t)[1..] == p[1..] + [sep] + t;
      assert (p + [sep] + t)[0] == p[0];
      assert [p[0]] + p[1..] == p;
    }
  }

  /** A split gives one piece more than there are separators. */
  lemma {:induction false} SplitCount(s: string, sep: char)
    ensures |Split(s, sep)| == Occurrences(s, sep) + 1
  {
    if s != [] {
      SplitCount(s[1..], sep);
    }
  }

  /** The first piece of a split is the text up to the first separator, and the other pieces are the split of the text after it. */
  lemma {:induction false} SplitHead(s: string, sep: char)
    ensures var r := Split(s, sep); |r[0]| <= |s| && s[..|r[0]|] == r[0]
    ensures var r := Split(s, sep); |r[0]| < |s| ==> s[|r[0]|] == sep && r[1..] == Split(s[|r[0]| + 1..], sep)
    ensures var r := Split(s, sep); |r[0]| == |s| ==> |r| == 1
  {
    if s != [] && s[0] != sep {
      SplitHead(s[1..], sep);
      var rest := Split(s[1..], sep);
      var r := Split(s, sep);
      assert r[0] == [s[0]] + rest[0];
      assert s[..|r[0]|] == [s[0]] + s[1..][..|rest[0]|];
      if |r[0]| < |s| {
        assert s[|r[0]| + 1..] == s[1..][|rest[0]| + 1..];
      }
    }
  }

  /** A string holding the separator splits into at least two pieces. */
  lemma SplitHasTwo(s: string, sep: char)
    requires sep in s
    ensures |Split(s, sep)| >= 2
  {
    SplitHead(s, sep);
    var r := Split(s, sep);
    assert |r[0]| < |s| by {
      assert s[..|r[0]|] == r[0] && sep !in r[0];
    }
    assert |r[1..]| >= 1;
  }

  /** `s.replace(/<br>/g, '')`: every `<br>`, scanning left to right without overlap, removed. */
  function RemoveBreaks(s: string): (r: string)
    ensures |r| <= |s|
  {
    if |s| >= 4 && s[..4] == "<br>" then RemoveBreaks(s[4..])
    else if s == [] then ""
    else [s[0]] + RemoveBreaks(s[1..])
  }

  /** `<br>` occurs in `s`. */
  ghost predicate HasBreak(s: string) {
    exists i :: 0 <= i && BreakAt(s, i)
  }

  /** `<br>` starts at position `i` of `s`. */
  predicate BreakAt(s: string, i: nat) {
    i + 4 <= |s| && s[i..i + 4] == "<br>"
  }

  /** With no `<br>` in it, the replacement leaves a string as it is. */
  lemma {:induction false} RemoveBreaksNoBreak(s: string)
    requires !HasBreak(s)
    ensures RemoveBreaks(s) == s
  {
    if |s| >= 4 && s[..4] == "<br>" {
      assert BreakAt(s, 0);
    } else if s != [] {
      assert !HasBreak(s[1..]) by {
        forall i: nat | BreakAt(s[1..], i) ensures false {
          assert s[1..][i..i + 4] == s[i + 1..i + 5];
          assert BreakAt(s, i + 1);
        }
      }
      RemoveBreaksNoBreak(s[1..]);
    }
  }
}
