/** The three-pass filename sanitizer of `pdf_to_images`: unsafe characters
    become `_`, runs of `_` collapse to one, and edge `_` are stripped. */
module Sanitize {

  /** Python's `\w` on a str pattern, for the ASCII and Latin-1 blocks:
      letters, digits, numeric characters and the underscore. */
  predicate IsWordChar(c: char) {
    || ('a' <= c <= 'z') || ('A' <= c <= 'Z') || ('0' <= c <= '9') || c == '_'
    || c == '\U{AA}' || c == '\U{B2}' || c == '\U{B3}' || c == '\U{B5}'
    || c == '\U{B9}' || c == '\U{BA}' || ('\U{BC}' <= c <= '\U{BE}')
    || ('\U{C0}' <= c <= '\U{D6}') || ('\U{D8}' <= c <= '\U{F6}') || ('\U{F8}' <= c <= '\U{FF}')
  }

  /** The explicit range `一-鿿` of the character class. */
  predicate IsCjkIdeograph(c: char) {
    '\U{4E00}' <= c <= '\U{9FFF}'
  }

  /** Members of the class `[\w一-鿿-]`: characters that survive the first pass. */
  predicate IsSafe(c: char) {
    IsWordChar(c) || IsCjkIdeograph(c) || c == '-'
  }

  /** Safe characters other than the separator `_`. */
  predicate IsKept(c: char) {
    IsSafe(c) && c != '_'
  }

  predicate AllSafe(s: string) {
    forall i :: 0 <= i < |s| ==> IsSafe(s[i])
  }

  predicate NoDoubleUnderscore(s: string) {
    forall i :: 0 <= i < |s| - 1 ==> s[i] != '_' || s[i + 1] != '_'
  }

  predicate NoEdgeUnderscore(s: string) {
    |s| > 0 ==> s[0] != '_' && s[|s| - 1] != '_'
  }

  /** The kept characters of `s`, in order. */
  function Letters(s: string): string {
    if s == [] then [] else (if IsKept(s[0]) then [s[0]] else []) + Letters(s[1..])
  }

  /** First pass, `re.sub(r'[^\w一-鿿-]', '_', name)`: a one-for-one replacement. */
  function ReplaceUnsafe(s: string): (r: string)
    ensures |r| == |s|
    ensures forall i :: 0 <= i < |s| ==> r[i] == if IsSafe(s[i]) then s[i] else '_'
    ensures AllSafe(r)
  {
    if s == [] then [] else [if IsSafe(s[0]) then s[0] else '_'] + ReplaceUnsafe(s[1..])
  }

  /** Second pass, `re.sub(r'_+', '_', name)`: every run of `_` becomes one `_`. */
  function CollapseUnderscores(s: string): (r: string)
    ensures |r| <= |s|
    ensures |s| > 0 ==> |r| > 0 && r[0] == s[0] && r[|r| - 1] == s[|s| - 1]
    ensures NoDoubleUnderscore(r)
  {
    if |s| <= 1 then s
    else if s[0] == '_' && s[1] == '_' then CollapseUnderscores(s[1..])
    else [s[0]] + CollapseUnderscores(s[1..])
  }

  /** `name.lstrip('_')`: drops a prefix made only of `_`. */
  function TrimLeading(s: string): (r: string)
    ensures |r| <= |s| && r == s[|s| - |r|..]
    ensures forall i :: 0 <= i < |s| - |r| ==> s[i] == '_'
    ensures r == [] || r[0] != '_'
  {
    if |s| > 0 && s[0] == '_' then TrimLeading(s[1..]) else s
  }

  /** `name.rstrip('_')`: drops a suffix made only of `_`. */
  function TrimTrailing(s: string): (r: string)
    ensures |r| <= |s| && r == s[..|r|]
    ensures forall i :: |r| <= i < |s| ==> s[i] == '_'
    ensures r == [] || r[|r| - 1] != '_'
  {
    if |s| > 0 && s[|s| - 1] == '_' then TrimTrailing(s[..|s| - 1]) else s
  }

  /** Third pass, `name.strip('_')`. */
  function StripUnderscores(s: string): (r: string)
    ensures |r| <= |s|
    ensures NoEdgeUnderscore(r)
    ensures NoEdgeUnderscore(s) ==> r == s
  {
    TrimTrailing(TrimLeading(s))
  }

  /** The sanitized stem: the three passes in the order the tool applies them. */
  function SanitizeStem(stem: string): (r: string)
    ensures |r| <= |stem|
    ensures AllSafe(r)
    ensures NoDoubleUnderscore(r)
    ensures NoEdgeUnderscore(r)
  {
    var replaced := ReplaceUnsafe(stem);
    var collapsed := CollapseUnderscores(replaced);
    CollapsePreservesSafe(replaced);
    StripPreservesShape(collapsed);
    StripUnderscores(collapsed)
  }

  /** A slice keeps the alphabet and the absence of `__`. */
  lemma SliceKeepsShape(s: string, lo: nat, hi: nat)
    requires lo <= hi <= |s|
    requires AllSafe(s) && NoDoubleUnderscore(s)
    ensures AllSafe(s[lo..hi]) && NoDoubleUnderscore(s[lo..hi])
  {
    var t := s[lo..hi];
    forall i | 0 <= i < |t| ensures IsSafe(t[i]) {
      assert t[i] == s[lo + i];
    }
    forall i | 0 <= i < |t| - 1 ensures t[i] != '_' || t[i + 1] != '_' {
      assert t[i] == s[lo + i] && t[i + 1] == s[lo + i + 1];
    }
  }

  /** Stripping keeps a slice of its input. */
  lemma StripPreservesShape(s: string)
    requires AllSafe(s) && NoDoubleUnderscore(s)
    ensures AllSafe(StripUnderscores(s)) && NoDoubleUnderscore(StripUnderscores(s))
  {
    var t := TrimLeading(s);
    SliceKeepsShape(s, |s| - |t|, |s|);
    var u := TrimTrailing(t);
    SliceKeepsShape(t, 0, |u|);
  }

  lemma {:induction false} CollapsePreservesSafe(s: string)
    requires AllSafe(s)
    ensures AllSafe(CollapseUnderscores(s))
  {
    if |s| > 1 {
      CollapsePreservesSafe(s[1..]);
    }
  }

  lemma {:induction false} CollapseIdentity(s: string)
    requires NoDoubleUnderscore(s)
    ensures CollapseUnderscores(s) == s
  {
    if |s| > 1 {
      CollapseIdentity(s[1..]);
      assert s == [s[0]] + s[1..];
    }
  }

  /** Keeps `s[i]` unless it is an `_` right after another `_`: the
      index-by-index reading of `re.sub(r'_+', '_', s)`. */
  function DropRepeats(s: string): string {
    if s == [] then []
    else
      var n := |s| - 1;
      DropRepeats(s[..n]) + (if n > 0 && s[n - 1] == '_' && s[n] == '_' then [] else [s[n]])
  }

  /** Appending one character to the collapse's input appends it to the
      output unless it extends a run of `_`. */
  lemma {:induction false} CollapseSnoc(s: string, c: char)
    ensures CollapseUnderscores(s + [c]) ==
      CollapseUnderscores(s) + (if |s| > 0 && s[|s| - 1] == '_' && c == '_' then [] else [c])
  {
    if |s| >= 2 {
      assert (s + [c])[1..] == s[1..] + [c];
      CollapseSnoc(s[1..], c);
      if s[0] == '_' && s[1] == '_' {
      } else {
        assert [s[0]] + CollapseUnderscores(s[1..]) + (if s[|s| - 1] == '_' && c == '_' then [] else [c])
            == [s[0]] + (CollapseUnderscores(s[1..]) + (if s[|s| - 1] == '_' && c == '_' then [] else [c]));
      }
    } else if |s| == 1 {
      assert s + [c] == [s[0], c];
    } else {
      assert s + [c] == [c];
    }
  }

  /** The collapse turns each run of `_` into one `_` and keeps every other
      character in place. */
  lemma {:induction false} CollapseDropsRepeats(s: string)
    ensures CollapseUnderscores(s) == DropRepeats(s)
  {
    if s != [] {
      var n := |s| - 1;
      CollapseDropsRepeats(s[..n]);
      assert s == s[..n] + [s[n]];
      CollapseSnoc(s[..n], s[n]);
    }
  }

  /** Collapsing distributes over a concatenation whose seam is not `__`. */
  lemma {:induction false} CollapseAppend(x: string, y: string)
    requires x == [] || y == [] || x[|x| - 1] != '_' || y[0] != '_'
    ensures CollapseUnderscores(x + y) == CollapseUnderscores(x) + CollapseUnderscores(y)
  {
    if x == [] {
      assert x + y == y;
    } else if y == [] {
      assert x + y == x;
    } else {
      var xy := x + y;
      assert xy[0] == x[0];
      if |x| == 1 {
        assert xy[1..] == y && xy[1] == y[0];
        assert CollapseUnderscores(xy) == [x[0]] + CollapseUnderscores(y);
      } else {
        assert xy[1..] == x[1..] + y && xy[1] == x[1];
        CollapseAppend(x[1..], y);
        if x[0] != '_' || x[1] != '_' {
          assert CollapseUnderscores(xy) == [x[0]] + (CollapseUnderscores(x[1..]) + CollapseUnderscores(y));
          assert CollapseUnderscores(x) == [x[0]] + CollapseUnderscores(x[1..]);
        }
      }
    }
  }

  /** A run of `_` collapses to a single `_`. */
  lemma {:induction false} CollapseUnderscoreRun(k: nat)
    requires k >= 1
    ensures CollapseUnderscores(seq(k, _ => '_')) == "_"
  {
    if k > 1 {
      var u := seq(k, _ => '_');
      assert u[1..] == seq(k - 1, _ => '_');
      CollapseUnderscoreRun(k - 1);
    }
  }

  /** A run of `k >= 1` underscores between two other characters leaves
      exactly one `_`, and both sides collapse on their own. */
  lemma CollapseRun(a: string, k: nat, b: string)
    requires k >= 1
    requires a == [] || a[|a| - 1] != '_'
    requires b == [] || b[0] != '_'
    ensures CollapseUnderscores(a + seq(k, _ => '_') + b) ==
      CollapseUnderscores(a) + "_" + CollapseUnderscores(b)
  {
    var u := seq(k, _ => '_');
    CollapseAppend(a, u);
    CollapseUnderscoreRun(k);
    assert (a + u)[|a + u| - 1] == '_';
    CollapseAppend(a + u, b);
  }

  lemma {:induction false} LettersAppend(a: string, b: string)
    ensures Letters(a + b) == Letters(a) + Letters(b)
  {
    if a != [] {
      assert (a + b)[1..] == a[1..] + b;
      LettersAppend(a[1..], b);
    } else {
      assert a + b == b;
    }
  }

  lemma {:induction false} LettersEmptyIff(s: string)
    ensures Letters(s) == [] <==> forall i :: 0 <= i < |s| ==> !IsKept(s[i])
  {
    if s != [] {
      LettersEmptyIff(s[1..]);
      assert forall i :: 1 <= i < |s| ==> s[i] == s[1..][i - 1];
    }
  }

  lemma {:induction false} LettersOfReplace(s: string)
    ensures Letters(ReplaceUnsafe(s)) == Letters(s)
  {
    if s != [] {
      LettersOfReplace(s[1..]);
      var r := ReplaceUnsafe(s);
      assert r[1..] == ReplaceUnsafe(s[1..]);
    }
  }

  lemma {:induction false} LettersOfCollapse(s: string)
    ensures Letters(CollapseUnderscores(s)) == Letters(s)
  {
    if |s| > 1 {
      LettersOfCollapse(s[1..]);
      if s[0] == '_' && s[1] == '_' {
      } else {
        assert ([s[0]] + CollapseUnderscores(s[1..]))[1..] == CollapseUnderscores(s[1..]);
      }
    }
  }

  lemma {:induction false} LettersOfUnderscoreRun(s: string)
    requires forall i :: 0 <= i < |s| ==> s[i] == '_'
    ensures Letters(s) == []
  {
    LettersEmptyIff(s);
  }

  lemma LettersOfTrimLeading(s: string)
    ensures Letters(TrimLeading(s)) == Letters(s)
  {
    var t := TrimLeading(s);
    var k := |s| - |t|;
    assert s == s[..k] + t;
    LettersAppend(s[..k], t);
    LettersOfUnderscoreRun(s[..k]);
  }

  lemma LettersOfTrimTrailing(s: string)
    ensures Letters(TrimTrailing(s)) == Letters(s)
  {
    var t := TrimTrailing(s);
    assert s == t + s[|t|..];
    LettersAppend(t, s[|t|..]);
    LettersOfUnderscoreRun(s[|t|..]);
  }

  lemma LettersOfStrip(s: string)
    ensures Letters(StripUnderscores(s)) == Letters(s)
  {
    LettersOfTrimLeading(s);
    LettersOfTrimTrailing(TrimLeading(s));
  }

  /** The kept characters of the stem survive sanitization, in order, and
      nothing else but `_` is added. */
  lemma SanitizeKeepsLetters(stem: string)
    ensures Letters(SanitizeStem(stem)) == Letters(stem)
  {
    var replaced := ReplaceUnsafe(stem);
    LettersOfReplace(stem);
    LettersOfCollapse(replaced);
    LettersOfStrip(CollapseUnderscores(replaced));
  }

  /** The sanitized stem is empty exactly when the stem holds no safe
      character other than `_`; there is no placeholder. */
  lemma SanitizeEmptyIff(stem: string)
    ensures SanitizeStem(stem) == [] <==> forall i :: 0 <= i < |stem| ==> !IsKept(stem[i])
  {
    var r := SanitizeStem(stem);
    SanitizeKeepsLetters(stem);
    LettersEmptyIff(stem);
    LettersEmptyIff(r);
    if r != [] {
      assert IsKept(r[0]);
    }
  }

  /** Sanitizing a sanitized stem changes nothing. */
  lemma SanitizeIdempotent(stem: string)
    ensures SanitizeStem(SanitizeStem(stem)) == SanitizeStem(stem)
  {
    var r := SanitizeStem(stem);
    assert ReplaceUnsafe(r) == r;
    CollapseIdentity(r);
  }
}
