/**
 * The JavaScript string operations the extraction callbacks are built from:
 * the regular-expression class `\s`, `trim()`, `replace(/\s+/g, ' ')`,
 * `split('\n')`, `includes`, `startsWith`, `replace(str, '')`, the pattern
 * `\b(\d+)\b` and `parseInt(digits, 10)`. A string is a sequence of
 * Unicode scalar values, one `char` each.
 */
module Text {
  import opened Wrappers

  /** The characters matched by `\s`; `trim()` removes exactly these. */
  predicate IsSpace(c: char) {
    c in SpaceChars
  }

  const SpaceChars: set<char> :=
    {' ', '\t', '\n', '\U{000B}', '\U{000C}', '\r', '\U{00A0}', '\U{1680}',
     '\U{2000}', '\U{2001}', '\U{2002}', '\U{2003}', '\U{2004}', '\U{2005}', '\U{2006}',
     '\U{2007}', '\U{2008}', '\U{2009}', '\U{200A}',
     '\U{2028}', '\U{2029}', '\U{202F}', '\U{205F}', '\U{3000}', '\U{FEFF}'}

  /** The characters of `\w`, on either side of which `\b` looks. */
  predicate IsWordChar(c: char) {
    ('a' <= c <= 'z') || ('A' <= c <= 'Z') || ('0' <= c <= '9') || c == '_'
  }

  predicate IsDigit(c: char) {
    '0' <= c <= '9'
  }

  /** No whitespace at either end. */
  predicate Trimmed(s: string) {
    s == [] || (!IsSpace(s[0]) && !IsSpace(s[|s| - 1]))
  }

  /** No two adjacent whitespace characters. */
  predicate SingleSpaced(s: string) {
    forall i :: 0 < i < |s| ==> !(IsSpace(s[i - 1]) && IsSpace(s[i]))
  }

  /** The plain space is the only whitespace character present (so no newline). */
  predicate PlainSpaces(s: string) {
    forall i :: 0 <= i < |s| && IsSpace(s[i]) ==> s[i] == ' '
  }

  lemma PlainSpacesNoNewline(s: string)
    requires PlainSpaces(s)
    ensures '\n' !in s
  {
    forall k | 0 <= k < |s| ensures s[k] != '\n' {
      if IsSpace(s[k]) { assert s[k] == ' '; }
    }
  }

  /** What whitespace normalisation must leave alone: the other characters, in order. */
  function Visible(s: string): seq<char> {
    if s == [] then [] else (if IsSpace(s[0]) then [] else [s[0]]) + Visible(s[1..])
  }

  lemma {:induction false} VisibleConcat(a: string, b: string)
    ensures Visible(a + b) == Visible(a) + Visible(b)
  {
    if a != [] {
      var head: seq<char> := if IsSpace(a[0]) then [] else [a[0]];
      assert (a + b)[0] == a[0] && (a + b)[1..] == a[1..] + b;
      assert Visible(a + b) == head + Visible(a[1..] + b);
      VisibleConcat(a[1..], b);
      assert Visible(a) == head + Visible(a[1..]);
    } else {
      assert a + b == b;
    }
  }

  lemma VisibleAllSpace(s: string)
    requires forall k :: 0 <= k < |s| ==> IsSpace(s[k])
    ensures Visible(s) == []
  {
  }

  /** The rest of `s` after its leading whitespace run: where a greedy `\s+` match that starts at the front of `s` ends. */
  function TrimStart(s: string): (r: string)
    ensures |r| <= |s| && r == s[|s| - |r|..]
    ensures r == [] || !IsSpace(r[0])
    ensures forall k :: 0 <= k < |s| - |r| ==> IsSpace(s[k])
  {
    if s != [] && IsSpace(s[0]) then
      var r := TrimStart(s[1..]);
      assert r == s[|s| - |r|..] by {
        assert s[1..][|s| - 1 - |r|..] == s[|s| - |r|..];
      }
      assert forall k :: 1 <= k < |s| ==> s[k] == s[1..][k - 1];
      r
    else s
  }

  /** `s.trim()`: the part of `s` between its leading and its trailing whitespace. */
  function Trim(s: string): (r: string)
    ensures Trimmed(r) && |r| <= |s|
    decreases |s|
  {
    if s != [] && IsSpace(s[0]) then Trim(s[1..])
    else if s != [] && IsSpace(s[|s| - 1]) then Trim(s[..|s| - 1])
    else s
  }

  /** The trimmed string is a contiguous part of the original. */
  lemma {:induction false} TrimSlice(s: string) returns (i: nat, j: nat)
    ensures i <= j <= |s| && Trim(s) == s[i..j]
    decreases |s|
  {
    if s != [] && IsSpace(s[0]) {
      var i', j' := TrimSlice(s[1..]);
      i, j := i' + 1, j' + 1;
      assert s[1..][i'..j'] == s[i..j];
    } else if s != [] && IsSpace(s[|s| - 1]) {
      i, j := TrimSlice(s[..|s| - 1]);
      assert s[..|s| - 1][i..j] == s[i..j];
    } else {
      i, j := 0, |s|;
    }
  }

  /** Every character of the trimmed string comes from the original. */
  lemma TrimMembers(s: string)
    ensures forall c :: c in Trim(s) ==> c in s
  {
    var i, j := TrimSlice(s);
    assert forall k :: 0 <= k < j - i ==> Trim(s)[k] == s[i + k];
  }

  /** Trimming drops only whitespace: the visible characters stay, in order. */
  lemma {:induction false} TrimVisible(s: string)
    ensures Visible(Trim(s)) == Visible(s)
    decreases |s|
  {
    if s != [] && IsSpace(s[0]) {
      TrimVisible(s[1..]);
    } else if s != [] && IsSpace(s[|s| - 1]) {
      var init := s[..|s| - 1];
      TrimVisible(init);
      assert s == init + [s[|s| - 1]];
      VisibleConcat(init, [s[|s| - 1]]);
      assert Visible([s[|s| - 1]]) == [];
    }
  }

  /** Trimming keeps a string single-spaced and plain-spaced: it takes a contiguous part. */
  lemma TrimKeepsSpacing(s: string)
    ensures SingleSpaced(s) ==> SingleSpaced(Trim(s))
    ensures PlainSpaces(s) ==> PlainSpaces(Trim(s))
  {
    var i, j := TrimSlice(s);
    var r := Trim(s);
    assert forall k :: 0 <= k < |r| ==> r[k] == s[i + k];
  }

  /** `s.replace(/\s+/g, ' ')`: every maximal run of whitespace becomes a single space. */
  function Collapse(s: string): (r: string)
    ensures |r| <= |s|
    ensures PlainSpaces(r) && SingleSpaced(r)
    ensures r == [] <==> s == []
    ensures r != [] ==> (IsSpace(r[0]) <==> IsSpace(s[0]))
    decreases |s|
  {
    if s == [] then []
    else if IsSpace(s[0]) then
      var rest := Collapse(TrimStart(s[1..]));
      ConsSpacing(' ', rest);
      [' '] + rest
    else
      var rest := Collapse(s[1..]);
      ConsSpacing(s[0], rest);
      [s[0]] + rest
  }

  /** One character in front of a single-spaced, plain-spaced string keeps both properties when it does not start a second space. */
  lemma ConsSpacing(c: char, t: string)
    requires PlainSpaces(t) && SingleSpaced(t)
    requires IsSpace(c) ==> c == ' ' && (t == [] || !IsSpace(t[0]))
    ensures PlainSpaces([c] + t) && SingleSpaced([c] + t)
  {
    var s := [c] + t;
    assert forall i :: 0 < i < |s| ==> s[i] == t[i - 1];
  }

  /** Collapsing rewrites only whitespace: the visible characters stay, in order. */
  lemma {:induction false} CollapseVisible(s: string)
    ensures Visible(Collapse(s)) == Visible(s)
    decreases |s|
  {
    if s != [] {
      if IsSpace(s[0]) {
        var t := TrimStart(s[1..]);
        CollapseVisible(t);
        assert s[1..] == s[1..][..|s| - 1 - |t|] + t;
        VisibleConcat(s[1..][..|s| - 1 - |t|], t);
        VisibleAllSpace(s[1..][..|s| - 1 - |t|]);
        assert Visible(s) == Visible(s[1..]);
        assert Visible(Collapse(s)) == Visible([' '] + Collapse(t));
        VisibleConcat([' '], Collapse(t));
      } else {
        CollapseVisible(s[1..]);
        VisibleConcat([s[0]], Collapse(s[1..]));
      }
    }
  }

  /** Leading whitespace followed by a string that does not start with whitespace: a greedy `\s+` match consumes exactly the whitespace. */
  lemma {:induction false} TrimStartSpaces(w: string, b: string)
    requires forall k :: 0 <= k < |w| ==> IsSpace(w[k])
    requires b == [] || !IsSpace(b[0])
    ensures TrimStart(w + b) == b
    decreases |w|
  {
    if w == [] {
      assert w + b == b;
    } else {
      assert (w + b)[1..] == w[1..] + b;
      TrimStartSpaces(w[1..], b);
    }
  }

  /** A string without whitespace is left as it is by `replace(/\s+/g, ' ')`. */
  lemma {:induction false} CollapseNoSpace(s: string)
    requires forall k :: 0 <= k < |s| ==> !IsSpace(s[k])
    ensures Collapse(s) == s
    decreases |s|
  {
    if s != [] {
      CollapseNoSpace(s[1..]);
      assert s == [s[0]] + s[1..];
    }
  }

  /**
   * A whitespace run between two parts becomes exactly one space: the parts
   * around it are collapsed on their own and nothing is deleted.
   */
  lemma {:induction false} CollapseRun(a: string, w: string, b: string)
    requires a == [] || !IsSpace(a[|a| - 1])
    requires w != [] && forall k :: 0 <= k < |w| ==> IsSpace(w[k])
    requires b == [] || !IsSpace(b[0])
    ensures Collapse(a + w + b) == Collapse(a) + " " + Collapse(b)
    decreases |a|, 1
  {
    if a == [] {
      assert a + w + b == w + b && Collapse(a) == [] by {
        assert a == [];
      }
      CollapseRunAlone(w, b);
    } else if !IsSpace(a[0]) {
      CollapseRunWord(a, w, b);
    } else {
      CollapseRunSpace(a, w, b);
    }
  }

  lemma {:induction false} CollapseRunWord(a: string, w: string, b: string)
    requires a != [] && !IsSpace(a[0]) && !IsSpace(a[|a| - 1])
    requires w != [] && forall k :: 0 <= k < |w| ==> IsSpace(w[k])
    requires b == [] || !IsSpace(b[0])
    ensures Collapse(a + w + b) == Collapse(a) + " " + Collapse(b)
    decreases |a|, 0
  {
    CollapseRun(a[1..], w, b);
    CollapseWordStep(a, w, b);
    Glue(Collapse(a + w + b), Collapse(a), [a[0]], Collapse(a[1..] + w + b), Collapse(a[1..]), " ", Collapse(b));
  }

  lemma {:induction false} CollapseRunSpace(a: string, w: string, b: string)
    requires a != [] && IsSpace(a[0]) && !IsSpace(a[|a| - 1])
    requires w != [] && forall k :: 0 <= k < |w| ==> IsSpace(w[k])
    requires b == [] || !IsSpace(b[0])
    ensures Collapse(a + w + b) == Collapse(a) + " " + Collapse(b)
    decreases |a|, 0
  {
    var lead, t := LeadingSpaces(a);
    var u := t + w + b;
    assert u[0] == t[0];
    assert Collapse(a) == " " + Collapse(t) by {
      CollapseRunAlone(lead, t);
    }
    assert Collapse(a + w + b) == " " + Collapse(u) by {
      Regroup(a, lead, t, w, b);
      CollapseRunAlone(lead, u);
    }
    CollapseRun(t, w, b);
    Glue(Collapse(a + w + b), Collapse(a), " ", Collapse(u), Collapse(t), " ", Collapse(b));
  }

  /** A string that starts with whitespace and ends without it: its leading whitespace run and the rest. */
  lemma LeadingSpaces(a: string) returns (lead: string, t: string)
    requires a != [] && IsSpace(a[0]) && !IsSpace(a[|a| - 1])
    ensures a == lead + t && lead != [] && t != [] && !IsSpace(t[0])
    ensures forall k :: 0 <= k < |lead| ==> IsSpace(lead[k])
    ensures |t| < |a| && !IsSpace(t[|t| - 1])
  {
    t := TrimStart(a);
    lead := a[..|a| - |t|];
    assert forall k :: 0 <= k < |lead| ==> lead[k] == a[k];
  }

  lemma CollapseRunAlone(w: string, b: string)
    requires w != [] && forall k :: 0 <= k < |w| ==> IsSpace(w[k])
    requires b == [] || !IsSpace(b[0])
    ensures Collapse(w + b) == " " + Collapse(b)
  {
    var s := w + b;
    assert IsSpace(s[0]);
    assert TrimStart(s[1..]) == b by {
      assert s[1..] == w[1..] + b;
      TrimStartSpaces(w[1..], b);
    }
    CollapseSpaceHead(s);
  }

  /** Unfolding `Collapse` at a leading whitespace character. */
  lemma CollapseSpaceHead(s: string)
    requires s != [] && IsSpace(s[0])
    ensures Collapse(s) == " " + Collapse(TrimStart(s[1..]))
  {
  }

  /** Unfolding `Collapse` at a leading non-whitespace character. */
  lemma CollapseWordHead(s: string)
    requires s != [] && !IsSpace(s[0])
    ensures Collapse(s) == [s[0]] + Collapse(s[1..])
  {
  }

  /** `Collapse` of `a + w + b` at a leading non-whitespace character of `a`. */
  lemma CollapseWordStep(a: string, w: string, b: string)
    requires a != [] && !IsSpace(a[0])
    ensures Collapse(a + w + b) == [a[0]] + Collapse(a[1..] + w + b)
    ensures Collapse(a) == [a[0]] + Collapse(a[1..])
  {
    var s := a + w + b;
    assert s[0] == a[0] && s[1..] == a[1..] + w + b;
    CollapseWordHead(s);
    CollapseWordHead(a);
  }

  /** Regrouping a concatenation whose first part is itself split in two. */
  lemma Regroup<T>(a: seq<T>, x: seq<T>, y: seq<T>, w: seq<T>, b: seq<T>)
    requires a == x + y
    ensures a + w + b == x + (y + w + b)
  {
  }

  /** Regrouping a concatenation: `c` split as `h + (x + y + z)` is `(h + x) + y + z`. */
  lemma Glue<T>(c: seq<T>, hx: seq<T>, h: seq<T>, m: seq<T>, x: seq<T>, y: seq<T>, z: seq<T>)
    requires c == h + m && m == x + y + z && hx == h + x
    ensures c == hx + y + z
  {
  }

  /** A string split as its body and its trailing whitespace run, which may be empty. */
  lemma {:induction false} TrailingSpaces(x: string) returns (h: string, w: string)
    ensures x == h + w && (h == [] || !IsSpace(h[|h| - 1]))
    ensures forall k :: 0 <= k < |w| ==> IsSpace(w[k])
    decreases |x|
  {
    if x == [] || !IsSpace(x[|x| - 1]) {
      h, w := x, [];
    } else {
      var init := x[..|x| - 1];
      var tail;
      h, tail := TrailingSpaces(init);
      w := tail + [x[|x| - 1]];
      assert x == init + [x[|x| - 1]];
    }
  }

  /** A split after a non-whitespace character is not inside a run, so each side collapses on its own. */
  lemma {:induction false} CollapseJoin(a: string, b: string)
    requires a == [] || !IsSpace(a[|a| - 1])
    ensures Collapse(a + b) == Collapse(a) + Collapse(b)
    decreases |a|, 1
  {
    if a == [] {
      assert a + b == b;
    } else if !IsSpace(a[0]) {
      CollapseJoinWord(a, b);
    } else {
      CollapseJoinSpace(a, b);
    }
  }

  lemma {:induction false} CollapseJoinWord(a: string, b: string)
    requires a != [] && !IsSpace(a[0]) && !IsSpace(a[|a| - 1])
    ensures Collapse(a + b) == Collapse(a) + Collapse(b)
    decreases |a|, 0
  {
    assert Collapse(a + b) == [a[0]] + Collapse(a[1..] + b) by {
      assert (a + b)[1..] == a[1..] + b;
      CollapseWordHead(a + b);
    }
    assert Collapse(a) == [a[0]] + Collapse(a[1..]) by {
      CollapseWordHead(a);
    }
    CollapseJoin(a[1..], b);
    Shift(Collapse(a + b), Collapse(a), [a[0]], Collapse(a[1..]), Collapse(b));
  }

  lemma {:induction false} CollapseJoinSpace(a: string, b: string)
    requires a != [] && IsSpace(a[0]) && !IsSpace(a[|a| - 1])
    ensures Collapse(a + b) == Collapse(a) + Collapse(b)
    decreases |a|, 0
  {
    var lead, t := LeadingSpaces(a);
    CollapseRunAlone(lead, t);
    CollapseRunBefore(lead, t, b);
    CollapseJoin(t, b);
    Shift(Collapse(a + b), Collapse(a), " ", Collapse(t), Collapse(b));
  }

  /** `CollapseRunAlone` with a tail appended after the part that follows the run. */
  lemma CollapseRunBefore(w: string, t: string, b: string)
    requires w != [] && forall k :: 0 <= k < |w| ==> IsSpace(w[k])
    requires t != [] && !IsSpace(t[0])
    ensures Collapse(w + t + b) == " " + Collapse(t + b)
  {
    var u := t + b;
    assert u[0] == t[0];
    assert w + t + b == w + u;
    CollapseRunAlone(w, u);
  }

  /** Regrouping `x + p + y` when `x` is itself split as `h + w`. */
  lemma Resplit<T>(s: seq<T>, x: seq<T>, p: seq<T>, y: seq<T>, h: seq<T>, w: seq<T>)
    requires s == x + p + y && x == h + w
    ensures s == h + w + (p + y)
  {
  }

  /** Regrouping a concatenation: `c` split as `h + (x + z)` is `(h + x) + z`. */
  lemma Shift<T>(c: seq<T>, hx: seq<T>, h: seq<T>, x: seq<T>, z: seq<T>)
    requires c == h + (x + z) && hx == h + x
    ensures c == hx + z
  {
  }

  /** An occurrence of `p` gives the split of `s` around it. */
  lemma Occurrence(s: string, p: string) returns (x: string, y: string)
    requires Contains(s, p)
    ensures s == x + p + y
  {
    var i :| 0 <= i <= |s| && StartsWith(s[i..], p);
    x, y := s[..i], s[i + |p|..];
    assert s[i..][..|p|] == s[i..i + |p|];
    assert s == s[..i] + s[i..i + |p|] + s[i + |p|..];
  }

  /**
   * A phrase that starts and ends with a visible character and that collapsing
   * leaves as it is survives `replace(/\s+/g, ' ')`: wherever it occurs in `s`,
   * it occurs in the collapsed string.
   */
  lemma CollapseKeeps(s: string, p: string)
    requires Contains(s, p)
    requires p != [] && !IsSpace(p[0]) && !IsSpace(p[|p| - 1]) && Collapse(p) == p
    ensures Contains(Collapse(s), p)
  {
    var x, y := Occurrence(s, p);
    var h, w := TrailingSpaces(x);
    Resplit(s, x, p, y, h, w);
    var u := CollapseAround(h, w, p, y);
    ContainsAt(Collapse(s), u, p, Collapse(y));
  }

  /** A word of lower-case ASCII letters: it holds no whitespace. */
  predicate LowerWord(p: string): (b: bool)
    ensures b ==> forall k :: 0 <= k < |p| ==> !IsSpace(p[k])
  {
    p != [] && forall k :: 0 <= k < |p| ==> 'a' <= p[k] <= 'z'
  }

  /** A word of lower-case letters survives collapsing wherever it occurs. */
  lemma WordSurvives(s: string, p: string)
    requires LowerWord(p)
    ensures Contains(s, p) ==> Contains(Collapse(s), p)
  {
    if Contains(s, p) {
      CollapseNoSpace(p);
      CollapseKeeps(s, p);
    }
  }

  /** Two such words joined by one space survive collapsing wherever they occur. */
  lemma PhraseSurvives(s: string, a: string, b: string)
    requires LowerWord(a) && LowerWord(b)
    ensures Contains(s, a + " " + b) ==> Contains(Collapse(s), a + " " + b)
  {
    var p := a + " " + b;
    if Contains(s, p) {
      assert Collapse(p) == p by {
        CollapseNoSpace(a);
        CollapseNoSpace(b);
        CollapseRun(a, " ", b);
      }
      assert p[0] == a[0] && p[|p| - 1] == b[|b| - 1];
      CollapseKeeps(s, p);
    }
  }

  /** Collapsing `h + w + p + y`, where `w` is the whitespace run before `p`: `p` comes out whole. */
  lemma CollapseAround(h: string, w: string, p: string, y: string) returns (u: string)
    requires h == [] || !IsSpace(h[|h| - 1])
    requires forall k :: 0 <= k < |w| ==> IsSpace(w[k])
    requires p != [] && !IsSpace(p[0]) && !IsSpace(p[|p| - 1]) && Collapse(p) == p
    ensures Collapse(h + w + (p + y)) == u + p + Collapse(y)
  {
    var q := p + y;
    assert q[0] == p[0];
    CollapseJoin(p, y);
    if w == [] {
      u := CollapseAroundNoRun(h, w, q);
    } else {
      CollapseRun(h, w, q);
      u := Collapse(h) + " ";
    }
    Shift(Collapse(h + w + q), u + p, u, p, Collapse(y));
  }

  lemma CollapseAroundNoRun(h: string, w: string, q: string) returns (u: string)
    requires h == [] || !IsSpace(h[|h| - 1])
    requires w == []
    ensures Collapse(h + w + q) == u + Collapse(q)
  {
    assert h + w + q == h + q;
    CollapseJoin(h, q);
    u := Collapse(h);
  }

  /** `includes` finds `p` where it was put. */
  lemma ContainsAt(c: string, u: string, p: string, v: string)
    requires c == u + p + v
    ensures Contains(c, p)
  {
    assert c[|u|..][..|p|] == p;
  }

  /** Two whitespace-free words with a whitespace run between them clean to the words joined by one space. */
  lemma CleanRun(a: string, w: string, b: string)
    requires a != [] && forall k :: 0 <= k < |a| ==> !IsSpace(a[k])
    requires w != [] && forall k :: 0 <= k < |w| ==> IsSpace(w[k])
    requires b != [] && forall k :: 0 <= k < |b| ==> !IsSpace(b[k])
    ensures Clean(a + w + b) == a + " " + b
  {
    var r := a + " " + b;
    assert Collapse(a + w + b) == r by {
      CollapseRun(a, w, b);
      CollapseNoSpace(a);
      CollapseNoSpace(b);
    }
    assert Trimmed(r) by {
      assert r[0] == a[0] && r[|r| - 1] == b[|b| - 1];
    }
    TrimOfTrimmed(r);
  }

  /** Three whitespace-free words with whitespace runs between them clean to the words joined by single spaces. */
  lemma CleanTwoRuns(a: string, w: string, b: string, v: string, c: string)
    requires a != [] && forall k :: 0 <= k < |a| ==> !IsSpace(a[k])
    requires w != [] && forall k :: 0 <= k < |w| ==> IsSpace(w[k])
    requires b != [] && forall k :: 0 <= k < |b| ==> !IsSpace(b[k])
    requires v != [] && forall k :: 0 <= k < |v| ==> IsSpace(v[k])
    requires c != [] && forall k :: 0 <= k < |c| ==> !IsSpace(c[k])
    ensures Clean(a + w + b + v + c) == a + " " + b + " " + c
  {
    var bvc, b1 := b + v + c, b + " " + c;
    assert Collapse(bvc) == b1 by {
      CollapseRun(b, v, c);
      CollapseNoSpace(b);
      CollapseNoSpace(c);
    }
    assert bvc[0] == b[0];
    assert Collapse(a + w + bvc) == a + " " + b1 by {
      CollapseRun(a, w, bvc);
      CollapseNoSpace(a);
    }
    var r := a + " " + b1;
    assert Trimmed(r) by {
      assert r[0] == a[0] && r[|r| - 1] == c[|c| - 1];
    }
    TrimOfTrimmed(r);
    Regroup(a + w + b, a + w, b, v, c);
    Regroup(a + " " + b, a + " ", b, " ", c);
  }

  lemma TrimOfTrimmed(s: string)
    requires Trimmed(s)
    ensures Trim(s) == s
  {
  }

  /** `s.replace(/\s+/g, ' ').trim()`: the whitespace clean-up applied to names and statuses. */
  function Clean(s: string): (r: string)
    ensures Trimmed(r) && SingleSpaced(r) && PlainSpaces(r)
  {
    TrimKeepsSpacing(Collapse(s));
    Trim(Collapse(s))
  }

  /** Cleaning keeps the visible characters, so it yields "" exactly for an all-whitespace string. */
  lemma CleanVisible(s: string)
    ensures Visible(Clean(s)) == Visible(s)
    ensures Clean(s) == [] <==> Visible(s) == []
  {
    CollapseVisible(s);
    TrimVisible(Collapse(s));
    var r := Clean(s);
    if r != [] {
      assert Visible(r) == [r[0]] + Visible(r[1..]);
    }
  }

  /** An optional element's trimmed text, `el ? el.textContent.trim() : ''`. */
  function TextOf(el: Option<string>): (r: string)
    ensures Trimmed(r)
    ensures el.None? ==> r == ""
  {
    if el.Some? then Trim(el.value) else ""
  }

  /** `s.replace(/\n/g, ' ')`. */
  function NewlinesToSpaces(s: string): (r: string)
    ensures |r| == |s| && '\n' !in r
    ensures forall k :: 0 <= k < |s| && s[k] == '\n' ==> r[k] == ' '
    ensures forall k :: 0 <= k < |s| && s[k] != '\n' ==> r[k] == s[k]
  {
    seq(|s|, k requires 0 <= k < |s| => if s[k] == '\n' then ' ' else s[k])
  }

  /** `c.toLowerCase()` on the ASCII letters; every other character is left as it is. */
  function LowerChar(c: char): char {
    if 'A' <= c <= 'Z' then (c as int - 'A' as int + 'a' as int) as char else c
  }

  /** `s.toLowerCase()`, restricted to ASCII case mapping. */
  function ToLower(s: string): (r: string)
    ensures |r| == |s|
    ensures forall k :: 0 <= k < |r| ==> !('A' <= r[k] <= 'Z')
    ensures forall k :: 0 <= k < |r| ==> (IsSpace(r[k]) <==> IsSpace(s[k]))
    ensures forall k :: 0 <= k < |r| && 'A' <= s[k] <= 'Z' ==> r[k] as int == s[k] as int + 32
    ensures forall k :: 0 <= k < |r| && !('A' <= s[k] <= 'Z') ==> r[k] == s[k]
  {
    seq(|s|, k requires 0 <= k < |s| => LowerChar(s[k]))
  }

  /** `s.startsWith(p)`. */
  predicate StartsWith(s: string, p: string) {
    |p| <= |s| && s[..|p|] == p
  }

  /** `startsWith` compares position by position. */
  lemma StartsWithPointwise(s: string, p: string)
    ensures StartsWith(s, p) <==> |p| <= |s| && forall k :: 0 <= k < |p| ==> s[k] == p[k]
  {
    if |p| <= |s| && forall k :: 0 <= k < |p| ==> s[k] == p[k] {
      assert s[..|p|] == p;
    }
  }

  /** A newline between two newline-free parts becomes a space. */
  lemma NewlineBecomesSpace(a: string, x: string)
    requires forall k :: 0 <= k < |a| ==> a[k] != '\n'
    requires forall k :: 0 <= k < |x| ==> x[k] != '\n'
    ensures NewlinesToSpaces(a + "\n" + x) == a + " " + x
  {
    var s := a + "\n" + x;
    var r := NewlinesToSpaces(s);
    forall k | 0 <= k < |s| ensures r[k] == (a + " " + x)[k] {
      if k > |a| {
        assert s[k] == x[k - |a| - 1];
      }
    }
  }

  /** `s.includes(p)`: found only where it fits, and always found at the start. */
  predicate Contains(s: string, p: string): (b: bool)
    ensures b ==> |p| <= |s|
    ensures StartsWith(s, p) ==> b
  {
    assert s[0..] == s;
    exists i :: 0 <= i <= |s| && StartsWith(s[i..], p)
  }

  /** The first position at or after `k` where `p` occurs in `s`. */
  function IndexFrom(s: string, p: string, k: nat): (r: Option<nat>)
    requires k <= |s|
    ensures r.Some? ==> k <= r.value <= |s| && StartsWith(s[r.value..], p)
    ensures r.Some? ==> forall j :: k <= j < r.value ==> !StartsWith(s[j..], p)
    ensures r.None? ==> forall j :: k <= j <= |s| ==> !StartsWith(s[j..], p)
    decreases |s| - k
  {
    if StartsWith(s[k..], p) then Some(k)
    else if k == |s| then None
    else IndexFrom(s, p, k + 1)
  }

  /** `s.indexOf(p)`, with `None` for -1. */
  function IndexOf(s: string, p: string): (r: Option<nat>)
    ensures r.Some? ==> r.value <= |s| && StartsWith(s[r.value..], p)
    ensures r.Some? ==> forall j :: 0 <= j < r.value ==> !StartsWith(s[j..], p)
    ensures r.None? <==> !Contains(s, p)
  {
    IndexFrom(s, p, 0)
  }

  /**
   * `s.replace(p, '')` with a string pattern: the first occurrence of `p` is
   * removed; an absent (or empty) pattern leaves `s` as it is.
   */
  function RemoveFirst(s: string, p: string): (r: string)
    ensures !Contains(s, p) ==> r == s
    ensures Contains(s, p) ==> |r| + |p| == |s|
    ensures IndexOf(s, p).Some? ==>
              var i := IndexOf(s, p).value;
              i <= |r| && r[..i] + p + r[i..] == s
  {
    match IndexOf(s, p)
    case None => s
    case Some(i) =>
      var r := s[..i] + s[i + |p|..];
      assert r[..i] + p + r[i..] == s by {
        assert r[..i] == s[..i] && r[i..] == s[i + |p|..];
        assert p == s[i..][..|p|] == s[i..i + |p|];
        assert s == s[..i] + s[i..i + |p|] + s[i + |p|..];
      }
      r
  }

  /** The first position of `c` in `s`. */
  function IndexOfChar(s: string, c: char): (r: Option<nat>)
    ensures r.Some? ==> r.value < |s| && s[r.value] == c && c !in s[..r.value]
    ensures r.None? <==> c !in s
  {
    if s == [] then None
    else if s[0] == c then Some(0)
    else
      match IndexOfChar(s[1..], c)
      case None => None
      case Some(i) =>
        assert s[..i + 1] == [s[0]] + s[1..][..i];
        Some(i + 1)
  }

  /** The pieces joined back with the separator between them: the inverse of `Split`. */
  function Join(parts: seq<string>, sep: char): string {
    if parts == [] then []
    else if |parts| == 1 then parts[0]
    else parts[0] + [sep] + Join(parts[1..], sep)
  }

  /** `s.split(sep)` for a one-character separator: at least one piece, none holding the separator. */
  function Split(s: string, sep: char): (r: seq<string>)
    ensures |r| >= 1
    ensures forall k :: 0 <= k < |r| ==> sep !in r[k]
    ensures Join(r, sep) == s
    decreases |s|
  {
    match IndexOfChar(s, sep)
    case None => [s]
    case Some(i) =>
      var rest := Split(s[i + 1..], sep);
      assert s == s[..i] + [sep] + s[i + 1..];
      [s[..i]] + rest
  }

  /** `s.split('\n')[0]`. */
  function FirstLine(s: string): (r: string)
    ensures '\n' !in r
    ensures r == s || StartsWith(s, r + "\n")
  {
    var parts := Split(s, '\n');
    if |parts| == 1 then parts[0]
    else
      assert s == parts[0] + ['\n'] + Join(parts[1..], '\n');
      assert s[..|parts[0]| + 1] == parts[0] + "\n";
      parts[0]
  }

  /** `lines.map(l => l.trim()).filter(l => l)[0] || ''`. */
  function FirstNonEmptyTrimmed(lines: seq<string>): (r: string)
    ensures Trimmed(r)
    ensures r != [] ==> exists k :: 0 <= k < |lines| && r == Trim(lines[k]) &&
                                    forall j :: 0 <= j < k ==> Trim(lines[j]) == []
    ensures r == [] ==> forall k :: 0 <= k < |lines| ==> Trim(lines[k]) == []
  {
    if lines == [] then []
    else if Trim(lines[0]) != [] then Trim(lines[0])
    else
      var r := FirstNonEmptyTrimmed(lines[1..]);
      if r != [] then
        var k :| 0 <= k < |lines[1..]| && r == Trim(lines[1..][k]) &&
                 forall j :: 0 <= j < k ==> Trim(lines[1..][j]) == [];
        assert r == Trim(lines[k + 1]);
        assert forall j :: 0 <= j < k + 1 ==> Trim(lines[j]) == [] by {
          forall j | 0 <= j < k + 1 ensures Trim(lines[j]) == [] {
            if j > 0 { assert lines[j] == lines[1..][j - 1]; }
          }
        }
        r
      else
        assert forall k :: 0 <= k < |lines| ==> Trim(lines[k]) == [] by {
          forall k | 0 <= k < |lines| ensures Trim(lines[k]) == [] {
            if k > 0 { assert lines[k] == lines[1..][k - 1]; }
          }
        }
        r
  }

  // ---------------------------------------------------------------------------
  // The pattern \b(\d+)\b and parseInt(digits, 10)
  // ---------------------------------------------------------------------------

  predicate AllDigits(d: string) {
    forall k :: 0 <= k < |d| ==> IsDigit(d[k])
  }

  /**
   * `s[i..j]` is a run of digits that `\b(\d+)\b` can match: non-empty, with a
   * word boundary before it and after it. Digits are word characters, so a
   * boundary on both sides makes the run maximal.
   */
  predicate BoundedRun(s: string, i: int, j: int) {
    && 0 <= i < j <= |s|
    && (forall k :: i <= k < j ==> IsDigit(s[k]))
    && (i == 0 || !IsWordChar(s[i - 1]))
    && (j == |s| || !IsWordChar(s[j]))
  }

  /** The end of the longest run of digits that starts at `i`. */
  function DigitRunEnd(s: string, i: nat): (j: nat)
    requires i <= |s|
    ensures i <= j <= |s|
    ensures forall k :: i <= k < j ==> IsDigit(s[k])
    ensures j == |s| || !IsDigit(s[j])
    decreases |s| - i
  {
    if i < |s| && IsDigit(s[i]) then DigitRunEnd(s, i + 1) else i
  }

  /** The leftmost match of `\b(\d+)\b` that starts at or after `k`. */
  function BoundedRunFrom(s: string, k: nat): (r: Option<(nat, nat)>)
    requires k <= |s|
    ensures r.Some? ==> k <= r.value.0 && BoundedRun(s, r.value.0, r.value.1)
    ensures r.Some? ==> forall i, j :: k <= i < r.value.0 ==> !BoundedRun(s, i, j)
    ensures r.None? ==> forall i, j :: k <= i ==> !BoundedRun(s, i, j)
    decreases |s| - k
  {
    if k == |s| then None
    else if IsDigit(s[k]) && (k == 0 || !IsWordChar(s[k - 1])) then
      var j := DigitRunEnd(s, k);
      if j == |s| || !IsWordChar(s[j]) then Some((k, j))
      else
        assert forall j' :: !BoundedRun(s, k, j') by {
          forall j' ensures !BoundedRun(s, k, j') {
            if k < j' < j { assert IsWordChar(s[j']); }
            else if j < j' { assert !IsDigit(s[j]); }
          }
        }
        BoundedRunFrom(s, k + 1)
    else
      BoundedRunFrom(s, k + 1)
  }

  /** `[i, j)` is the leftmost bounded run of digits of `s`. */
  ghost predicate LeftmostRun(s: string, i: int, j: int) {
    BoundedRun(s, i, j) && forall i', j' :: i' < i ==> !BoundedRun(s, i', j')
  }

  /** `s.match(/\b(\d+)\b/)`: the position of the first bounded run of digits, if any. */
  function FirstBoundedRun(s: string): (r: Option<(nat, nat)>)
    ensures r.Some? ==> BoundedRun(s, r.value.0, r.value.1)
    ensures r.Some? ==> forall i, j :: i < r.value.0 ==> !BoundedRun(s, i, j)
    ensures r.None? <==> forall i, j :: !BoundedRun(s, i, j)
  {
    BoundedRunFrom(s, 0)
  }

  function DigitValue(c: char): nat
    requires IsDigit(c)
  {
    c as int - '0' as int
  }

  function DigitChar(d: nat): (c: char)
    requires d < 10
    ensures IsDigit(c) && DigitValue(c) == d
  {
    (d + '0' as int) as char
  }

  function Pow10(n: nat): (p: nat)
    ensures p >= 1
  {
    if n == 0 then 1 else 10 * Pow10(n - 1)
  }

  /**
   * `parseInt(d, 10)` of a string of decimal digits: a numeral of `k` digits
   * reads below `10^k`, and at least `10^(k-1)` when it does not start with 0.
   */
  function DecimalValue(d: string): (r: nat)
    requires AllDigits(d)
    ensures r < Pow10(|d|)
    ensures d != [] && d[0] != '0' ==> r >= Pow10(|d| - 1)
    decreases |d|
  {
    if d == [] then 0
    else
      var init := d[..|d| - 1];
      assert init != [] ==> init[0] == d[0];
      10 * DecimalValue(init) + DigitValue(d[|d| - 1])
  }

  /** The decimal numeral of `n`, without leading zeros. */
  function DecimalString(n: nat): (d: string)
    ensures AllDigits(d) && |d| >= 1
    ensures |d| > 1 ==> d[0] != '0'
  {
    if n < 10 then [DigitChar(n)] else DecimalString(n / 10) + [DigitChar(n % 10)]
  }

  /** `parseInt` reads back every numeral `DecimalString` writes. */
  lemma {:induction false} DecimalRoundTrip(n: nat)
    ensures DecimalValue(DecimalString(n)) == n
  {
    if n >= 10 {
      var d := DecimalString(n);
      assert d[..|d| - 1] == DecimalString(n / 10);
      DecimalRoundTrip(n / 10);
    }
  }

  /** Leading zeros do not change the value `parseInt` reads. */
  lemma {:induction false} LeadingZeros(z: string, d: string)
    requires forall k :: 0 <= k < |z| ==> z[k] == '0'
    requires AllDigits(d)
    ensures AllDigits(z + d) && DecimalValue(z + d) == DecimalValue(d)
  {
    if d == [] {
      assert z + d == z;
      AllZeros(z);
    } else {
      var e := z + d;
      assert e[..|e| - 1] == z + d[..|d| - 1];
      LeadingZeros(z, d[..|d| - 1]);
    }
  }

  lemma {:induction false} AllZeros(z: string)
    requires forall k :: 0 <= k < |z| ==> z[k] == '0'
    ensures AllDigits(z) && DecimalValue(z) == 0
  {
    if z != [] {
      AllZeros(z[..|z| - 1]);
    }
  }
}
