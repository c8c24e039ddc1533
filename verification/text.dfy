/** String operations the bot relies on from JavaScript's standard library:
    `split`/`join` on a one-character separator, `filter(Boolean)`,
    `includes`, `trim` and `toLowerCase`. Strings are sequences of characters. */
module Text {

  /* ---------------------------------------------------------------- includes */

  predicate IsPrefix(p: string, s: string) {
    |p| <= |s| && s[..|p|] == p
  }

  predicate IsSuffix(p: string, s: string) {
    |p| <= |s| && s[|s| - |p|..] == p
  }

  lemma PrefixTransitive(a: string, b: string, c: string)
    requires IsPrefix(a, b) && IsPrefix(b, c)
    ensures IsPrefix(a, c)
  {
    assert c[..|a|] == c[..|b|][..|a|];
  }

  lemma PrefixOfConcat(a: string, b: string)
    ensures IsPrefix(a, a + b)
  {
    assert (a + b)[..|a|] == a;
  }

  lemma SuffixTransitive(a: string, b: string, c: string)
    requires IsSuffix(a, b) && IsSuffix(b, c)
    ensures IsSuffix(a, c)
  {
    assert c[|c| - |a|..] == c[|c| - |b|..][|b| - |a|..];
  }

  lemma SuffixOfConcat(a: string, b: string)
    ensures IsSuffix(b, a + b)
  {
    assert (a + b)[|a + b| - |b|..] == b;
  }

  /** True iff `t` occurs somewhere in `s` (JavaScript's `s.includes(t)`). */
  predicate Contains(s: string, t: string)
    decreases |s|
  {
    IsPrefix(t, s) || (|s| > 0 && Contains(s[1..], t))
  }

  /** `t` occurs in `s` starting at position `i`. */
  predicate OccursAt(s: string, t: string, i: int) {
    0 <= i && i + |t| <= |s| && s[i..i + |t|] == t
  }

  /** `Contains` agrees with the positional definition of a substring. */
  lemma {:induction false} ContainsIffOccurs(s: string, t: string)
    ensures Contains(s, t) <==> exists i :: OccursAt(s, t, i)
    decreases |s|
  {
    if IsPrefix(t, s) {
      assert OccursAt(s, t, 0);
    } else if |s| == 0 {
      assert |t| > 0;
    } else {
      ContainsIffOccurs(s[1..], t);
      if exists i :: OccursAt(s, t, i) {
        var i :| OccursAt(s, t, i);
        assert i != 0;
        assert s[1..][i - 1..i - 1 + |t|] == t;
        assert OccursAt(s[1..], t, i - 1);
      }
      if Contains(s[1..], t) {
        var j :| OccursAt(s[1..], t, j);
        assert s[j + 1..j + 1 + |t|] == t;
        assert OccursAt(s, t, j + 1);
      }
    }
  }

  /** Every occurrence found at an explicit position is reported by `Contains`. */
  lemma ContainsAt(s: string, t: string, i: nat)
    requires OccursAt(s, t, i)
    ensures Contains(s, t)
  {
    ContainsIffOccurs(s, t);
  }

  /** A string lacking some character of `t` does not contain `t`. */
  lemma MissingCharNotContained(s: string, t: string, k: nat)
    requires k < |t| && t[k] !in s
    ensures !Contains(s, t)
  {
    ContainsIffOccurs(s, t);
  }

  /* ------------------------------------------------------ split, join, filter */

  /** JavaScript's `s.split(sep)` for a one-character separator: the pieces
      between separators, always at least one (`"".split(sep)` is `[""]`). */
  function Split(s: string, sep: char): (pieces: seq<string>)
    ensures |pieces| >= 1
    ensures forall i :: 0 <= i < |pieces| ==> sep !in pieces[i]
    decreases |s|
  {
    if |s| == 0 then [[]]
    else if s[0] == sep then [[]] + Split(s[1..], sep)
    else
      var rest := Split(s[1..], sep);
      [[s[0]] + rest[0]] + rest[1..]
  }

  /** JavaScript's `xs.join(sep)`: `[].join(sep)` is the empty string. */
  function Join(xs: seq<string>, sep: char): string
  {
    if |xs| == 0 then []
    else if |xs| == 1 then xs[0]
    else xs[0] + [sep] + Join(xs[1..], sep)
  }

  /** A character that is not the separator and occurs in no piece does not
      occur in the join. */
  lemma {:induction false} NotInJoin(xs: seq<string>, sep: char, c: char)
    requires c != sep && forall i :: 0 <= i < |xs| ==> c !in xs[i]
    ensures c !in Join(xs, sep)
  {
    if |xs| > 1 {
      NotInJoin(xs[1..], sep, c);
    }
  }

  /** JavaScript's `xs.filter(Boolean)` on strings: drops the empty ones. */
  function DropEmpty(xs: seq<string>): (ys: seq<string>)
    ensures forall i :: 0 <= i < |ys| ==> ys[i] != []
    ensures forall y :: y in ys <==> y in xs && y != []
    ensures |ys| <= |xs|
  {
    if |xs| == 0 then []
    else if xs[0] == [] then DropEmpty(xs[1..])
    else [xs[0]] + DropEmpty(xs[1..])
  }

  lemma {:induction false} DropEmptyKeepsNonEmpty(xs: seq<string>)
    requires forall i :: 0 <= i < |xs| ==> xs[i] != []
    ensures DropEmpty(xs) == xs
  {
    if |xs| > 0 {
      DropEmptyKeepsNonEmpty(xs[1..]);
      assert [xs[0]] + xs[1..] == xs;
    }
  }

  /** Joining the pieces of a split gives back the original string. */
  lemma {:induction false} JoinSplit(s: string, sep: char)
    ensures Join(Split(s, sep), sep) == s
    decreases |s|
  {
    if |s| > 0 {
      var rest := Split(s[1..], sep);
      JoinSplit(s[1..], sep);
      if s[0] == sep {
        assert Split(s, sep) == [[]] + rest;
        assert ([[]] + rest)[1..] == rest;
        assert s == [sep] + s[1..];
      } else if |rest| == 1 {
        assert s == [s[0]] + s[1..];
      } else {
        var xs := [[s[0]] + rest[0]] + rest[1..];
        assert xs[1..] == rest[1..];
        assert Join(rest, sep) == rest[0] + [sep] + Join(rest[1..], sep);
        assert s == [s[0]] + s[1..];
      }
    }
  }

  /** A separator-free string splits into itself alone. */
  lemma {:induction false} SplitWithoutSep(x: string, sep: char)
    requires sep !in x
    ensures Split(x, sep) == [x]
    decreases |x|
  {
    if |x| > 0 {
      SplitWithoutSep(x[1..], sep);
      assert [x[0]] + x[1..] == x;
    }
  }

  /** Splitting a join of separator-free pieces gives back the pieces. */
  lemma {:induction false} SplitJoin(xs: seq<string>, sep: char)
    requires |xs| >= 1
    requires forall i :: 0 <= i < |xs| ==> sep !in xs[i]
    ensures Split(Join(xs, sep), sep) == xs
    decreases |xs|
  {
    if |xs| == 1 {
      SplitWithoutSep(xs[0], sep);
    } else {
      SplitJoin(xs[1..], sep);
      SplitWithoutSep(xs[0], sep);
      SplitAround(xs[0], sep, Join(xs[1..], sep));
      assert [xs[0]] + xs[1..] == xs;
    }
  }

  /** Splitting two texts joined by a separator gives the pieces of the
      first, then the pieces of the second. */
  lemma {:induction false} SplitAround(a: string, sep: char, b: string)
    ensures Split(a + [sep] + b, sep) == Split(a, sep) + Split(b, sep)
    decreases |a|
  {
    if |a| == 0 {
      var s := a + [sep] + b;
      assert s == [sep] + b;
      assert s[1..] == b;
    } else {
      SplitAround(a[1..], sep, b);
      if a[0] == sep {
        SplitAroundSep(a, sep, b);
      } else {
        SplitAroundChar(a, sep, b);
      }
    }
  }

  lemma SplitAroundSep(a: string, sep: char, b: string)
    requires |a| > 0 && a[0] == sep
    requires Split(a[1..] + [sep] + b, sep) == Split(a[1..], sep) + Split(b, sep)
    ensures Split(a + [sep] + b, sep) == Split(a, sep) + Split(b, sep)
  {
    var s := a + [sep] + b;
    assert s[0] == sep && s[1..] == a[1..] + [sep] + b;
    PrependAppend([], Split(a[1..], sep), Split(b, sep));
  }

  lemma PrependAppend(x: string, f: seq<string>, g: seq<string>)
    ensures [x] + (f + g) == ([x] + f) + g
  {
  }

  lemma SplitAroundChar(a: string, sep: char, b: string)
    requires |a| > 0 && a[0] != sep
    requires Split(a[1..] + [sep] + b, sep) == Split(a[1..], sep) + Split(b, sep)
    ensures Split(a + [sep] + b, sep) == Split(a, sep) + Split(b, sep)
  {
    var s := a + [sep] + b;
    assert s[0] == a[0] && s[1..] == a[1..] + [sep] + b;
    ExtendFirst([a[0]], Split(a[1..], sep), Split(b, sep));
  }

  /** Extending the first piece commutes with appending more pieces. */
  lemma ExtendFirst(x: string, f: seq<string>, g: seq<string>)
    requires |f| >= 1
    ensures [x + (f + g)[0]] + (f + g)[1..] == ([x + f[0]] + f[1..]) + g
  {
    assert (f + g)[1..] == f[1..] + g;
  }

  /** Splitting a join of separator-free pieces followed by more text gives
      the pieces, then the pieces of the rest. */
  lemma SplitJoinThen(xs: seq<string>, sep: char, tail: string)
    requires |xs| >= 1
    requires forall i :: 0 <= i < |xs| ==> sep !in xs[i]
    ensures Split(Join(xs, sep) + [sep] + tail, sep) == xs + Split(tail, sep)
  {
    SplitAround(Join(xs, sep), sep, tail);
    SplitJoin(xs, sep);
  }

  /** Splitting a line, a blank line, joined separator-free pieces, a blank
      line and the rest gives the line, an empty piece, the pieces, another
      empty piece and then the pieces of the rest. */
  lemma SplitSections(a: string, xs: seq<string>, rest: string, sep: char)
    requires sep !in a
    requires |xs| >= 1
    requires forall i :: 0 <= i < |xs| ==> sep !in xs[i]
    ensures Split(a + [sep, sep] + Join(xs, sep) + [sep, sep] + rest, sep)
            == [a, []] + xs + [[]] + Split(rest, sep)
  {
    var j := Join(xs, sep);
    var x3 := [sep] + rest;
    var x2 := j + [sep] + x3;
    var x1 := [sep] + x2;
    SectionsAssociate(a, j, rest, sep);
    SplitAround(a, sep, x1);
    SplitWithoutSep(a, sep);
    SplitLeadingSep(x2, sep);
    SplitJoinThen(xs, sep, x3);
    SplitLeadingSep(rest, sep);
    var r := Split(rest, sep);
    assert Split(x1, sep) == [[]] + (xs + ([[]] + r));
    PiecesAssociate(a, xs, r);
  }

  lemma PiecesAssociate(a: string, xs: seq<string>, r: seq<string>)
    ensures [a] + ([[]] + (xs + ([[]] + r))) == [a, []] + xs + [[]] + r
  {
  }

  lemma SectionsAssociate(a: string, j: string, rest: string, sep: char)
    ensures a + [sep, sep] + j + [sep, sep] + rest == a + [sep] + ([sep] + (j + [sep] + ([sep] + rest)))
  {
  }

  /** A leading separator splits off an empty piece. */
  lemma SplitLeadingSep(b: string, sep: char)
    ensures Split([sep] + b, sep) == [[]] + Split(b, sep)
  {
    assert ([sep] + b)[1..] == b;
  }

  /** The pieces of a line, a blank line, joined pieces, a blank line,
      a further line `s` and a text `t` that starts a new line. */
  lemma SplitLayout(a: string, xs: seq<string>, s: string, t: string, sep: char)
    requires sep !in a
    requires |xs| >= 1
    requires forall i :: 0 <= i < |xs| ==> sep !in xs[i]
    requires |t| >= 1 && t[0] == sep
    ensures var pieces := Split(a + [sep, sep] + Join(xs, sep) + [sep, sep] + (s + t), sep);
      var n := |xs|;
      && |pieces| >= n + 4
      && pieces[0] == a && pieces[1] == []
      && pieces[2..n + 2] == xs
      && pieces[n + 2] == []
      && (sep !in s ==> pieces[n + 3] == s)
  {
    var rest := s + t;
    SplitSections(a, xs, rest, sep);
    var tail := Split(rest, sep);
    var pieces := [a, []] + xs + [[]] + tail;
    var n := |xs|;
    assert pieces[2..n + 2] == xs;
    assert pieces[n + 3] == tail[0];
    if sep !in s {
      assert rest == s + [sep] + t[1..];
      SplitAround(s, sep, t[1..]);
      SplitWithoutSep(s, sep);
    }
  }

  lemma {:induction false} DropEmptyAppend(xs: seq<string>, ys: seq<string>)
    ensures DropEmpty(xs + ys) == DropEmpty(xs) + DropEmpty(ys)
  {
    if |xs| > 0 {
      DropEmptyAppend(xs[1..], ys);
      assert (xs + ys)[1..] == xs[1..] + ys;
    } else {
      assert xs + ys == ys;
    }
  }

  /* ------------------------------------------------------- trim, toLowerCase */

  /** The characters JavaScript's `String.prototype.trim` removes: the
      WhiteSpace and LineTerminator productions of ECMAScript (tab, vertical
      tab, form feed, space, no-break space, byte order mark, the Unicode Zs
      category, line feed, carriage return, line and paragraph separators). */
  predicate IsSpace(c: char) {
    || c == '\t' || c == '\n' || c == '\U{000B}' || c == '\U{000C}' || c == '\r'
    || c == ' ' || c == '\U{00A0}' || c == '\U{1680}'
    || ('\U{2000}' <= c <= '\U{200A}')
    || c == '\U{2028}' || c == '\U{2029}' || c == '\U{202F}' || c == '\U{205F}'
    || c == '\U{3000}' || c == '\U{FEFF}'
  }

  predicate AllSpace(s: string) {
    forall i :: 0 <= i < |s| ==> IsSpace(s[i])
  }

  /** `s` with its leading white space removed. */
  function TrimStart(s: string): (r: string)
    ensures |r| <= |s| && r == s[|s| - |r|..]
    ensures AllSpace(s[..|s| - |r|])
    ensures r == [] || !IsSpace(r[0])
    decreases |s|
  {
    if |s| > 0 && IsSpace(s[0]) then TrimStart(s[1..]) else s
  }

  /** `s` with its trailing white space removed. */
  function TrimEnd(s: string): (r: string)
    ensures |r| <= |s| && r == s[..|r|]
    ensures AllSpace(s[|r|..])
    ensures r == [] || !IsSpace(r[|r| - 1])
    decreases |s|
  {
    if |s| > 0 && IsSpace(s[|s| - 1]) then TrimEnd(s[..|s| - 1]) else s
  }

  /** JavaScript's `s.trim()`: the middle part of `s` that neither starts
      nor ends with white space (`TrimWindow` shows it is framed by white
      space, `TrimFramed` that it is the only such part). */
  function Trim(s: string): (r: string)
    ensures |r| <= |s|
    ensures r == [] || (!IsSpace(r[0]) && !IsSpace(r[|r| - 1]))
  {
    TrimEnd(TrimStart(s))
  }

  /** A string is its part before `lo`, its part from `lo` to `hi` and its
      part from `hi` on. */
  lemma Thirds(s: string, lo: int, hi: int)
    requires 0 <= lo <= hi <= |s|
    ensures s == s[..lo] + s[lo..hi] + s[hi..]
  {
    assert s[..lo] + s[lo..hi] == s[..hi];
  }

  /** Where the trimmed text sits in the original: white space before `lo`,
      white space after the trimmed text. */
  lemma TrimWindow(s: string) returns (lo: int)
    ensures 0 <= lo <= |s| - |Trim(s)|
    ensures s == s[..lo] + Trim(s) + s[lo + |Trim(s)|..]
    ensures AllSpace(s[..lo]) && AllSpace(s[lo + |Trim(s)|..])
  {
    var a := TrimStart(s);
    var w := TrimEnd(a);
    assert w == Trim(s);
    lo := |s| - |a|;
    TrimParts(s, a, w);
    Thirds(s, lo, lo + |w|);
  }

  lemma TrimParts(s: string, a: string, r: string)
    requires |a| <= |s| && a == s[|s| - |a|..] && AllSpace(s[..|s| - |a|])
    requires |r| <= |a| && r == a[..|r|] && AllSpace(a[|r|..])
    ensures var lo := |s| - |a|;
      r == s[lo..lo + |r|] && AllSpace(s[..lo]) && AllSpace(s[lo + |r|..])
  {
    var lo := |s| - |a|;
    assert s[lo + |r|..] == a[|r|..];
  }

  lemma {:induction false} TrimStartFramed(pre: string, rest: string)
    requires AllSpace(pre)
    requires rest == [] || !IsSpace(rest[0])
    ensures TrimStart(pre + rest) == rest
    decreases |pre|
  {
    if |pre| > 0 {
      assert (pre + rest)[1..] == pre[1..] + rest;
      TrimStartFramed(pre[1..], rest);
    } else {
      assert pre + rest == rest;
    }
  }

  lemma {:induction false} TrimEndFramed(w: string, post: string)
    requires AllSpace(post)
    requires w == [] || !IsSpace(w[|w| - 1])
    ensures TrimEnd(w + post) == w
    decreases |post|
  {
    if |post| > 0 {
      assert (w + post)[..|w + post| - 1] == w + post[..|post| - 1];
      TrimEndFramed(w, post[..|post| - 1]);
    } else {
      assert w + post == w;
    }
  }

  /** Trimming removes exactly the surrounding white space: a word that
      neither starts nor ends with white space, framed by white space, trims
      back to the word. */
  lemma TrimFramed(pre: string, w: string, post: string)
    requires AllSpace(pre) && AllSpace(post)
    requires w == [] || (!IsSpace(w[0]) && !IsSpace(w[|w| - 1]))
    ensures Trim(pre + w + post) == w
  {
    if w == [] {
      assert pre + w + post == pre + post;
      assert AllSpace(pre + post);
      TrimStartFramed(pre + post, []);
      assert pre + post + [] == pre + post;
    } else {
      assert pre + w + post == pre + (w + post);
      TrimStartFramed(pre, w + post);
      TrimEndFramed(w, post);
    }
  }

  /** JavaScript's `toLowerCase` restricted to ASCII letters. */
  function LowerAscii(c: char): (d: char)
    ensures 'A' <= c <= 'Z' ==> 'a' <= d <= 'z' && d as int - c as int == 32
    ensures !('A' <= c <= 'Z') ==> d == c
  {
    if 'A' <= c <= 'Z' then (c as int + 32) as char else c
  }

  function Lower(s: string): (r: string)
    ensures |r| == |s|
    ensures forall i :: 0 <= i < |s| ==> r[i] == LowerAscii(s[i])
  {
    seq(|s|, i requires 0 <= i < |s| => LowerAscii(s[i]))
  }
}
