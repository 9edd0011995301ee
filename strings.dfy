/** The JavaScript string operations the controller and the server rely on:
    `includes`, `replace` with a string pattern, `split` with a one-character
    separator, `Array.prototype.join` and `trim`. */
module Strings {
  import opened Results

  /** The characters `String.prototype.trim` removes: ECMAScript's WhiteSpace
      and LineTerminator code points. */
  predicate IsWhitespace(c: char) {
    c == '\t' || c == '\n' || c == '\U{000B}' || c == '\U{000C}' || c == '\r' || c == ' '
    || c == '\U{00A0}' || c == '\U{1680}' || ('\U{2000}' <= c <= '\U{200A}')
    || c == '\U{2028}' || c == '\U{2029}' || c == '\U{202F}' || c == '\U{205F}'
    || c == '\U{3000}' || c == '\U{FEFF}'
  }

  predicate AllWhitespace(s: string) {
    forall k :: 0 <= k < |s| ==> IsWhitespace(s[k])
  }

  /** `p` occurs in `s` starting at index `i`. */
  predicate OccursAt(s: string, p: string, i: nat) {
    i + |p| <= |s| && s[i..i + |p|] == p
  }

  /** The first index at or after `from` where `p` occurs. */
  function IndexFrom(s: string, p: string, from: nat): (r: Option<nat>)
    requires from <= |s|
    ensures r.Some? ==> from <= r.value && OccursAt(s, p, r.value)
    ensures r.Some? ==> forall j :: from <= j < r.value ==> !OccursAt(s, p, j)
    ensures r.None? ==> forall j: nat :: from <= j ==> !OccursAt(s, p, j)
    decreases |s| - from
  {
    if from + |p| > |s| then None
    else if s[from..from + |p|] == p then Some(from)
    else IndexFrom(s, p, from + 1)
  }

  /** `s.indexOf(p)`, with -1 written as None. */
  function IndexOf(s: string, p: string): (r: Option<nat>)
    ensures r.Some? ==> OccursAt(s, p, r.value)
    ensures r.Some? ==> forall j :: 0 <= j < r.value ==> !OccursAt(s, p, j)
    ensures r.None? ==> forall j: nat :: !OccursAt(s, p, j)
  {
    IndexFrom(s, p, 0)
  }

  /** `s.includes(p)`. */
  function Contains(s: string, p: string): (r: bool)
    ensures r <==> exists j: nat :: OccursAt(s, p, j)
  {
    IndexOf(s, p).Some?
  }

  /** `s.replace(p, rep)` for a string pattern: only the first occurrence of
      `p` is replaced (`rep` is taken literally; the callers pass no `$`). */
  function ReplaceFirst(s: string, p: string, rep: string): string
  {
    match IndexOf(s, p)
    case None => s
    case Some(i) => s[..i] + rep + s[i + |p|..]
  }

  /** `parts.join(sep)`. */
  function Join(parts: seq<string>, sep: string): string
  {
    if parts == [] then ""
    else if |parts| == 1 then parts[0]
    else parts[0] + sep + Join(parts[1..], sep)
  }

  /** `s.split(sep)` for a one-character separator: the pieces between the
      separators, so there is always at least one piece, none holds the
      separator, and joining them back gives `s`. */
  function Split(s: string, sep: char): (parts: seq<string>)
    ensures |parts| >= 1
    ensures forall i :: 0 <= i < |parts| ==> sep !in parts[i]
    ensures Join(parts, [sep]) == s
  {
    if s == [] then [[]]
    else
      var rest := Split(s[1..], sep);
      if s[0] == sep then
        assert ([[]] + rest)[1..] == rest;
        [[]] + rest
      else
        var parts := [[s[0]] + rest[0]] + rest[1..];
        assert parts[1..] == rest[1..];
        parts
  }

  /** `s` without its leading whitespace. */
  function TrimStart(s: string): string {
    if s != [] && IsWhitespace(s[0]) then TrimStart(s[1..]) else s
  }

  /** `s` without its trailing whitespace. */
  function TrimEnd(s: string): string {
    if s != [] && IsWhitespace(s[|s| - 1]) then TrimEnd(s[..|s| - 1]) else s
  }

  /** `s.trim()`: `s` with its leading and trailing whitespace removed. */
  function Trim(s: string): string {
    TrimEnd(TrimStart(s))
  }

  /** `TrimStart` removes a whitespace prefix and nothing else. */
  lemma {:induction false} TrimStartSpec(s: string)
    ensures var r := TrimStart(s);
            |r| <= |s| && r == s[|s| - |r|..] && AllWhitespace(s[..|s| - |r|])
            && (r != [] ==> !IsWhitespace(r[0]))
  {
    if s != [] && IsWhitespace(s[0]) {
      TrimStartSpec(s[1..]);
      var r := TrimStart(s[1..]);
      assert s[1..][..|s[1..]| - |r|] == s[1..|s| - |r|];
      assert s[..|s| - |r|] == [s[0]] + s[1..|s| - |r|];
    }
  }

  /** `TrimEnd` removes a whitespace suffix and nothing else. */
  lemma {:induction false} TrimEndSpec(s: string)
    ensures var r := TrimEnd(s);
            |r| <= |s| && r == s[..|r|] && AllWhitespace(s[|r|..])
            && (r != [] ==> !IsWhitespace(r[|r| - 1]))
  {
    if s != [] && IsWhitespace(s[|s| - 1]) {
      var t := s[..|s| - 1];
      TrimEndSpec(t);
      var r := TrimEnd(t);
      assert t[|r|..] + [s[|s| - 1]] == s[|r|..];
    }
  }

  /** What `trim` gives back: a slice of the input, padded on both sides by
      whitespace only, that neither starts nor ends with whitespace. */
  lemma TrimSpec(s: string)
    ensures var r := Trim(s);
            && |r| <= |s|
            && (r != [] ==> !IsWhitespace(r[0]) && !IsWhitespace(r[|r| - 1]))
            && exists i :: 0 <= i <= |s| - |r| && s[i..i + |r|] == r
                 && AllWhitespace(s[..i]) && AllWhitespace(s[i + |r|..])
  {
    var t := TrimStart(s);
    TrimStartSpec(s);
    var r := TrimEnd(t);
    TrimEndSpec(t);
    var i := |s| - |t|;
    assert t == s[i..];
    assert r == t[..|r|];
    if r != [] {
      assert r[0] == t[0];
    }
    assert s[i..i + |r|] == r;
    assert s[i + |r|..] == t[|r|..];
  }

  /** A string contains the pattern wherever text is appended to it. */
  lemma ContainsExtended(a: string, b: string, p: string)
    requires Contains(a, p)
    ensures Contains(a + b, p)
  {
    var j: nat :| OccursAt(a, p, j);
    assert (a + b)[j..j + |p|] == a[j..j + |p|];
    assert OccursAt(a + b, p, j);
  }

  /** What `replace` does in general: with no occurrence the string is
      unchanged; otherwise the first occurrence, and only it, is replaced. */
  lemma ReplaceFirstSpec(s: string, p: string, rep: string)
    ensures !Contains(s, p) ==> ReplaceFirst(s, p, rep) == s
    ensures Contains(s, p) ==>
              exists i: nat :: OccursAt(s, p, i) && (forall j: nat :: j < i ==> !OccursAt(s, p, j))
                && ReplaceFirst(s, p, rep) == s[..i] + rep + s[i + |p|..]
  {
    if Contains(s, p) {
      var i := IndexOf(s, p).value;
      assert OccursAt(s, p, i) && (forall j: nat :: j < i ==> !OccursAt(s, p, j));
    }
  }

  /** Joining two non-empty lists of pieces is joining each and putting the
      separator between them. */
  lemma {:induction false} JoinConcat(a: seq<string>, b: seq<string>, sep: string)
    requires a != [] && b != []
    ensures Join(a + b, sep) == Join(a, sep) + sep + Join(b, sep)
  {
    if |a| == 1 {
      assert (a + b)[1..] == b;
    } else {
      assert (a + b)[1..] == a[1..] + b;
      JoinConcat(a[1..], b, sep);
    }
  }

  /** A string without the separator splits into itself alone. */
  lemma {:induction false} SplitWithoutSeparator(s: string, sep: char)
    requires sep !in s
    ensures Split(s, sep) == [s]
  {
    if s != [] {
      SplitWithoutSeparator(s[1..], sep);
      assert [s[0]] + s[1..] == s;
    }
  }

  /** Splitting `a`, a separator, then `b` gives the pieces of `a` followed
      by the pieces of `b`: splitting preserves order and loses nothing. */
  lemma {:induction false} SplitConcat(a: string, b: string, sep: char)
    ensures Split(a + [sep] + b, sep) == Split(a, sep) + Split(b, sep)
  {
    var s := a + [sep] + b;
    if a == [] {
      assert s[1..] == b;
    } else {
      assert s[0] == a[0];
      assert s[1..] == a[1..] + [sep] + b;
      SplitConcat(a[1..], b, sep);
      var ra := Split(a[1..], sep);
      var rb := Split(b, sep);
      var r := Split(s[1..], sep);
      assert r == ra + rb;
      if a[0] == sep {
        assert Split(s, sep) == [[]] + r;
        assert Split(a, sep) == [[]] + ra;
      } else {
        assert r[0] == ra[0];
        assert r[1..] == ra[1..] + rb;
        assert Split(s, sep) == [[a[0]] + r[0]] + r[1..];
        assert Split(a, sep) == [[a[0]] + ra[0]] + ra[1..];
      }
    }
  }

  /** The first two pieces of a split are the text before the first separator
      and the text between the first and the second one. */
  lemma SplitFields(x: string, y: string, rest: string, sep: char)
    requires sep !in x && sep !in y
    ensures Split(x + [sep] + y, sep) == [x, y]
    ensures Split(x + [sep] + y + [sep] + rest, sep) == [x, y] + Split(rest, sep)
  {
    SplitWithoutSeparator(x, sep);
    SplitWithoutSeparator(y, sep);
    SplitConcat(x, y, sep);
    SplitConcat(x + [sep] + y, rest, sep);
  }

  /** Trimming whitespace padding off a string that does not itself start or
      end with whitespace gives that string back. */
  lemma {:induction false} TrimPadded(pre: string, t: string, post: string)
    requires AllWhitespace(pre) && AllWhitespace(post)
    requires t != [] ==> !IsWhitespace(t[0]) && !IsWhitespace(t[|t| - 1])
    ensures Trim(pre + t + post) == t
  {
    if t == [] {
      assert pre + t + post == pre + post;
      TrimStartBlank(pre + post);
    } else {
      TrimStartPadded(pre, t + post);
      assert pre + t + post == pre + (t + post);
      TrimEndPadded(t, post);
    }
  }

  lemma {:induction false} TrimStartBlank(s: string)
    requires AllWhitespace(s)
    ensures TrimStart(s) == []
  {
    if s != [] {
      TrimStartBlank(s[1..]);
    }
  }

  lemma {:induction false} TrimStartPadded(pre: string, u: string)
    requires AllWhitespace(pre)
    requires u != [] ==> !IsWhitespace(u[0])
    ensures TrimStart(pre + u) == u
  {
    if pre != [] {
      assert (pre + u)[1..] == pre[1..] + u;
      TrimStartPadded(pre[1..], u);
    }
  }

  lemma {:induction false} TrimEndPadded(u: string, post: string)
    requires AllWhitespace(post)
    requires u != [] ==> !IsWhitespace(u[|u| - 1])
    ensures TrimEnd(u + post) == u
  {
    if post != [] {
      var n := |post| - 1;
      assert (u + post)[..|u + post| - 1] == u + post[..n];
      TrimEndPadded(u, post[..n]);
    }
  }

  /** A string contains every piece it is built from. */
  lemma ContainsInfix(a: string, p: string, b: string)
    ensures Contains(a + p + b, p)
  {
    assert (a + p + b)[|a|..|a| + |p|] == p;
    assert OccursAt(a + p + b, p, |a|);
  }

  /** `replace` on a string that starts with the pattern removes exactly that
      leading occurrence; later occurrences are left in place. */
  lemma ReplaceFirstAtStart(p: string, x: string, rep: string)
    ensures ReplaceFirst(p + x, p, rep) == rep + x
  {
    var s := p + x;
    assert OccursAt(s, p, 0);
    assert IndexOf(s, p) == Some(0);
    assert s[|p|..] == x;
  }

  /** `replace` leaves a string without the pattern unchanged. */
  lemma ReplaceFirstAbsent(s: string, p: string, rep: string)
    requires !Contains(s, p)
    ensures ReplaceFirst(s, p, rep) == s
  {
  }
}
