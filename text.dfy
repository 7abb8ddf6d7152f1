/**
 * The pieces of Python's `str` behaviour that the restructuring relies on:
 * `split` with an explicit separator, `strip()` without arguments,
 * `casefold()`, the `"{:^w}"` centering format and `sep.join`.
 */
module Text {

  /** The characters for which Python's `str.isspace()` holds; `str.strip()` removes exactly these. */
  predicate IsSpace(c: char) {
    || ('\t' <= c <= '\r')
    || ('\U{1C}' <= c <= '\U{1F}')
    || c == ' '
    || c == '\U{85}' || c == '\U{A0}' || c == '\U{1680}'
    || ('\U{2000}' <= c <= '\U{200A}')
    || c == '\U{2028}' || c == '\U{2029}' || c == '\U{202F}' || c == '\U{205F}' || c == '\U{3000}'
  }

  predicate AllSpace(s: string) {
    forall i :: 0 <= i < |s| ==> IsSpace(s[i])
  }

  /** Neither end of `s` is whitespace: `s` is its own `strip()`. */
  predicate IsStripped(s: string) {
    s == [] || (!IsSpace(s[0]) && !IsSpace(s[|s| - 1]))
  }

  /** Python's `s.lstrip()`. */
  function StripLeft(s: string): string
    decreases |s|
  {
    if |s| > 0 && IsSpace(s[0]) then StripLeft(s[1..]) else s
  }

  /** Python's `s.rstrip()`. */
  function StripRight(s: string): string
    decreases |s|
  {
    if |s| > 0 && IsSpace(s[|s| - 1]) then StripRight(s[..|s| - 1]) else s
  }

  /** Python's `s.strip()`. */
  function Strip(s: string): string
  {
    StripRight(StripLeft(s))
  }

  /** Every piece of a split line, stripped, in order. */
  function StripAll(pieces: seq<string>): seq<string>
  {
    seq(|pieces|, k requires 0 <= k < |pieces| => Strip(pieces[k]))
  }

  /** `lstrip` removes a whitespace prefix and leaves a suffix that does not start with whitespace. */
  lemma {:induction false} StripLeftSpec(s: string)
    ensures var r := StripLeft(s);
      && |r| <= |s| && r == s[|s| - |r|..]
      && AllSpace(s[..|s| - |r|])
      && (r == [] || !IsSpace(r[0]))
    decreases |s|
  {
    if |s| > 0 && IsSpace(s[0]) {
      StripLeftSpec(s[1..]);
      var r := StripLeft(s[1..]);
      assert s[..|s| - |r|] == [s[0]] + s[1..][..|s| - 1 - |r|];
    }
  }

  /** `rstrip` removes a whitespace suffix and leaves a prefix that does not end with whitespace. */
  lemma {:induction false} StripRightSpec(s: string)
    ensures var r := StripRight(s);
      && |r| <= |s| && r == s[..|r|]
      && AllSpace(s[|r|..])
      && (r == [] || !IsSpace(r[|r| - 1]))
    decreases |s|
  {
    if |s| > 0 && IsSpace(s[|s| - 1]) {
      StripRightSpec(s[..|s| - 1]);
      var r := StripRight(s[..|s| - 1]);
      assert s[|r|..] == s[..|s| - 1][|r|..] + [s[|s| - 1]];
    }
  }

  /**
   * What `strip` keeps: a slice of `s` with whitespace before and after it,
   * and no whitespace at either of its own ends.
   */
  lemma StripSpec(s: string) returns (lead: nat)
    ensures IsStripped(Strip(s))
    ensures lead + |Strip(s)| <= |s|
    ensures Strip(s) == s[lead..lead + |Strip(s)|]
    ensures AllSpace(s[..lead]) && AllSpace(s[lead + |Strip(s)|..])
  {
    var l := StripLeft(s);
    var r := StripRight(l);
    StripLeftSpec(s);
    StripRightSpec(l);
    lead := |s| - |l|;
    assert r != [] ==> r[0] == l[0];
    assert l == s[lead..];
    assert r == s[lead..][..|r|] == s[lead..lead + |r|];
    assert s[lead + |r|..] == l[|r|..];
  }

  lemma {:induction false} StripLeftOfSpaces(p: string, x: string)
    requires AllSpace(p)
    requires x == [] || !IsSpace(x[0])
    ensures StripLeft(p + x) == x
    decreases |p|
  {
    if p != [] {
      assert (p + x)[1..] == p[1..] + x;
      StripLeftOfSpaces(p[1..], x);
    }
  }

  lemma {:induction false} StripRightOfSpaces(x: string, q: string)
    requires AllSpace(q)
    requires x == [] || !IsSpace(x[|x| - 1])
    ensures StripRight(x + q) == x
    decreases |q|
  {
    if q != [] {
      var q' := q[..|q| - 1];
      assert (x + q)[..|x + q| - 1] == x + q';
      StripRightOfSpaces(x, q');
    }
  }

  /** Stripping undoes any whitespace padding of a stripped string: with `Strip`'s own contract this pins `Strip` down. */
  lemma StripOfPadded(p: string, v: string, q: string)
    requires AllSpace(p) && AllSpace(q) && IsStripped(v)
    ensures Strip(p + v + q) == v
  {
    if v == [] {
      assert p + v + q == (p + q) + v;
      StripLeftOfSpaces(p + q, v);
    } else {
      assert p + v + q == p + (v + q);
      StripLeftOfSpaces(p, v + q);
      StripRightOfSpaces(v, q);
    }
  }

  /** `d` occurs in `s` starting at index `i`. */
  predicate OccursAt(s: string, d: string, i: int) {
    0 <= i && i + |d| <= |s| && s[i..i + |d|] == d
  }

  predicate Contains(s: string, d: string) {
    exists i :: 0 <= i <= |s| - |d| && OccursAt(s, d, i)
  }

  /** Python's `d.join(parts)`. */
  function Join(parts: seq<string>, d: string): string
  {
    if |parts| == 0 then ""
    else if |parts| == 1 then parts[0]
    else parts[0] + d + Join(parts[1..], d)
  }

  /**
   * Python's `s.split(d)` for a non-empty separator: scanning left to right,
   * each occurrence of `d` that does not overlap an earlier one ends a piece.
   */
  function Split(s: string, d: string): (r: seq<string>)
    requires |d| > 0
    ensures |r| >= 1
    decreases |s|
  {
    if |s| < |d| then [s]
    else if s[..|d|] == d then [""] + Split(s[|d|..], d)
    else
      var rest := Split(s[1..], d);
      [[s[0]] + rest[0]] + rest[1..]
  }

  /**
   * The pieces of a left-to-right split: no piece but the last is followed by
   * an occurrence of `d` that starts inside it, and the last contains none.
   */
  predicate Leftmost(pieces: seq<string>, d: string)
    requires |d| > 0
  {
    && (forall k :: 0 <= k < |pieces| - 1 ==> !Contains(pieces[k] + d[..|d| - 1], d))
    && (|pieces| > 0 ==> !Contains(pieces[|pieces| - 1], d))
  }

  lemma ContainsUncons(c: char, t: string, d: string)
    requires |d| > 0
    requires Contains([c] + t, d)
    ensures OccursAt([c] + t, d, 0) || Contains(t, d)
  {
    var i :| OccursAt([c] + t, d, i);
    assert OccursAt([c] + t, d, i);
    if i > 0 {
      assert ([c] + t)[i..i + |d|] == t[i - 1..i - 1 + |d|];
      assert OccursAt(t, d, i - 1);
    }
  }

  lemma ContainsCons(c: char, t: string, d: string)
    requires Contains(t, d)
    ensures Contains([c] + t, d)
  {
    var i :| OccursAt(t, d, i);
    assert OccursAt(t, d, i);
    assert ([c] + t)[i + 1..i + 1 + |d|] == t[i..i + |d|];
    assert OccursAt([c] + t, d, i + 1);
  }

  /** A slice of a string free of `d` is free of `d`. */
  lemma SliceFree(s: string, d: string, i: int, j: int)
    requires 0 <= i <= j <= |s|
    requires !Contains(s, d)
    ensures !Contains(s[i..j], d)
  {
    if Contains(s[i..j], d) {
      var k :| OccursAt(s[i..j], d, k);
      assert OccursAt(s[i..j], d, k);
      assert k + |d| <= j - i;
      forall m | 0 <= m < |d|
        ensures s[i + k..i + k + |d|][m] == d[m]
      {
        assert s[i..j][k..k + |d|][m] == d[m];
      }
      assert s[i + k..i + k + |d|] == d;
      assert OccursAt(s, d, i + k);
    }
  }

  lemma StripFree(s: string, d: string)
    requires !Contains(s, d)
    ensures !Contains(Strip(s), d)
  {
    var lead := StripSpec(s);
    SliceFree(s, d, lead, lead + |Strip(s)|);
  }

  lemma JoinConsHead(c: char, parts: seq<string>, d: string)
    requires |parts| >= 1
    ensures Join([[c] + parts[0]] + parts[1..], d) == [c] + Join(parts, d)
  {
    var q := [[c] + parts[0]] + parts[1..];
    if |parts| > 1 {
      assert q[1..] == parts[1..];
    }
  }

  /** Joining the pieces of a split gives back the string. */
  lemma {:induction false} SplitJoin(s: string, d: string)
    requires |d| > 0
    ensures Join(Split(s, d), d) == s
    decreases |s|
  {
    if |s| < |d| {
    } else if s[..|d|] == d {
      var t := s[|d|..];
      SplitJoin(t, d);
      var r := Split(s, d);
      assert r[1..] == Split(t, d);
      assert s == d + t;
    } else {
      SplitJoin(s[1..], d);
      JoinConsHead(s[0], Split(s[1..], d), d);
      assert [s[0]] + s[1..] == s;
    }
  }

  /** The first piece of a split that is not the whole string: no occurrence of `d` starts inside it. */
  lemma FirstPieceLeftmost(s: string, d: string, rest: seq<string>)
    requires |d| <= |s| && s[..|d|] != d
    requires |rest| >= 2 && Join(rest, d) == s[1..]
    requires !Contains(rest[0] + d[..|d| - 1], d)
    ensures !Contains([s[0]] + rest[0] + d[..|d| - 1], d)
  {
    var x := rest[0] + d[..|d| - 1];
    JoinPrefix(rest, d);
    var y := [s[0]] + x;
    ConsPrefix(s, x);
    assert y[..|d|] == s[..|d|];
    assert !OccursAt(y, d, 0);
    if Contains(y, d) {
      ContainsUncons(s[0], x, d);
    }
    assert [s[0]] + rest[0] + d[..|d| - 1] == [s[0]] + (rest[0] + d[..|d| - 1]);
  }

  /** Two or more parts joined start with the first part and all but the last character of the separator. */
  lemma JoinPrefix(parts: seq<string>, d: string)
    requires |d| > 0 && |parts| >= 2
    ensures var x := parts[0] + d[..|d| - 1];
      |x| <= |Join(parts, d)| && Join(parts, d)[..|x|] == x
  {
    var j := Join(parts, d);
    assert j == parts[0] + d + Join(parts[1..], d);
    var x := parts[0] + d[..|d| - 1];
    assert forall i :: 0 <= i < |x| ==> j[i] == x[i];
  }

  /** A prefix of the tail of `s`, behind the head of `s`, is a prefix of `s`. */
  lemma ConsPrefix(s: string, x: string)
    requires |s| >= 1 && |x| <= |s| - 1 && s[1..][..|x|] == x
    ensures [s[0]] + x == s[..|x| + 1]
  {
    assert forall i :: 1 <= i < |x| + 1 ==> s[i] == s[1..][i - 1];
  }

  /** The pieces of a split are leftmost. */
  lemma {:induction false} SplitLeftmost(s: string, d: string)
    requires |d| > 0
    ensures Leftmost(Split(s, d), d)
    decreases |s|
  {
    if |s| < |d| {
      assert !Contains(s, d);
    } else if s[..|d|] == d {
      SplitLeftmost(s[|d|..], d);
      LeftmostAfterMatch(s, d);
    } else {
      SplitLeftmost(s[1..], d);
      SplitJoin(s[1..], d);
      LeftmostAfterChar(s, d, Split(s[1..], d));
    }
  }

  /** A split that starts with the separator adds an empty leading piece to the split of the rest. */
  lemma LeftmostAfterMatch(s: string, d: string)
    requires |d| > 0 && |s| >= |d| && s[..|d|] == d
    requires Leftmost(Split(s[|d|..], d), d)
    ensures Leftmost(Split(s, d), d)
  {
    assert Split(s, d) == [""] + Split(s[|d|..], d);
    LeftmostEmptyHead(Split(s[|d|..], d), d);
  }

  /** An empty piece in front of leftmost pieces keeps them leftmost. */
  lemma LeftmostEmptyHead(rest: seq<string>, d: string)
    requires |d| > 0 && |rest| >= 1 && Leftmost(rest, d)
    ensures Leftmost([""] + rest, d)
  {
    var r := [""] + rest;
    assert "" + d[..|d| - 1] == d[..|d| - 1];
    assert !OccursAt(d[..|d| - 1], d, 0);
    assert r[|r| - 1] == rest[|rest| - 1];
    forall k | 0 <= k < |r| - 1
      ensures !Contains(r[k] + d[..|d| - 1], d)
    {
      if k > 0 {
        assert r[k] == rest[k - 1];
      }
    }
  }

  /** A split that does not start with the separator puts the first character in front of the first piece. */
  lemma LeftmostAfterChar(s: string, d: string, rest: seq<string>)
    requires |d| > 0 && |s| >= |d| && s[..|d|] != d
    requires |rest| >= 1 && Join(rest, d) == s[1..] && Leftmost(rest, d)
    ensures Leftmost([[s[0]] + rest[0]] + rest[1..], d)
  {
    if |rest| == 1 {
      assert [s[0]] + rest[0] == s;
      if Contains(s, d) {
        ContainsUncons(s[0], rest[0], d);
      }
      assert [[s[0]] + rest[0]] + rest[1..] == [s];
    } else {
      FirstPieceLeftmost(s, d, rest);
      LeftmostNewHead([s[0]] + rest[0], rest, d);
    }
  }

  /** Replacing the first of several leftmost pieces by another leftmost piece keeps them leftmost. */
  lemma LeftmostNewHead(p: string, rest: seq<string>, d: string)
    requires |d| > 0 && |rest| >= 2 && Leftmost(rest, d)
    requires !Contains(p + d[..|d| - 1], d)
    ensures Leftmost([p] + rest[1..], d)
  {
    var r := [p] + rest[1..];
    assert r[|r| - 1] == rest[|rest| - 1];
    forall k | 0 <= k < |r| - 1
      ensures !Contains(r[k] + d[..|d| - 1], d)
    {
      if k > 0 {
        assert r[k] == rest[k];
      }
    }
  }

  /** A string free of the separator splits into itself. */
  lemma {:induction false} SplitOfFree(s: string, d: string)
    requires |d| > 0
    requires !Contains(s, d)
    ensures Split(s, d) == [s]
    decreases |s|
  {
    if |s| >= |d| {
      assert !OccursAt(s, d, 0);
      assert [s[0]] + s[1..] == s;
      if Contains(s[1..], d) {
        ContainsCons(s[0], s[1..], d);
      }
      SplitOfFree(s[1..], d);
      assert [s[0]] + s[1..] == s;
    }
  }

  /** A leftmost piece followed by the separator is split off as one piece. */
  lemma {:induction false} SplitAfterPiece(p: string, t: string, d: string)
    requires |d| > 0
    requires !Contains(p + d[..|d| - 1], d)
    ensures Split(p + d + t, d) == [p] + Split(t, d)
    decreases |p|
  {
    var s := p + d + t;
    if p == [] {
      assert s[..|d|] == d && s[|d|..] == t;
    } else {
      var p' := p[1..];
      assert s[1..] == p' + d + t;
      NoMatchAtStart(p, t, d);
      PieceTailLeftmost(p, d);
      SplitAfterPiece(p', t, d);
      var rest := Split(s[1..], d);
      assert rest == [p'] + Split(t, d);
      assert Split(s, d) == [[s[0]] + rest[0]] + rest[1..];
      assert [p[0]] + p' == p;
    }
  }

  lemma NoMatchAtStart(p: string, t: string, d: string)
    requires |d| > 0 && p != []
    requires !Contains(p + d[..|d| - 1], d)
    ensures |p + d + t| >= |d| && (p + d + t)[..|d|] != d
  {
    var x := p + d[..|d| - 1];
    assert (p + d + t)[..|d|] == x[..|d|];
    assert !OccursAt(x, d, 0);
  }

  lemma PieceTailLeftmost(p: string, d: string)
    requires |d| > 0 && p != []
    requires !Contains(p + d[..|d| - 1], d)
    ensures !Contains(p[1..] + d[..|d| - 1], d)
  {
    var y := p[1..] + d[..|d| - 1];
    assert [p[0]] + y == p + d[..|d| - 1];
    if Contains(y, d) {
      ContainsCons(p[0], y, d);
    }
  }

  /**
   * `Split` is the only leftmost decomposition: any leftmost pieces are
   * recovered by splitting their join.
   */
  lemma {:induction false} SplitOfJoin(pieces: seq<string>, d: string)
    requires |d| > 0
    requires |pieces| >= 1
    requires Leftmost(pieces, d)
    ensures Split(Join(pieces, d), d) == pieces
    decreases |pieces|
  {
    if |pieces| == 1 {
      SplitOfFree(pieces[0], d);
    } else {
      var rest := pieces[1..];
      assert Leftmost(rest, d) by {
        forall k | 0 <= k < |rest| - 1
          ensures !Contains(rest[k] + d[..|d| - 1], d)
        {
          assert rest[k] == pieces[k + 1];
        }
        assert rest[|rest| - 1] == pieces[|pieces| - 1];
      }
      SplitOfJoin(rest, d);
      SplitAfterPiece(pieces[0], Join(rest, d), d);
      assert [pieces[0]] + rest == pieces;
    }
  }

  lemma JoinSnoc(parts: seq<string>, c: string, d: string)
    requires |parts| >= 1
    ensures Join(parts + [c], d) == Join(parts, d) + d + c
    decreases |parts|
  {
    if |parts| > 1 {
      assert (parts + [c])[1..] == parts[1..] + [c];
      JoinSnoc(parts[1..], c, d);
    }
  }

  /** For a one-character separator, being free of it means not holding its character. */
  lemma FreeOfChar(s: string, d: string)
    requires |d| == 1
    ensures !Contains(s, d) <==> d[0] !in s
  {
    if d[0] in s {
      var i :| 0 <= i < |s| && s[i] == d[0];
      assert s[i..i + 1] == d;
      assert OccursAt(s, d, i);
    }
    if Contains(s, d) {
      var i :| OccursAt(s, d, i);
      assert OccursAt(s, d, i);
      assert s[i] == d[0];
    }
  }

  /** Python's `c.casefold()` on ASCII: upper-case letters become lower-case. */
  function Lower(c: char): char
  {
    if 'A' <= c <= 'Z' then (c as int + 32) as char else c
  }

  function CaseFold(s: string): (r: string)
    ensures |r| == |s|
    ensures forall i :: 0 <= i < |s| ==> r[i] == Lower(s[i])
  {
    seq(|s|, i requires 0 <= i < |s| => Lower(s[i]))
  }

  function Spaces(n: nat): (r: string)
    ensures |r| == n
    ensures forall i :: 0 <= i < n ==> r[i] == ' '
  {
    seq(n, _ => ' ')
  }

  /**
   * Python's `"{:^{w}}".format(s)`: `s` with half the missing width, rounded
   * down, as spaces on the left and the rest on the right.
   */
  function Center(s: string, w: nat): string
  {
    if |s| >= w then s
    else
      var left := (w - |s|) / 2;
      Spaces(left) + s + Spaces(w - |s| - left)
  }

  /**
   * A centered cell has at least `w` characters, `s` in the middle, the left
   * padding half the padding rounded down, the rest on the right.
   */
  lemma CenterSpec(s: string, w: nat)
    ensures var r := Center(s, w);
      && |r| == (if |s| < w then w else |s|)
      && var left := (|r| - |s|) / 2;
      && r[left..left + |s|] == s
      && (forall i :: 0 <= i < left ==> r[i] == ' ')
      && (forall i :: left + |s| <= i < |r| ==> r[i] == ' ')
  {
    if |s| < w {
      var left := (w - |s|) / 2;
      var r := Spaces(left) + s + Spaces(w - |s| - left);
      assert r[left..left + |s|] == s;
    }
  }

  /** A centered cell is whitespace padding around its text. */
  lemma CenterIsPadding(s: string, w: nat)
    ensures var r := Center(s, w);
      var left := (|r| - |s|) / 2;
      && r == r[..left] + s + r[left + |s|..]
      && AllSpace(r[..left]) && AllSpace(r[left + |s|..])
  {
    var r := Center(s, w);
    var left := (|r| - |s|) / 2;
    CenterSpec(s, w);
    assert r == r[..left] + r[left..left + |s|] + r[left + |s|..];
  }

  /** Stripping a centered cell, with or without a line break after it, gives back its stripped text. */
  lemma StripCenter(s: string, w: nat, tail: string)
    requires IsStripped(s)
    requires AllSpace(tail)
    ensures Strip(Center(s, w) + tail) == s
  {
    var r := Center(s, w);
    var left := (|r| - |s|) / 2;
    CenterIsPadding(s, w);
    var p, q := r[..left], r[left + |s|..];
    SpacesThenTail(q, tail);
    assert p + s + q + tail == p + s + (q + tail);
    StripOfPadded(p, s, q + tail);
  }

  lemma SpacesThenTail(q: string, tail: string)
    requires AllSpace(q) && AllSpace(tail)
    ensures AllSpace(q + tail)
  {
    assert forall i :: 0 <= i < |q + tail| ==> (q + tail)[i] == if i < |q| then q[i] else tail[i - |q|];
  }

}
