/**
 * The JavaScript string operations the decoder relies on: `indexOf`,
 * `split` with a string separator, `substring`, and the truthiness test
 * `parts[k]` that the decoder applies to the pieces of a split.
 */
module JsString {
  import opened Wrappers

  /** `pat` occurs in `s` starting at index `i`. */
  predicate OccursAt(s: string, pat: string, i: int) {
    0 <= i && i + |pat| <= |s| && s[i..i + |pat|] == pat
  }

  /** The first occurrence of `pat` in `s` at or after `i`, or -1. */
  function IndexFrom(s: string, pat: string, i: nat): (r: int)
    requires i <= |s|
    ensures r == -1 || (i <= r && OccursAt(s, pat, r))
    ensures r == -1 ==> forall j :: i <= j ==> !OccursAt(s, pat, j)
    ensures r >= 0 ==> forall j :: i <= j < r ==> !OccursAt(s, pat, j)
    decreases |s| - i
  {
    if i + |pat| > |s| then -1
    else if s[i..i + |pat|] == pat then i
    else IndexFrom(s, pat, i + 1)
  }

  /** `s.indexOf(pat)`: the first occurrence of `pat`, or -1 when there is none. */
  function IndexOf(s: string, pat: string): (r: int)
    ensures r == -1 || OccursAt(s, pat, r)
    ensures r == -1 <==> forall j :: !OccursAt(s, pat, j)
    ensures forall j :: 0 <= j < r ==> !OccursAt(s, pat, j)
  {
    IndexFrom(s, pat, 0)
  }

  /** `s.indexOf(pat) > -1`. */
  predicate Contains(s: string, pat: string) {
    IndexOf(s, pat) >= 0
  }

  /** The pieces joined back together with `sep` between them. */
  function Join(pieces: seq<string>, sep: string): string
    requires |pieces| >= 1
  {
    if |pieces| == 1 then pieces[0] else pieces[0] + sep + Join(pieces[1..], sep)
  }

  /**
   * `s.split(sep)` for a non-empty string separator: every occurrence,
   * scanned from the left without overlap, and empty pieces kept.
   */
  function Split(s: string, sep: string): (r: seq<string>)
    requires |sep| > 0
    ensures |r| >= 1
    ensures Contains(s, sep) ==> |r| >= 2 && r[0] == s[..IndexOf(s, sep)]
    decreases |s|
  {
    var i := IndexOf(s, sep);
    if i < 0 then [s] else [s[..i]] + Split(s[i + |sep|..], sep)
  }

  /** An occurrence inside a prefix of `s` is an occurrence in `s`. */
  lemma OccursInPrefix(s: string, n: nat, pat: string, j: int)
    requires n <= |s|
    requires OccursAt(s[..n], pat, j)
    ensures OccursAt(s, pat, j)
  {
    assert s[..n][j..j + |pat|] == s[j..j + |pat|];
  }

  /** A prefix that ends before the first occurrence of `pat` does not contain it. */
  lemma PrefixBeforeFirst(s: string, pat: string, n: nat)
    requires n <= |s|
    requires forall j :: 0 <= j && j + |pat| <= n ==> !OccursAt(s, pat, j)
    ensures !Contains(s[..n], pat)
  {
    forall j | OccursAt(s[..n], pat, j)
      ensures false
    {
      OccursInPrefix(s, n, pat, j);
    }
  }

  /** `split` loses nothing: joining the pieces gives back `s`. */
  lemma {:induction false} SplitJoin(s: string, sep: string)
    requires |sep| > 0
    ensures Join(Split(s, sep), sep) == s
    decreases |s|
  {
    var i := IndexOf(s, sep);
    if i >= 0 {
      var rest := s[i + |sep|..];
      var r := Split(s, sep);
      assert r == [s[..i]] + Split(rest, sep);
      assert r[1..] == Split(rest, sep);
      calc {
        Join(r, sep);
        s[..i] + sep + Join(Split(rest, sep), sep);
        { SplitJoin(rest, sep); }
        s[..i] + sep + rest;
        { assert s[i..i + |sep|] == sep; }
        s;
      }
    } else {
      assert Split(s, sep) == [s];
    }
  }

  /** `split` finds every separator: no piece contains it. */
  lemma {:induction false} SplitPiecesFree(s: string, sep: string)
    requires |sep| > 0
    ensures forall k :: 0 <= k < |Split(s, sep)| ==> !Contains(Split(s, sep)[k], sep)
    decreases |s|
  {
    var i := IndexOf(s, sep);
    if i >= 0 {
      var rest := s[i + |sep|..];
      SplitPiecesFree(rest, sep);
      PrefixBeforeFirst(s, sep, i);
      var r := Split(s, sep);
      assert r[0] == s[..i];
      assert forall k :: 1 <= k < |r| ==> r[k] == Split(rest, sep)[k - 1];
    }
  }

  /** No piece of a split is longer than the string split. */
  lemma {:induction false} SplitPieceLength(s: string, sep: string, k: nat)
    requires |sep| > 0
    requires k < |Split(s, sep)|
    ensures |Split(s, sep)[k]| <= |s|
    decreases |s|
  {
    var i := IndexOf(s, sep);
    if i >= 0 && k > 0 {
      SplitPieceLength(s[i + |sep|..], sep, k - 1);
    }
  }

  /** A string without the separator splits into itself alone. */
  lemma SplitNone(s: string, sep: string)
    requires |sep| > 0
    requires !Contains(s, sep)
    ensures Split(s, sep) == [s]
  {
  }

  /**
   * Splitting `a + sep + b` where the first occurrence of `sep` is the one
   * right after `a` yields `a` followed by the pieces of `b`.
   */
  lemma SplitAt(a: string, sep: string, b: string)
    requires |sep| > 0
    requires IndexOf(a + sep + b, sep) == |a|
    ensures Split(a + sep + b, sep) == [a] + Split(b, sep)
  {
    var s := a + sep + b;
    assert s[..|a|] == a;
    assert s[|a| + |sep|..] == b;
  }

  /** The first occurrence of `sep` in `a + sep + b` lies at or before `|a|`. */
  lemma IndexOfAtMost(a: string, sep: string, b: string)
    ensures 0 <= IndexOf(a + sep + b, sep) <= |a|
  {
    var s := a + sep + b;
    assert s[|a|..|a| + |sep|] == sep;
    assert OccursAt(s, sep, |a|);
  }

  /** With no occurrence in `a + sep` before `|a|`, the first one is at `|a|`. */
  lemma FirstAfter(a: string, sep: string, b: string)
    requires forall j :: 0 <= j < |a| ==> !OccursAt(a + sep, sep, j)
    ensures IndexOf(a + sep + b, sep) == |a|
  {
    var s := a + sep + b;
    IndexOfAtMost(a, sep, b);
    forall j | 0 <= j < |a|
      ensures !OccursAt(s, sep, j)
    {
      assert !OccursAt(a + sep, sep, j);
      assert s[j..j + |sep|] == (a + sep)[j..j + |sep|];
    }
  }

  /** A one-character separator is found right after a piece that lacks it. */
  lemma FirstAfterChar(a: string, c: char, b: string)
    requires c !in a
    ensures IndexOf(a + [c] + b, [c]) == |a|
  {
    forall j | 0 <= j < |a|
      ensures !OccursAt(a + [c], [c], j)
    {
      assert (a + [c])[j] == a[j];
    }
    FirstAfter(a, [c], b);
  }

  /**
   * A two-character separator whose characters differ cannot overlap itself,
   * so it too is found right after a piece that lacks it.
   */
  lemma FirstAfterPair(a: string, sep: string, b: string)
    requires |sep| == 2 && sep[0] != sep[1]
    requires !Contains(a, sep)
    ensures IndexOf(a + sep + b, sep) == |a|
  {
    forall j | 0 <= j < |a|
      ensures !OccursAt(a + sep, sep, j)
    {
      if j + 2 <= |a| {
        assert (a + sep)[j..j + 2] == a[j..j + 2];
        assert !OccursAt(a, sep, j);
      } else {
        assert (a + sep)[j..j + 2] == [a[j], sep[0]];
        assert [a[j], sep[0]] != sep;
      }
    }
    FirstAfter(a, sep, b);
  }

  /** A string without the character does not contain it as a one-character string. */
  lemma CharNotContained(s: string, c: char)
    requires c !in s
    ensures !Contains(s, [c])
  {
    forall j | 0 <= j < |s|
      ensures !OccursAt(s, [c], j)
    {
      assert s[j..j + 1] == [s[j]];
    }
  }

  /** `split` is the inverse of `Join` for a one-character separator. */
  lemma {:induction false} SplitJoinChar(pieces: seq<string>, c: char)
    requires |pieces| >= 1
    requires forall k :: 0 <= k < |pieces| ==> c !in pieces[k]
    ensures Split(Join(pieces, [c]), [c]) == pieces
  {
    if |pieces| == 1 {
      CharNotContained(pieces[0], c);
    } else {
      SplitJoinChar(pieces[1..], c);
      FirstAfterChar(pieces[0], c, Join(pieces[1..], [c]));
      SplitAt(pieces[0], [c], Join(pieces[1..], [c]));
    }
  }

  /** A string that lacks one of the separator's characters does not contain the separator. */
  lemma MissingCharNotContained(s: string, sep: string, c: char)
    requires c in sep && c !in s
    ensures !Contains(s, sep)
  {
    var m :| 0 <= m < |sep| && sep[m] == c;
    forall j | 0 <= j < |s|
      ensures !OccursAt(s, sep, j)
    {
      if j + |sep| <= |s| {
        assert s[j..j + |sep|][m] == s[j + m];
      }
    }
  }

  /** When `a` lacks the separator's first character, the first occurrence is right after `a`. */
  lemma FirstAfterStart(a: string, sep: string, b: string)
    requires |sep| > 0 && sep[0] !in a
    ensures IndexOf(a + sep + b, sep) == |a|
  {
    forall j | 0 <= j < |a|
      ensures !OccursAt(a + sep, sep, j)
    {
      assert (a + sep)[j] == a[j];
    }
    FirstAfter(a, sep, b);
  }

  /** `split` is the inverse of `Join` for a two-character separator that cannot overlap itself. */
  lemma {:induction false} SplitJoinPair(pieces: seq<string>, sep: string)
    requires |pieces| >= 1
    requires |sep| == 2 && sep[0] != sep[1]
    requires forall k :: 0 <= k < |pieces| ==> !Contains(pieces[k], sep)
    ensures Split(Join(pieces, sep), sep) == pieces
  {
    if |pieces| == 1 {
      SplitNone(pieces[0], sep);
    } else {
      SplitJoinPair(pieces[1..], sep);
      FirstAfterPair(pieces[0], sep, Join(pieces[1..], sep));
      SplitAt(pieces[0], sep, Join(pieces[1..], sep));
    }
  }

  /** A character in neither the pieces nor the separator is not in their join. */
  lemma {:induction false} JoinLacksChar(pieces: seq<string>, sep: string, c: char)
    requires |pieces| >= 1
    requires c !in sep && forall k :: 0 <= k < |pieces| ==> c !in pieces[k]
    ensures c !in Join(pieces, sep)
  {
    if |pieces| > 1 {
      JoinLacksChar(pieces[1..], sep, c);
    }
  }

  /** `s.substring(a, b)` for `a <= b`: both bounds are clamped to the length. */
  function Substring(s: string, a: nat, b: nat): (r: string)
    requires a <= b
    ensures |r| == (if b <= |s| then b - a else if a <= |s| then |s| - a else 0)
  {
    var lo := if a <= |s| then a else |s|;
    var hi := if b <= |s| then b else |s|;
    s[lo..hi]
  }

  /** `s.substring(1)`: everything but the first character; "" stays "". */
  function DropFirst(s: string): (r: string)
    ensures s == "" ==> r == ""
    ensures s != "" ==> [s[0]] + r == s
  {
    if s == "" then "" else s[1..]
  }

  /** JavaScript truthiness of `parts[k]`: the index exists and the piece is non-empty. */
  predicate Truthy(parts: seq<string>, k: nat) {
    k < |parts| && parts[k] != ""
  }

  /** `parts[k]`, with JavaScript's `undefined` for an index past the end. */
  function At(parts: seq<string>, k: nat): Option<string> {
    if k < |parts| then Some(parts[k]) else None
  }

  /**
   * The second piece of a split, the unit of `value.split("*")[1]`, is
   * there exactly when the separator occurs, and it is the text after the
   * first occurrence up to the next one.
   */
  lemma SecondPiece(s: string, sep: string)
    requires |sep| > 0
    ensures At(Split(s, sep), 1).Some? <==> Contains(s, sep)
    ensures Contains(s, sep) ==>
      At(Split(s, sep), 1).value == Split(s[IndexOf(s, sep) + |sep|..], sep)[0]
  {
    if !Contains(s, sep) {
      SplitNone(s, sep);
    }
  }

  /** `v*u*more` splits on `*` into `v`, `u` and the pieces of `more`. */
  lemma SplitTwoStars(v: string, u: string, more: string)
    requires '*' !in v && '*' !in u
    ensures Split(v + "*" + u + "*" + more, "*") == [v, u] + Split(more, "*")
  {
    var tail := u + "*" + more;
    assert v + "*" + u + "*" + more == v + "*" + tail;
    FirstAfterChar(v, '*', tail);
    SplitAt(v, "*", tail);
    FirstAfterChar(u, '*', more);
    SplitAt(u, "*", more);
    assert [v] + ([u] + Split(more, "*")) == [v, u] + Split(more, "*");
  }
}
