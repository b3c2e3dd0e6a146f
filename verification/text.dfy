/**
 * The JavaScript string built-ins the drive clients rely on, in the forms they
 * use them: `split` and `join` on one separator character, `trim`,
 * `toLowerCase`, `startsWith`, the `replace(/^\/+/, "")` of buildTree, and
 * `replace` of a string pattern (first occurrence, with `$` substitutions).
 */
module Text {
  import opened Wrappers

  // ---------------------------------------------------------------------------
  // trim()
  // ---------------------------------------------------------------------------

  /** ECMAScript WhiteSpace and LineTerminator code points: what `trim()` strips. */
  predicate IsSpace(c: char) {
    || c in {'\t', '\n', '\U{000B}', '\U{000C}', '\r', ' ', '\U{00A0}', '\U{1680}',
             '\U{2028}', '\U{2029}', '\U{202F}', '\U{205F}', '\U{3000}', '\U{FEFF}'}
    || '\U{2000}' <= c <= '\U{200A}'
  }

  predicate IsBlank(s: string) {
    forall i :: 0 <= i < |s| ==> IsSpace(s[i])
  }

  lemma BlankSplit(s: string, i: nat)
    requires i <= |s| && IsBlank(s[..i]) && IsBlank(s[i..])
    ensures IsBlank(s)
  {
    forall j | 0 <= j < |s| ensures IsSpace(s[j]) {
      if j < i {
        assert s[j] == s[..i][j];
      } else {
        assert s[j] == s[i..][j - i];
      }
    }
  }

  lemma NotBlankAt(s: string, i: nat)
    requires i < |s| && !IsSpace(s[i])
    ensures !IsBlank(s)
  {
  }

  /** The length of the run of white space that `s` starts with. */
  function LeadingSpaces(s: string): (n: nat)
    ensures n <= |s|
    ensures IsBlank(s[..n])
    ensures n < |s| ==> !IsSpace(s[n])
  {
    if s == [] || !IsSpace(s[0]) then 0
    else
      var m := LeadingSpaces(s[1..]);
      assert s[..1 + m] == [s[0]] + s[1..][..m];
      1 + m
  }

  /** The length of the run of white space that `s` ends with. */
  function TrailingSpaces(s: string): (n: nat)
    ensures n <= |s|
    ensures IsBlank(s[|s| - n..])
    ensures n < |s| ==> !IsSpace(s[|s| - n - 1])
  {
    if s == [] || !IsSpace(s[|s| - 1]) then 0
    else
      var m := TrailingSpaces(s[..|s| - 1]);
      TrailingStep(s, m);
      1 + m
  }

  /** One more white space character at the end extends a blank tail by one. */
  lemma TrailingStep(s: string, m: nat)
    requires s != [] && IsSpace(s[|s| - 1]) && m <= |s| - 1
    requires IsBlank(s[..|s| - 1][|s| - 1 - m..])
    requires m < |s| - 1 ==> !IsSpace(s[..|s| - 1][|s| - 1 - m - 1])
    ensures IsBlank(s[|s| - (1 + m)..])
    ensures 1 + m < |s| ==> !IsSpace(s[|s| - (1 + m) - 1])
  {
    var k := |s| - (1 + m);
    var tail := s[..|s| - 1][k..];
    forall j | 0 <= j < |s[k..]| ensures IsSpace(s[k..][j]) {
      if j < m {
        assert s[k..][j] == tail[j];
      }
    }
    if 1 + m < |s| {
      assert s[k - 1] == s[..|s| - 1][k - 1];
    }
  }

  /**
   * `s.trim()`: `s` with its leading and trailing white space removed. The
   * result is the infix of `s` after its leading white space that leaves a
   * blank end, it neither starts nor ends with white space, and it is empty
   * exactly when `s` is blank.
   */
  function Trim(s: string): (r: string)
    ensures LeadingSpaces(s) + |r| <= |s| && r == s[LeadingSpaces(s)..LeadingSpaces(s) + |r|]
    ensures IsBlank(s[..LeadingSpaces(s)]) && IsBlank(s[LeadingSpaces(s) + |r|..])
    ensures r != [] ==> !IsSpace(r[0]) && !IsSpace(r[|r| - 1])
    ensures r == [] <==> IsBlank(s)
  {
    var start := LeadingSpaces(s);
    var stop := start + (|s| - start - TrailingSpaces(s[start..]));
    BlankEnds(s, start, stop);
    s[start..stop]
  }

  lemma BlankEnds(s: string, start: nat, stop: nat)
    requires start == LeadingSpaces(s)
    requires stop == start + (|s| - start - TrailingSpaces(s[start..]))
    ensures start <= stop <= |s|
    ensures IsBlank(s[..start]) && IsBlank(s[stop..])
    ensures start < stop ==> !IsSpace(s[start]) && !IsSpace(s[stop - 1])
    ensures start == stop <==> IsBlank(s)
  {
    var rest := s[start..];
    var t := TrailingSpaces(rest);
    assert s[stop..] == rest[|rest| - t..];
    if start < stop {
      assert s[stop - 1] == rest[|rest| - t - 1];
      NotBlankAt(s, start);
    } else {
      BlankSplit(s, start);
    }
  }

  // ---------------------------------------------------------------------------
  // toLowerCase(), startsWith()
  // ---------------------------------------------------------------------------

  function LowerChar(c: char): char {
    if 'A' <= c <= 'Z' then (c as int + 32) as char else c
  }

  /** `s.toLowerCase()` on the ASCII letters. */
  function ToLower(s: string): string {
    seq(|s|, i requires 0 <= i < |s| => LowerChar(s[i]))
  }

  predicate StartsWith(s: string, prefix: string) {
    |prefix| <= |s| && s[..|prefix|] == prefix
  }

  // ---------------------------------------------------------------------------
  // split() and join() on one separator character
  // ---------------------------------------------------------------------------

  /**
   * `s.split(sep)`: the pieces between the separators, always at least one
   * (the empty string gives one empty piece), none containing the separator.
   */
  function Split(s: string, sep: char): (pieces: seq<string>)
    ensures |pieces| >= 1
    ensures forall i :: 0 <= i < |pieces| ==> sep !in pieces[i]
  {
    if s == [] then [""] else Extend(s[0], Split(s[1..], sep), sep)
  }

  /** The pieces of `[c] + t`, given the pieces `rest` of `t`: a separator opens a new first piece, any other character joins the first one. */
  function Extend(c: char, rest: seq<string>, sep: char): seq<string>
    requires rest != []
  {
    if c == sep then [""] + rest else [[c] + rest[0]] + rest[1..]
  }

  /** Extending the first of several pieces does not touch the pieces after it. */
  lemma ExtendConcat(c: char, ra: seq<string>, rb: seq<string>, sep: char)
    requires ra != []
    ensures Extend(c, ra + rb, sep) == Extend(c, ra, sep) + rb
  {
    if c != sep {
      assert (ra + rb)[0] == ra[0] && (ra + rb)[1..] == ra[1..] + rb;
    }
  }

  /** `parts.join(sep)`. */
  function Join(parts: seq<string>, sep: char): string {
    if parts == [] then ""
    else if |parts| == 1 then parts[0]
    else parts[0] + [sep] + Join(parts[1..], sep)
  }

  function Last(pieces: seq<string>): string
    requires pieces != []
  {
    pieces[|pieces| - 1]
  }

  /** `filter(Boolean)` on strings: the non-empty pieces, in order. */
  function NonEmpty(pieces: seq<string>): (r: seq<string>)
    ensures forall i :: 0 <= i < |r| ==> r[i] != ""
    ensures forall i :: 0 <= i < |r| ==> r[i] in pieces
  {
    if pieces == [] then []
    else (if pieces[0] == "" then [] else [pieces[0]]) + NonEmpty(pieces[1..])
  }

  /** `s.replace(/^\/+/, "")` with `c` for the slash. */
  function StripLeading(s: string, c: char): string {
    if s != [] && s[0] == c then StripLeading(s[1..], c) else s
  }

  lemma {:induction false} SplitNoSeparator(s: string, sep: char)
    requires sep !in s
    ensures Split(s, sep) == [s]
  {
    if s != [] {
      assert sep !in s[1..] by {
        forall i | 0 <= i < |s[1..]| ensures s[1..][i] != sep {
          assert s[1..][i] == s[i + 1];
        }
      }
      SplitNoSeparator(s[1..], sep);
      assert s == [s[0]] + s[1..];
    }
  }

  /** A separator cuts the split exactly in two. */
  lemma {:induction false} SplitConcat(a: string, b: string, sep: char)
    ensures Split(a + [sep] + b, sep) == Split(a, sep) + Split(b, sep)
  {
    if a == [] {
      assert a + [sep] + b == [sep] + b;
      assert ([sep] + b)[1..] == b;
    } else {
      SplitConcat(a[1..], b, sep);
      SplitConsConcat(a[0], a[1..], b, sep);
      assert a == [a[0]] + a[1..];
    }
  }

  /** The inductive step of `SplitConcat`: prefixing one character to the left part. */
  lemma SplitConsConcat(c: char, a: string, b: string, sep: char)
    requires Split(a + [sep] + b, sep) == Split(a, sep) + Split(b, sep)
    ensures Split([c] + a + [sep] + b, sep) == Split([c] + a, sep) + Split(b, sep)
  {
    var t := a + [sep] + b;
    assert [c] + a + [sep] + b == [c] + t;
    SplitCons(c, t, sep);
    SplitCons(c, a, sep);
    ExtendConcat(c, Split(a, sep), Split(b, sep), sep);
  }

  /** Splitting a string that starts with `c`. */
  lemma SplitCons(c: char, t: string, sep: char)
    ensures Split([c] + t, sep) == Extend(c, Split(t, sep), sep)
  {
    assert ([c] + t)[0] == c && ([c] + t)[1..] == t;
  }

  /** `split` yields more than one piece exactly when the separator occurs. */
  lemma SplitLength(s: string, sep: char)
    ensures |Split(s, sep)| > 1 <==> sep in s
  {
    if sep in s {
      var k :| 0 <= k < |s| && s[k] == sep;
      assert s == s[..k] + [sep] + s[k + 1..];
      SplitConcat(s[..k], s[k + 1..], sep);
    } else {
      SplitNoSeparator(s, sep);
    }
  }

  /** Joining the pieces of a split gives the string back. */
  lemma {:induction false} JoinSplit(s: string, sep: char)
    ensures Join(Split(s, sep), sep) == s
  {
    if s != [] {
      JoinSplit(s[1..], sep);
      var rest := Split(s[1..], sep);
      if s[0] == sep {
        assert ([""] + rest)[1..] == rest;
      } else if |rest| > 1 {
        var r := [[s[0]] + rest[0]] + rest[1..];
        assert r[1..] == rest[1..];
        assert s == [s[0]] + s[1..];
      } else {
        assert s == [s[0]] + s[1..];
      }
    }
  }

  lemma {:induction false} JoinAppend(a: seq<string>, b: seq<string>, sep: char)
    requires a != [] && b != []
    ensures Join(a + b, sep) == Join(a, sep) + [sep] + Join(b, sep)
  {
    if |a| > 1 {
      assert (a + b)[1..] == a[1..] + b;
      JoinAppend(a[1..], b, sep);
    } else {
      assert (a + b)[1..] == b;
    }
  }

  /** Splitting a join of separator-free parts gives the parts back. */
  lemma {:induction false} SplitJoin(parts: seq<string>, sep: char)
    requires parts != []
    requires forall i :: 0 <= i < |parts| ==> sep !in parts[i]
    ensures Split(Join(parts, sep), sep) == parts
  {
    if |parts| == 1 {
      SplitNoSeparator(parts[0], sep);
    } else {
      SplitJoin(parts[1..], sep);
      SplitConcat(parts[0], Join(parts[1..], sep), sep);
      SplitNoSeparator(parts[0], sep);
    }
  }

  /**
   * The last piece of a split is the text after the last separator: it holds
   * no separator, and it is the whole string when there is no separator.
   */
  lemma LastPieceIsTail(s: string, sep: char)
    ensures sep !in Last(Split(s, sep))
    ensures sep !in s ==> Last(Split(s, sep)) == s
    ensures sep in s ==>
      exists k :: 0 <= k < |s| && s[k] == sep && Last(Split(s, sep)) == s[k + 1..]
  {
    var pieces := Split(s, sep);
    if sep !in s {
      SplitNoSeparator(s, sep);
    } else {
      SplitLength(s, sep);
      var pre := pieces[..|pieces| - 1];
      assert pieces == pre + [Last(pieces)];
      JoinSplit(s, sep);
      JoinAppend(pre, [Last(pieces)], sep);
      var k := |Join(pre, sep)|;
      assert s == Join(pre, sep) + [sep] + Last(pieces);
      assert s[k] == sep && s[k + 1..] == Last(pieces);
    }
  }

  /** The last piece is empty exactly when `s` is empty or ends with the separator. */
  lemma LastPieceEmpty(s: string, sep: char)
    ensures Last(Split(s, sep)) == "" <==> (s == [] || s[|s| - 1] == sep)
  {
    LastPieceIsTail(s, sep);
    if sep in s {
      var k :| 0 <= k < |s| && s[k] == sep && Last(Split(s, sep)) == s[k + 1..];
    }
  }

  /** Stripping leading separators does not change the last piece. */
  lemma {:induction false} LastPieceAfterStrip(s: string, sep: char)
    ensures Last(Split(StripLeading(s, sep), sep)) == Last(Split(s, sep))
  {
    if s != [] && s[0] == sep {
      LastPieceAfterStrip(s[1..], sep);
    }
  }

  /** Dropping empty pieces keeps a non-empty last piece last. */
  lemma {:induction false} LastOfNonEmpty(pieces: seq<string>)
    requires pieces != [] && Last(pieces) != ""
    ensures NonEmpty(pieces) != [] && Last(NonEmpty(pieces)) == Last(pieces)
  {
    if |pieces| > 1 {
      LastOfNonEmpty(pieces[1..]);
    }
  }

  lemma {:induction false} NonEmptyIdentity(pieces: seq<string>)
    requires forall i :: 0 <= i < |pieces| ==> pieces[i] != ""
    ensures NonEmpty(pieces) == pieces
  {
    if pieces != [] {
      NonEmptyIdentity(pieces[1..]);
    }
  }

  // ---------------------------------------------------------------------------
  // replace() with a string pattern
  // ---------------------------------------------------------------------------

  predicate OccursAt(s: string, pat: string, j: nat) {
    j + |pat| <= |s| && s[j..j + |pat|] == pat
  }

  /** The first index at or after `from` where `pat` occurs in `s`. */
  function IndexOf(s: string, pat: string, from: nat): (r: Option<nat>)
    requires from <= |s|
    ensures r.Some? ==> from <= r.value <= |s| - |pat| && s[r.value..r.value + |pat|] == pat
    ensures r.Some? ==> forall j :: from <= j < r.value ==> !OccursAt(s, pat, j)
    ensures r.None? ==> forall j :: from <= j <= |s| ==> !OccursAt(s, pat, j)
    decreases |s| - from
  {
    if from + |pat| > |s| then None
    else if OccursAt(s, pat, from) then Some(from)
    else if from == |s| then None
    else IndexOf(s, pat, from + 1)
  }

  /**
   * GetSubstitution for a string pattern (no capture groups): `$$` gives `$`,
   * `$&` the matched text, `` $` `` the text before it, `$'` the text after it;
   * any other `$` is literal.
   */
  function Substitute(rep: string, matched: string, before: string, after: string): string
    decreases |rep|
  {
    if rep == [] then ""
    else if rep[0] == '$' && |rep| >= 2 && rep[1] in {'$', '&', '`', '\''} then
      var text := if rep[1] == '$' then "$" else if rep[1] == '&' then matched
                  else if rep[1] == '`' then before else after;
      text + Substitute(rep[2..], matched, before, after)
    else [rep[0]] + Substitute(rep[1..], matched, before, after)
  }

  /** Without a `$`, the replacement text is taken literally. */
  lemma {:induction false} SubstituteLiteral(rep: string, matched: string, before: string, after: string)
    requires '$' !in rep
    ensures Substitute(rep, matched, before, after) == rep
  {
    if rep != [] {
      SubstituteLiteral(rep[1..], matched, before, after);
    }
  }

  /** `s.replace(pat, rep)`: only the first occurrence is replaced. */
  function ReplaceFirst(s: string, pat: string, rep: string): string {
    match IndexOf(s, pat, 0)
    case None => s
    case Some(i) =>
      s[..i] + Substitute(rep, pat, s[..i], s[i + |pat|..]) + s[i + |pat|..]
  }

  /** When `s` starts with the pattern, `replace` swaps that prefix. */
  lemma ReplacePrefix(s: string, pat: string, rep: string)
    requires StartsWith(s, pat) && '$' !in rep
    ensures ReplaceFirst(s, pat, rep) == rep + s[|pat|..]
  {
    assert IndexOf(s, pat, 0) == Some(0);
    SubstituteLiteral(rep, pat, s[..0], s[|pat|..]);
  }
}
