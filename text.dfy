/**
 * The pieces of Foundation's string handling that the app relies on:
 * character sets, `trimmingCharacters(in:)`, `lowercased()`,
 * `contains(_:)`, `split(separator:)` and the `<` order on strings.
 */
module Text {

  // ---------------------------------------------------------------------
  // Character sets

  /** `CharacterSet.alphanumerics`, restricted to ASCII letters and digits. */
  predicate IsAlphanumeric(c: char) {
    'a' <= c <= 'z' || 'A' <= c <= 'Z' || '0' <= c <= '9'
  }

  /** `CharacterSet.alphanumerics.inverted`. */
  predicate IsNotAlphanumeric(c: char) {
    !IsAlphanumeric(c)
  }

  /** `CharacterSet.whitespaces`: the tab and the space separators (Unicode category Zs). */
  predicate IsWhitespace(c: char) {
    || c == '\t' || c == ' ' || c == '\U{A0}' || c == '\U{1680}'
    || ('\U{2000}' <= c <= '\U{200A}')
    || c == '\U{202F}' || c == '\U{205F}' || c == '\U{3000}'
  }

  // ---------------------------------------------------------------------
  // Trimming

  /** The number of leading characters of `s` that belong to the set `strip`. */
  function LeadingRun(s: string, strip: char -> bool): (n: nat)
    ensures n <= |s|
    ensures forall k :: 0 <= k < n ==> strip(s[k])
    ensures n < |s| ==> !strip(s[n])
  {
    if s == [] || !strip(s[0]) then 0 else 1 + LeadingRun(s[1..], strip)
  }

  /** When every character belongs to the set, the leading run is the whole string. */
  lemma {:induction false} LeadingRunAll(s: string, strip: char -> bool)
    requires forall k :: 0 <= k < |s| ==> strip(s[k])
    ensures LeadingRun(s, strip) == |s|
  {
    if s != [] {
      LeadingRunAll(s[1..], strip);
    }
  }

  /** The number of trailing characters of `s` that belong to the set `strip`. */
  function TrailingRun(s: string, strip: char -> bool): (n: nat)
    ensures n <= |s|
    ensures forall k :: |s| - n <= k < |s| ==> strip(s[k])
    ensures n < |s| ==> !strip(s[|s| - 1 - n])
  {
    if s == [] || !strip(s[|s| - 1]) then 0 else 1 + TrailingRun(s[..|s| - 1], strip)
  }

  /**
   * Trimming by a character set: the contiguous slice of `s` left once
   * the characters of `strip` are removed from both ends, and nothing else.
   */
  function Trim(s: string, strip: char -> bool): (r: string)
    ensures LeadingRun(s, strip) + |r| <= |s|
    ensures r == s[LeadingRun(s, strip)..LeadingRun(s, strip) + |r|]
    ensures forall k :: LeadingRun(s, strip) + |r| <= k < |s| ==> strip(s[k])
    ensures r == [] <==> forall k :: 0 <= k < |s| ==> strip(s[k])
    ensures r != [] ==> !strip(r[0]) && !strip(r[|r| - 1])
  {
    var t := s[LeadingRun(s, strip)..];
    t[..|t| - TrailingRun(t, strip)]
  }

  /** Any slice that starts and ends with kept characters and has only stripped ones around it is the trimmed string. */
  lemma TrimIsSlice(s: string, strip: char -> bool, i: nat, j: nat)
    requires i < j <= |s|
    requires forall k :: 0 <= k < i ==> strip(s[k])
    requires forall k :: j <= k < |s| ==> strip(s[k])
    requires !strip(s[i]) && !strip(s[j - 1])
    ensures Trim(s, strip) == s[i..j]
  {
    var n := LeadingRun(s, strip);
    assert n == i;
    var t := s[n..];
    var m := TrailingRun(t, strip);
    assert m == |s| - j;
  }

  /** Trimming twice is trimming once. */
  lemma TrimIdempotent(s: string, strip: char -> bool)
    ensures Trim(Trim(s, strip), strip) == Trim(s, strip)
  {
    var r := Trim(s, strip);
    if r != [] {
      TrimIsSlice(r, strip, 0, |r|);
    }
  }

  /** Characters of the set added before or after a string do not change what trimming leaves. */
  lemma TrimIgnoresPadding(pre: string, s: string, post: string, strip: char -> bool)
    requires forall k :: 0 <= k < |pre| ==> strip(pre[k])
    requires forall k :: 0 <= k < |post| ==> strip(post[k])
    ensures Trim(pre + s + post, strip) == Trim(s, strip)
  {
    var u := pre + s + post;
    var r := Trim(s, strip);
    var i := LeadingRun(s, strip);
    var j := i + |r|;
    if r == [] {
      PaddingStripped(pre, s, post, strip, |s|, |s|);
      assert Trim(u, strip) == [];
    } else {
      PaddingStripped(pre, s, post, strip, i, j);
      PaddedSlice(pre, s, post, i, j);
      TrimIsSlice(u, strip, |pre| + i, |pre| + j);
    }
  }

  /** Padding around `s` extends the runs of stripped characters at either end of `s`. */
  lemma PaddingStripped(pre: string, s: string, post: string, strip: char -> bool, lo: nat, hi: nat)
    requires lo <= hi <= |s|
    requires forall k :: 0 <= k < |pre| ==> strip(pre[k])
    requires forall k :: 0 <= k < |post| ==> strip(post[k])
    requires forall k :: 0 <= k < lo ==> strip(s[k])
    requires forall k :: hi <= k < |s| ==> strip(s[k])
    ensures forall k :: 0 <= k < |pre| + lo ==> strip((pre + s + post)[k])
    ensures forall k :: |pre| + hi <= k < |pre + s + post| ==> strip((pre + s + post)[k])
  {
    var u := pre + s + post;
    forall k | 0 <= k < |pre| + lo
      ensures strip(u[k])
    {
      if k < |pre| {
        assert u[k] == pre[k];
      } else {
        assert u[k] == s[k - |pre|];
      }
    }
    forall k | |pre| + hi <= k < |u|
      ensures strip(u[k])
    {
      if k < |pre| + |s| {
        assert u[k] == s[k - |pre|];
      } else {
        assert u[k] == post[k - |pre| - |s|];
      }
    }
  }

  lemma PaddedSlice(pre: string, s: string, post: string, i: nat, j: nat)
    requires i <= j <= |s|
    ensures (pre + s + post)[|pre| + i..|pre| + j] == s[i..j]
  {
    var u := pre + s + post;
    assert u[|pre|..|pre| + |s|] == s;
    assert u[|pre| + i..|pre| + j] == u[|pre|..|pre| + |s|][i..j];
  }


  // ---------------------------------------------------------------------
  // Case folding and substrings

  /** `Character.lowercased()` on ASCII letters; every other character is kept. */
  function LowerChar(c: char): (r: char)
    ensures !('A' <= r <= 'Z')
    ensures 'A' <= c <= 'Z' ==> 'a' <= r <= 'z' && r as int - 'a' as int == c as int - 'A' as int
    ensures !('A' <= c <= 'Z') ==> r == c
  {
    if 'A' <= c <= 'Z' then (c as int + 32) as char else c
  }

  /** `String.lowercased()`, character by character. */
  function Lowercased(s: string): (r: string)
    ensures |r| == |s|
    ensures forall k :: 0 <= k < |r| ==> r[k] == LowerChar(s[k])
    ensures forall k :: 0 <= k < |r| ==> !('A' <= r[k] <= 'Z')
  {
    seq(|s|, k requires 0 <= k < |s| => LowerChar(s[k]))
  }

  /** Lower-casing twice is lower-casing once. */
  lemma LowercasedIdempotent(s: string)
    ensures Lowercased(Lowercased(s)) == Lowercased(s)
  {
  }

  /** Lower-casing works piecewise, so a substring lower-cases to the same text in place. */
  lemma LowercasedSlice(s: string, i: int, j: int)
    requires 0 <= i <= j <= |s|
    ensures Lowercased(s[i..j]) == Lowercased(s)[i..j]
  {
  }

  /** `needle` occurs in `haystack` starting at position `i`. */
  predicate OccursAt(haystack: string, needle: string, i: int) {
    0 <= i && i + |needle| <= |haystack| && haystack[i..i + |needle|] == needle
  }

  /** `haystack.contains(needle)`, searched from the left. */
  predicate Contains(haystack: string, needle: string)
    decreases |haystack|
  {
    if |haystack| < |needle| then false
    else if haystack[..|needle|] == needle then true
    else haystack != [] && Contains(haystack[1..], needle)
  }

  /** The search finds a match exactly when the needle occurs somewhere. */
  lemma {:induction false} ContainsIffOccurs(haystack: string, needle: string)
    ensures Contains(haystack, needle) <==> exists i :: OccursAt(haystack, needle, i)
    decreases |haystack|
  {
    if |haystack| < |needle| {
      assert forall i :: !OccursAt(haystack, needle, i);
    } else if haystack[..|needle|] == needle {
      assert OccursAt(haystack, needle, 0);
    } else {
      assert !OccursAt(haystack, needle, 0);
      var tail := haystack[1..];
      ContainsIffOccurs(tail, needle);
      forall i | OccursAt(haystack, needle, i)
        ensures OccursAt(tail, needle, i - 1)
      {
        assert tail[i - 1..i - 1 + |needle|] == haystack[i..i + |needle|];
      }
      forall i | OccursAt(tail, needle, i)
        ensures OccursAt(haystack, needle, i + 1)
      {
        assert tail[i..i + |needle|] == haystack[i + 1..i + 1 + |needle|];
      }
    }
  }

  /** Case-insensitive containment, as the app writes it: both sides lower-cased. */
  predicate ContainsIgnoringCase(haystack: string, needle: string) {
    Contains(Lowercased(haystack), Lowercased(needle))
  }

  /** Any occurrence of the needle, exactly as typed, is found ignoring case. */
  lemma OccurrenceFoundIgnoringCase(haystack: string, needle: string, i: int)
    requires OccursAt(haystack, needle, i)
    ensures ContainsIgnoringCase(haystack, needle)
  {
    LowercasedSlice(haystack, i, i + |needle|);
    assert OccursAt(Lowercased(haystack), Lowercased(needle), i);
    ContainsIffOccurs(Lowercased(haystack), Lowercased(needle));
  }

  /** The case of either side, as lower-casing sees it, does not change the answer. */
  lemma ContainsIgnoringCaseIgnoresCase(haystack: string, needle: string)
    ensures ContainsIgnoringCase(Lowercased(haystack), needle) == ContainsIgnoringCase(haystack, needle)
    ensures ContainsIgnoringCase(haystack, Lowercased(needle)) == ContainsIgnoringCase(haystack, needle)
  {
    LowercasedIdempotent(haystack);
    LowercasedIdempotent(needle);
  }

  // ---------------------------------------------------------------------
  // Splitting on a separator

  /** The length of the first piece of `s`: the characters before the first `sep`. */
  function PieceLength(s: string, sep: char): (n: nat)
    ensures n <= |s|
    ensures forall k :: 0 <= k < n ==> s[k] != sep
    ensures n < |s| ==> s[n] == sep
  {
    if s == [] || s[0] == sep then 0 else 1 + PieceLength(s[1..], sep)
  }

  /**
   * `s.split(separator: sep)` with Swift's defaults (`omittingEmptySubsequences`
   * is true): the maximal runs of characters other than `sep`, in order.
   */
  function Split(s: string, sep: char): (pieces: seq<string>)
    ensures forall i :: 0 <= i < |pieces| ==> pieces[i] != [] && sep !in pieces[i]
    decreases |s|
  {
    if s == [] then []
    else if s[0] == sep then Split(s[1..], sep)
    else
      var n := PieceLength(s, sep);
      [s[..n]] + (if n == |s| then [] else Split(s[n + 1..], sep))
  }

  /** The pieces written out with one `sep` between neighbours. */
  function Join(pieces: seq<string>, sep: char): string
  {
    if pieces == [] then []
    else if |pieces| == 1 then pieces[0]
    else pieces[0] + [sep] + Join(pieces[1..], sep)
  }

  /** All the pieces written one after another. */
  function Concat(pieces: seq<string>): string
  {
    if pieces == [] then [] else pieces[0] + Concat(pieces[1..])
  }

  /** The string with every `sep` taken out. */
  function Without(s: string, sep: char): string
  {
    if s == [] then [] else (if s[0] == sep then [] else [s[0]]) + Without(s[1..], sep)
  }

  lemma {:induction false} PieceLengthOf(p: string, rest: string, sep: char)
    requires sep !in p
    requires rest == [] || rest[0] == sep
    ensures PieceLength(p + rest, sep) == |p|
  {
    if p != [] {
      assert (p + rest)[1..] == p[1..] + rest;
      PieceLengthOf(p[1..], rest, sep);
    } else {
      assert p + rest == rest;
    }
  }

  /** A first piece followed by nothing or by a separator is split off whole. */
  lemma SplitFirstPiece(p: string, rest: string, sep: char)
    requires p != [] && sep !in p
    requires rest == [] || rest[0] == sep
    ensures Split(p + rest, sep) == [p] + (if rest == [] then [] else Split(rest[1..], sep))
  {
    var s := p + rest;
    PieceLengthOf(p, rest, sep);
    assert s[0] == p[0];
    assert s[..|p|] == p;
    if rest == [] {
      assert |p| == |s|;
    } else {
      assert s[|p| + 1..] == rest[1..];
    }
  }

  /** A non-empty string without the separator is a single piece. */
  lemma SplitWhole(s: string, sep: char)
    requires s != [] && sep !in s
    ensures Split(s, sep) == [s]
  {
    SplitFirstPiece(s, [], sep);
    assert s + [] == s;
  }

  /** Splitting undoes joining, as long as no piece is empty or holds the separator. */
  lemma {:induction false} SplitJoin(pieces: seq<string>, sep: char)
    requires forall i :: 0 <= i < |pieces| ==> pieces[i] != [] && sep !in pieces[i]
    ensures Split(Join(pieces, sep), sep) == pieces
  {
    if |pieces| == 1 {
      assert Join(pieces, sep) == pieces[0] + [];
      SplitFirstPiece(pieces[0], [], sep);
    } else if |pieces| > 1 {
      var tail := Join(pieces[1..], sep);
      assert Join(pieces, sep) == pieces[0] + ([sep] + tail);
      SplitFirstPiece(pieces[0], [sep] + tail, sep);
      assert ([sep] + tail)[1..] == tail;
      SplitJoin(pieces[1..], sep);
      assert pieces == [pieces[0]] + pieces[1..];
    }
  }

  /**
   * Splitting at any one separator splits the two sides separately: together
   * with `SplitWhole` and the empty text this fixes every split.
   */
  lemma {:induction false} SplitAppend(a: string, b: string, sep: char)
    ensures Split(a + [sep] + b, sep) == Split(a, sep) + Split(b, sep)
    decreases |a|
  {
    var s := a + [sep] + b;
    if a == [] {
      assert s[1..] == b;
    } else if a[0] == sep {
      assert s[1..] == a[1..] + [sep] + b;
      SplitAppend(a[1..], b, sep);
    } else {
      var n := PieceLength(a, sep);
      if n == |a| {
        assert sep !in a;
        PieceLengthOf(a, [sep] + b, sep);
        assert s == a + ([sep] + b);
        SplitFirstPiece(a, [sep] + b, sep);
        assert ([sep] + b)[1..] == b;
        SplitWhole(a, sep);
      } else {
        PieceLengthPrefix(a, [sep] + b, sep);
        assert s == a + ([sep] + b);
        assert s[..n] == a[..n];
        assert s[n + 1..] == a[n + 1..] + [sep] + b;
        SplitAppend(a[n + 1..], b, sep);
      }
    }
  }

  /** A separator inside the first piece ends it, whatever follows. */
  lemma {:induction false} PieceLengthPrefix(a: string, t: string, sep: char)
    requires PieceLength(a, sep) < |a|
    ensures PieceLength(a + t, sep) == PieceLength(a, sep)
  {
    if a[0] != sep {
      assert (a + t)[1..] == a[1..] + t;
      PieceLengthPrefix(a[1..], t, sep);
    }
  }

  /** Empty pieces vanish: between two separators, and before the first or after the last. */
  lemma SplitDropsEmptyPieces(a: string, b: string, sep: char)
    ensures Split(a + [sep, sep] + b, sep) == Split(a, sep) + Split(b, sep)
    ensures Split([sep] + b, sep) == Split(b, sep)
    ensures Split(a + [sep], sep) == Split(a, sep)
  {
    SplitAppend(a, [sep] + b, sep);
    SplitAppend([], b, sep);
    assert a + [sep, sep] + b == a + [sep] + ([sep] + b);
    assert [] + [sep] + b == [sep] + b;
    SplitAppend(a, [], sep);
    assert a + [sep] + [] == a + [sep];
  }

  lemma {:induction false} WithoutAppend(a: string, b: string, sep: char)
    ensures Without(a + b, sep) == Without(a, sep) + Without(b, sep)
  {
    if a != [] {
      assert (a + b)[1..] == a[1..] + b;
      WithoutAppend(a[1..], b, sep);
    } else {
      assert a + b == b;
    }
  }

  lemma {:induction false} WithoutAbsent(s: string, sep: char)
    requires sep !in s
    ensures Without(s, sep) == s
  {
    if s != [] {
      WithoutAbsent(s[1..], sep);
      assert s == [s[0]] + s[1..];
    }
  }

  /** Splitting loses nothing but the separators: the pieces laid end to end are the input without them. */
  lemma {:induction false} SplitKeepsOtherCharacters(s: string, sep: char)
    ensures Concat(Split(s, sep)) == Without(s, sep)
    decreases |s|
  {
    if s == [] {
    } else if s[0] == sep {
      SplitKeepsOtherCharacters(s[1..], sep);
    } else {
      var n := PieceLength(s, sep);
      assert s == s[..n] + s[n..];
      WithoutAppend(s[..n], s[n..], sep);
      WithoutAbsent(s[..n], sep);
      if n < |s| {
        SplitKeepsOtherCharacters(s[n + 1..], sep);
        assert s[n..] == [sep] + s[n + 1..];
        WithoutAppend([sep], s[n + 1..], sep);
      }
    }
  }

  // ---------------------------------------------------------------------
  // Ordering

  /** Swift's `<` on strings, taken as the lexicographic order on characters. */
  predicate Less(a: string, b: string) {
    if a == [] then b != []
    else b != [] && (a[0] < b[0] || (a[0] == b[0] && Less(a[1..], b[1..])))
  }

  /** `b` is not below `a`: the order a sort by `<` leaves neighbours in. */
  predicate LessOrEqual(a: string, b: string) {
    !Less(b, a)
  }

  lemma {:induction false} LessTrichotomy(a: string, b: string)
    ensures Less(a, b) || a == b || Less(b, a)
  {
    if a != [] && b != [] && a[0] == b[0] {
      LessTrichotomy(a[1..], b[1..]);
      if a[1..] == b[1..] {
        assert a == [a[0]] + a[1..] && b == [b[0]] + b[1..];
      }
    }
  }

  lemma {:induction false} LessAsymmetric(a: string, b: string)
    ensures !(Less(a, b) && Less(b, a))
  {
    if a != [] && b != [] && a[0] == b[0] {
      LessAsymmetric(a[1..], b[1..]);
    }
  }

  lemma {:induction false} LessTransitive(a: string, b: string, c: string)
    requires Less(a, b) && Less(b, c)
    ensures Less(a, c)
  {
    if a != [] && a[0] == b[0] && b[0] == c[0] {
      LessTransitive(a[1..], b[1..], c[1..]);
    }
  }

  /** Any two strings are ordered one way or the other. */
  lemma LessOrEqualTotal(a: string, b: string)
    ensures LessOrEqual(a, b) || LessOrEqual(b, a)
  {
    LessAsymmetric(a, b);
  }

  lemma LessOrEqualTransitive(a: string, b: string, c: string)
    requires LessOrEqual(a, b) && LessOrEqual(b, c)
    ensures LessOrEqual(a, c)
  {
    if Less(c, a) {
      LessTrichotomy(a, b);
      if Less(a, b) {
        LessTransitive(c, a, b);
      }
    }
  }
}
