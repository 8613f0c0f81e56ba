/** The string helpers the scanner borrows from absl and llvm: ASCII whitespace stripping
    (absl::StripAsciiWhitespace and its leading-only form), taking the run of non-space
    characters, joining lines (llvm::join) and splitting on a separator (std::views::split). */
module Text {

  /** The fixed ASCII whitespace set: space, tab, newline, vertical tab, form feed, carriage
      return. std::isspace in the "C" locale and absl's ASCII helpers agree on it. */
  predicate IsSpace(c: char) {
    c == ' ' || '\t' <= c <= '\r'
  }

  predicate NoSpace(s: string) {
    forall k :: 0 <= k < |s| ==> !IsSpace(s[k])
  }

  /** Number of whitespace characters that open `s`. */
  function LeadingSpaces(s: string): (n: nat)
    ensures n <= |s|
    ensures forall k :: 0 <= k < n ==> IsSpace(s[k])
    ensures n < |s| ==> !IsSpace(s[n])
  {
    if s == [] || !IsSpace(s[0]) then 0 else 1 + LeadingSpaces(s[1..])
  }

  /** Number of whitespace characters that close `s`. */
  function TrailingSpaces(s: string): (n: nat)
    ensures n <= |s|
    ensures forall k :: |s| - n <= k < |s| ==> IsSpace(s[k])
    ensures n < |s| ==> !IsSpace(s[|s| - 1 - n])
  {
    if s == [] || !IsSpace(s[|s| - 1]) then 0 else 1 + TrailingSpaces(s[..|s| - 1])
  }

  /** absl::StripLeadingAsciiWhitespace. */
  function StripLeading(s: string): (r: string)
    ensures |r| <= |s| && r == s[|s| - |r|..]
    ensures forall k :: 0 <= k < |s| - |r| ==> IsSpace(s[k])
    ensures r != [] ==> !IsSpace(r[0])
  {
    s[LeadingSpaces(s)..]
  }

  /** absl::StripTrailingAsciiWhitespace. */
  function StripTrailing(s: string): (r: string)
    ensures |r| <= |s| && r == s[..|r|]
    ensures forall k :: |r| <= k < |s| ==> IsSpace(s[k])
    ensures r != [] ==> !IsSpace(r[|r| - 1])
  {
    s[..|s| - TrailingSpaces(s)]
  }

  /** absl::StripAsciiWhitespace: whitespace is removed at both ends and nowhere else, so the
      result is one contiguous slice of `s` with only whitespace around it. */
  function Strip(s: string): (r: string)
    ensures LeadingSpaces(s) + |r| <= |s|
    ensures r == s[LeadingSpaces(s)..LeadingSpaces(s) + |r|]
    ensures forall k :: LeadingSpaces(s) + |r| <= k < |s| ==> IsSpace(s[k])
    ensures r != [] ==> !IsSpace(r[0]) && !IsSpace(r[|r| - 1])
  {
    if LeadingSpaces(s) < |s| then s[LeadingSpaces(s)..|s| - TrailingSpaces(s)] else []
  }

  /** Stripping twice strips nothing more. */
  lemma StripIdempotent(s: string)
    ensures Strip(Strip(s)) == Strip(s)
  {
    var r := Strip(s);
    if r != [] {
      assert LeadingSpaces(r) == 0;
      assert TrailingSpaces(r) == 0;
    }
  }

  /** A string whose ends are not whitespace is its own strip. */
  lemma StripOfStripped(s: string)
    requires s != [] ==> !IsSpace(s[0]) && !IsSpace(s[|s| - 1])
    ensures Strip(s) == s
  {
    if s != [] {
      assert LeadingSpaces(s) == 0;
      assert TrailingSpaces(s) == 0;
    }
  }

  /** Leading whitespace of a concatenation: the first part's, or all of it and the second's. */
  lemma {:induction false} LeadingSpacesConcat(x: string, y: string)
    ensures LeadingSpaces(x + y) == if LeadingSpaces(x) < |x| then LeadingSpaces(x) else |x| + LeadingSpaces(y)
  {
    if x == [] {
      assert x + y == y;
    } else {
      assert (x + y)[0] == x[0];
      assert (x + y)[1..] == x[1..] + y;
      LeadingSpacesConcat(x[1..], y);
    }
  }

  /** Trailing whitespace of a concatenation: the second part's, or all of it and the first's. */
  lemma {:induction false} TrailingSpacesConcat(x: string, y: string)
    ensures TrailingSpaces(x + y) == if TrailingSpaces(y) < |y| then TrailingSpaces(y) else |y| + TrailingSpaces(x)
    decreases |y|
  {
    if y == [] {
      assert x + y == x;
    } else {
      assert (x + y)[|x + y| - 1] == y[|y| - 1];
      assert (x + y)[..|x + y| - 1] == x + y[..|y| - 1];
      TrailingSpacesConcat(x, y[..|y| - 1]);
    }
  }

  /** Whitespace appended after the text does not change its strip. */
  lemma StripTrailingBlank(x: string, ws: string)
    requires forall k :: 0 <= k < |ws| ==> IsSpace(ws[k])
    ensures Strip(x + ws) == Strip(x)
  {
    var l, t := LeadingSpaces(x), TrailingSpaces(x);
    BlankCounts(ws);
    LeadingSpacesConcat(x, ws);
    TrailingSpacesConcat(x, ws);
    if l < |x| {
      SliceOfPrefix(x, ws, l, |x| - t);
    }
  }

  /** A run of whitespace is all leading and all trailing whitespace. */
  lemma BlankCounts(ws: string)
    requires forall k :: 0 <= k < |ws| ==> IsSpace(ws[k])
    ensures LeadingSpaces(ws) == |ws| && TrailingSpaces(ws) == |ws|
  {
  }

  lemma SliceOfPrefix(x: string, y: string, i: nat, j: nat)
    requires i <= j <= |x|
    ensures (x + y)[i..j] == x[i..j]
  {
  }

  /** When the first part holds some non-space character and the second ends with one, only the
      first part's leading whitespace is stripped: everything after it, the second part's own
      indentation included, is kept. */
  lemma StripKeepsInterior(x: string, y: string)
    requires StripLeading(x) != []
    requires y != [] && !IsSpace(y[|y| - 1])
    ensures Strip(x + y) == StripLeading(x) + y
  {
    var l := LeadingSpaces(x);
    assert LeadingSpaces(x + y) == l by { LeadingSpacesConcat(x, y); }
    assert TrailingSpaces(x + y) == 0 by {
      assert TrailingSpaces(y) == 0;
      TrailingSpacesConcat(x, y);
    }
    assert (x + y)[l..|x + y|] == x[l..] + y;
  }

  /** The longest prefix of `s` holding no whitespace (`take_while(not isspace)`). */
  function TakeWhileNonSpace(s: string): (r: string)
    ensures |r| <= |s| && r == s[..|r|]
    ensures NoSpace(r)
    ensures |r| < |s| ==> IsSpace(s[|r|])
  {
    if s == [] || IsSpace(s[0]) then [] else [s[0]] + TakeWhileNonSpace(s[1..])
  }

  /** A run of non-space characters followed by whitespace is taken exactly. */
  lemma {:induction false} TakeWhileNonSpaceOfWord(w: string, rest: string)
    requires NoSpace(w)
    requires rest != [] ==> IsSpace(rest[0])
    ensures TakeWhileNonSpace(w + rest) == w
  {
    if w == [] {
      assert w + rest == rest;
    } else {
      assert (w + rest)[0] == w[0];
      assert (w + rest)[1..] == w[1..] + rest;
      TakeWhileNonSpaceOfWord(w[1..], rest);
    }
  }

  /** llvm::join: the items with `sep` between consecutive ones. */
  function Join(xs: seq<string>, sep: string): string
  {
    if |xs| == 0 then []
    else if |xs| == 1 then xs[0]
    else xs[0] + sep + Join(xs[1..], sep)
  }

  /** Number of occurrences of `c` in `s`. */
  function Count(s: string, c: char): nat
  {
    if s == [] then 0 else (if s[0] == c then 1 else 0) + Count(s[1..], c)
  }

  /** The pieces between occurrences of `c` (std::views::split over a non-empty range): one more
      piece than there are separators, none containing the separator. */
  function Pieces(s: string, c: char): (r: seq<string>)
    ensures |r| == Count(s, c) + 1
    ensures forall k :: 0 <= k < |r| ==> c !in r[k]
  {
    if s == [] then [[]]
    else
      var rest := Pieces(s[1..], c);
      if s[0] == c then [[]] + rest else [[s[0]] + rest[0]] + rest[1..]
  }

  /** Joining the pieces back with the separator gives the original text. */
  lemma {:induction false} JoinPieces(s: string, c: char)
    ensures Join(Pieces(s, c), [c]) == s
  {
    if s != [] {
      var rest := Pieces(s[1..], c);
      JoinPieces(s[1..], c);
      if s[0] == c {
        assert Pieces(s, c) == [[]] + rest;
        assert Join([[]] + rest, [c]) == [] + [c] + Join(rest, [c]);
      } else if |rest| == 1 {
        assert Pieces(s, c) == [[s[0]] + rest[0]];
        assert Join(rest, [c]) == rest[0];
      } else {
        var ps := Pieces(s, c);
        assert ps == [[s[0]] + rest[0]] + rest[1..];
        assert ps[1..] == rest[1..];
        assert Join(ps, [c]) == [s[0]] + rest[0] + [c] + Join(rest[1..], [c]);
        assert Join(rest, [c]) == rest[0] + [c] + Join(rest[1..], [c]);
      }
    }
  }

  /** Strips every item, in order. */
  function StripAll(xs: seq<string>): (r: seq<string>)
    ensures |r| == |xs|
    ensures forall k :: 0 <= k < |r| ==> r[k] == Strip(xs[k])
  {
    if xs == [] then [] else [Strip(xs[0])] + StripAll(xs[1..])
  }
}
