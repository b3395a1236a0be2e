/**
 The two calls of JavaScript's `String.prototype.split` that the readings
 parser makes: `split('\n')` with a one-character string separator, and
 `split(/, ?/)` with a regular expression that matches a comma optionally
 followed by exactly one space.

 `SplitFrom` is the recursive reference definition (cut at the first match
 at or after position `p`, then go on after the match); `SplitByMatcher` is
 the ECMAScript split loop, which `String.prototype.split` with a string
 separator and `RegExp.prototype[@@split]` share (positions `p` and `q`, no
 limit argument), proved to agree with it. Neither separator
 can match the empty string, so the algorithm's empty-match branch never
 fires, and an empty input gives one empty piece.
 */
module JsSplit {

  /** The separators the parser splits by. */
  datatype Separator =
    | Literal(c: char)       // a one-character string separator such as '\n'
    | CommaOptionalSpace     // the regular expression /, ?/

  /** The character every match of the separator begins with. */
  function Lead(sep: Separator): char {
    match sep
    case Literal(c) => c
    case CommaOptionalSpace => ','
  }

  /** Length of the separator match that starts at position `q` of `s`, or 0
      when the separator does not match there. The quantifier in `, ?` is
      greedy: a space right after the comma is always consumed. */
  function MatchLength(sep: Separator, s: string, q: nat): (n: nat)
    requires q < |s|
    ensures n == 0 <==> s[q] != Lead(sep)
    ensures q + n <= |s|
    ensures n <= 1 || (sep == CommaOptionalSpace && n == 2 && s[q + 1] == ' ')
    ensures n == 2 <==> sep == CommaOptionalSpace && s[q] == ',' && q + 1 < |s| && s[q + 1] == ' '
  {
    if s[q] != Lead(sep) then 0
    else match sep
      case Literal(_) => 1
      case CommaOptionalSpace => if q + 1 < |s| && s[q + 1] == ' ' then 2 else 1
  }

  /** Position of the first `c` in `s` at or after `from`, or `|s|` when there is none. */
  function IndexOf(s: string, c: char, from: nat): (i: nat)
    requires from <= |s|
    ensures from <= i <= |s|
    ensures i < |s| ==> s[i] == c
    decreases |s| - from
  {
    if from == |s| || s[from] == c then from else IndexOf(s, c, from + 1)
  }

  /** `IndexOf` finds the first occurrence: there is no `c` before it. */
  lemma {:induction false} IndexOfFirst(s: string, c: char, from: nat)
    requires from <= |s|
    ensures forall k :: from <= k < IndexOf(s, c, from) ==> s[k] != c
    decreases |s| - from
  {
    if from < |s| && s[from] != c {
      IndexOfFirst(s, c, from + 1);
    }
  }

  /** A position with `c` (or the end) and no `c` before it is what `IndexOf` returns. */
  lemma IndexOfIs(s: string, c: char, from: nat, i: nat)
    requires from <= i <= |s|
    requires i < |s| ==> s[i] == c
    requires forall k :: from <= k < i ==> s[k] != c
    ensures IndexOf(s, c, from) == i
  {
    IndexOfFirst(s, c, from);
  }

  /** The pieces of `s[p..]` between the matches of `sep`, in order. */
  function SplitFrom(sep: Separator, s: string, p: nat): (pieces: seq<string>)
    requires p <= |s|
    ensures |pieces| >= 1
    decreases |s| - p
  {
    var i := IndexOf(s, Lead(sep), p);
    if i == |s| then [s[p..]]
    else [s[p..i]] + SplitFrom(sep, s, i + MatchLength(sep, s, i))
  }

  /** The pieces of `s` between the matches of `sep`, in order. */
  function Split(sep: Separator, s: string): seq<string> {
    SplitFrom(sep, s, 0)
  }

  /** The pieces glued back together with `c` between neighbours. */
  function Join(pieces: seq<string>, c: char): string
    requires |pieces| >= 1
  {
    if |pieces| == 1 then pieces[0] else pieces[0] + [c] + Join(pieces[1..], c)
  }

  /** `s` with the one space that follows a comma, where there is one, removed:
      the text the regular-expression split sees once every separator is
      shortened to a bare comma. */
  function DropSpaceAfterComma(s: string): string
    decreases |s|
  {
    if |s| == 0 then s
    else if s[0] == ',' && |s| >= 2 && s[1] == ' ' then [','] + DropSpaceAfterComma(s[2..])
    else [s[0]] + DropSpaceAfterComma(s[1..])
  }

  /** `SplitFrom` unfolded once at the first separator at or after `p`. */
  lemma SplitFromAt(sep: Separator, s: string, p: nat, i: nat)
    requires p <= i < |s| && i == IndexOf(s, Lead(sep), p)
    ensures SplitFrom(sep, s, p) == [s[p..i]] + SplitFrom(sep, s, i + MatchLength(sep, s, i))
  {
  }

  /** Without a separator after `p` the rest of the text is a single piece. */
  lemma SplitFromLast(sep: Separator, s: string, p: nat)
    requires p <= |s|
    requires forall k :: p <= k < |s| ==> s[k] != Lead(sep)
    ensures SplitFrom(sep, s, p) == [s[p..]]
  {
    IndexOfIs(s, Lead(sep), p, |s|);
  }

  /** Without a separator the text is a single piece. */
  lemma SplitWithoutLead(sep: Separator, s: string)
    requires Lead(sep) !in s
    ensures Split(sep, s) == [s]
  {
    SplitFromLast(sep, s, 0);
  }

  /** Occurrences of `c` add up over the parts `s[p..]` is cut into at `i` and `j`. */
  lemma CountThree(s: string, p: nat, i: nat, j: nat, c: char)
    requires p <= i <= j <= |s|
    ensures multiset(s[p..])[c] == multiset(s[p..i])[c] + multiset(s[i..j])[c] + multiset(s[j..])[c]
  {
    assert s[p..] == s[p..i] + s[i..j] + s[j..];
    assert multiset(s[p..]) == multiset(s[p..i]) + multiset(s[i..j]) + multiset(s[j..]);
  }

  /** A separator match holds exactly one lead character. */
  lemma MatchHoldsOneLead(sep: Separator, s: string, i: nat)
    requires i < |s| && s[i] == Lead(sep)
    ensures multiset(s[i..i + MatchLength(sep, s, i)])[Lead(sep)] == 1
  {
    var n := MatchLength(sep, s, i);
    if n == 1 {
      assert s[i..i + n] == [Lead(sep)];
    } else {
      assert s[i..i + n] == [',', ' '];
    }
  }

  /** The text between `p` and the first separator after it holds no lead character. */
  lemma PieceIsLeadFree(sep: Separator, s: string, p: nat)
    requires p <= |s|
    ensures Lead(sep) !in s[p..IndexOf(s, Lead(sep), p)]
  {
    IndexOfFirst(s, Lead(sep), p);
  }

  /** Cutting `s[p..]` at its first separator removes exactly one lead character. */
  lemma CountAtMatch(sep: Separator, s: string, p: nat, i: nat)
    requires p <= i < |s| && i == IndexOf(s, Lead(sep), p)
    ensures multiset(s[p..])[Lead(sep)] == multiset(s[i + MatchLength(sep, s, i)..])[Lead(sep)] + 1
  {
    var c := Lead(sep);
    PieceIsLeadFree(sep, s, p);
    CountThree(s, p, i, i + MatchLength(sep, s, i), c);
    assert multiset(s[p..i])[c] == 0;
    MatchHoldsOneLead(sep, s, i);
  }

  /** Without a separator after `p` the rest holds no lead character. */
  lemma CountAtEnd(sep: Separator, s: string, p: nat)
    requires p <= |s| && IndexOf(s, Lead(sep), p) == |s|
    ensures multiset(s[p..])[Lead(sep)] == 0
  {
    PieceIsLeadFree(sep, s, p);
  }

  /** The piece count: one more than the number of separator lead characters. */
  lemma {:induction false} SplitFromCount(sep: Separator, s: string, p: nat)
    requires p <= |s|
    ensures |SplitFrom(sep, s, p)| == multiset(s[p..])[Lead(sep)] + 1
    decreases |s| - p
  {
    var i := IndexOf(s, Lead(sep), p);
    if i == |s| {
      CountAtEnd(sep, s, p);
      SplitFromEnd(sep, s, p);
    } else {
      var j := i + MatchLength(sep, s, i);
      SplitFromCount(sep, s, j);
      CountAtMatch(sep, s, p, i);
      SplitFromAt(sep, s, p, i);
    }
  }

  /** The piece count of a whole text. */
  lemma SplitCount(sep: Separator, s: string)
    ensures |Split(sep, s)| == multiset(s)[Lead(sep)] + 1
  {
    SplitFromCount(sep, s, 0);
    assert s[0..] == s;
  }

  /** No piece contains the separator's lead character. */
  lemma {:induction false} SplitFromPiecesExcludeLead(sep: Separator, s: string, p: nat)
    requires p <= |s|
    ensures forall k :: 0 <= k < |SplitFrom(sep, s, p)| ==> Lead(sep) !in SplitFrom(sep, s, p)[k]
    decreases |s| - p
  {
    var i := IndexOf(s, Lead(sep), p);
    PieceIsLeadFree(sep, s, p);
    if i < |s| {
      SplitFromPiecesExcludeLead(sep, s, i + MatchLength(sep, s, i));
    }
  }

  /** No piece of a whole text contains the separator's lead character. */
  lemma SplitPiecesExcludeLead(sep: Separator, s: string)
    ensures forall k :: 0 <= k < |Split(sep, s)| ==> Lead(sep) !in Split(sep, s)[k]
  {
    SplitFromPiecesExcludeLead(sep, s, 0);
  }

  /** `Join` of a first piece in front of further pieces. */
  lemma JoinCons(first: string, rest: seq<string>, c: char)
    requires |rest| >= 1
    ensures Join([first] + rest, c) == first + [c] + Join(rest, c)
  {
    assert ([first] + rest)[1..] == rest;
  }

  /** `s[p..]` around the character at `i`. */
  lemma SliceAround(s: string, p: nat, i: nat)
    requires p <= i < |s|
    ensures s[p..] == s[p..i] + [s[i]] + s[i + 1..]
  {
  }

  /** Splitting on a one-character string and joining with it gives the text back. */
  lemma {:induction false} SplitFromJoin(c: char, s: string, p: nat)
    requires p <= |s|
    ensures Join(SplitFrom(Literal(c), s, p), c) == s[p..]
    decreases |s| - p
  {
    var i := IndexOf(s, c, p);
    if i < |s| {
      SplitFromJoin(c, s, i + 1);
      SplitFromAt(Literal(c), s, p, i);
      JoinCons(s[p..i], SplitFrom(Literal(c), s, i + 1), c);
      SliceAround(s, p, i);
    }
  }

  /** Splitting a whole text on `c` and joining with `c` gives it back. */
  lemma SplitJoin(c: char, s: string)
    ensures Join(Split(Literal(c), s), c) == s
  {
    SplitFromJoin(c, s, 0);
    assert s[0..] == s;
  }

  /** `s[p..]` laid out as a first piece, a separator character and the rest. */
  lemma SliceParts(s: string, p: nat, first: string, c: char, tail: string)
    requires p <= |s| && s[p..] == first + [c] + tail
    ensures p + |first| < |s|
    ensures s[p..p + |first|] == first && s[p + |first|] == c && s[p + |first| + 1..] == tail
  {
    assert s[p..p + |first|] == s[p..][..|first|];
    assert s[p + |first|] == s[p..][|first|];
    assert s[p + |first| + 1..] == s[p..][|first| + 1..];
  }

  /** A run free of `c` that starts at `p` and ends at a `c` (or the end) is where `IndexOf` stops. */
  lemma IndexOfAfterFreeRun(s: string, c: char, p: nat, first: string)
    requires p + |first| <= |s| && s[p..p + |first|] == first && c !in first
    requires p + |first| < |s| ==> s[p + |first|] == c
    ensures IndexOf(s, c, p) == p + |first|
  {
    forall k | p <= k < p + |first|
      ensures s[k] != c
    {
      assert s[k] == first[k - p];
    }
    IndexOfIs(s, c, p, p + |first|);
  }

  /** `SplitFrom` when no separator follows `p`. */
  lemma SplitFromEnd(sep: Separator, s: string, p: nat)
    requires p <= |s| && IndexOf(s, Lead(sep), p) == |s|
    ensures SplitFrom(sep, s, p) == [s[p..]]
  {
  }

  /** A text from `p` on that is the join of pieces free of `c` splits back into those pieces. */
  lemma {:induction false} JoinSplitFrom(c: char, s: string, p: nat, pieces: seq<string>)
    requires p <= |s|
    requires |pieces| >= 1 && s[p..] == Join(pieces, c)
    requires forall k :: 0 <= k < |pieces| ==> c !in pieces[k]
    ensures SplitFrom(Literal(c), s, p) == pieces
    decreases |pieces|
  {
    var first := pieces[0];
    if |pieces| == 1 {
      assert s[p..|s|] == first;
      IndexOfAfterFreeRun(s, c, p, first);
      SplitFromEnd(Literal(c), s, p);
    } else {
      var rest := pieces[1..];
      SliceParts(s, p, first, c, Join(rest, c));
      var i := p + |first|;
      IndexOfAfterFreeRun(s, c, p, first);
      SplitFromAt(Literal(c), s, p, i);
      JoinSplitFrom(c, s, i + 1, rest);
      assert pieces == [first] + rest;
    }
  }

  /** Joining pieces free of `c` with `c` and splitting again gives the pieces back. */
  lemma JoinSplit(c: char, pieces: seq<string>)
    requires |pieces| >= 1
    requires forall k :: 0 <= k < |pieces| ==> c !in pieces[k]
    ensures Split(Literal(c), Join(pieces, c)) == pieces
  {
    var s := Join(pieces, c);
    assert s[0..] == s;
    JoinSplitFrom(c, s, 0, pieces);
  }

  /** Joining with `c` after appending a last piece appends `c` and that piece. */
  lemma {:induction false} JoinAppend(pieces: seq<string>, c: char, last: string)
    requires |pieces| >= 1
    ensures Join(pieces + [last], c) == Join(pieces, c) + [c] + last
    decreases |pieces|
  {
    if |pieces| > 1 {
      JoinAppend(pieces[1..], c, last);
      assert (pieces + [last])[1..] == pieces[1..] + [last];
    }
  }

  /** Removing spaces after commas leaves a comma-free prefix untouched. */
  lemma {:induction false} DropSpaceKeepsCommaFreePrefix(a: string, b: string)
    requires ',' !in a
    ensures DropSpaceAfterComma(a + b) == a + DropSpaceAfterComma(b)
    decreases |a|
  {
    if |a| > 0 {
      DropSpaceKeepsCommaFreePrefix(a[1..], b);
      assert a[0] != ',';
      assert (a + b)[0] == a[0];
      assert (a + b)[1..] == a[1..] + b;
      assert a == [a[0]] + a[1..];
      assert DropSpaceAfterComma(a + b) == [a[0]] + DropSpaceAfterComma((a + b)[1..]);
    } else {
      assert a + b == b;
    }
  }

  /** A comma and the one space after it become a bare comma. */
  lemma DropAtComma(t: string)
    requires |t| > 0 && t[0] == ','
    ensures DropSpaceAfterComma(t) == [','] + DropSpaceAfterComma(t[MatchLength(CommaOptionalSpace, t, 0)..])
  {
  }

  /** `s[p..]` with the spaces after commas removed, cut at the first comma `i` after `p`. */
  lemma DropAtFirstComma(s: string, p: nat, i: nat)
    requires p <= i < |s| && i == IndexOf(s, ',', p)
    ensures DropSpaceAfterComma(s[p..])
            == s[p..i] + [','] + DropSpaceAfterComma(s[i + MatchLength(CommaOptionalSpace, s, i)..])
  {
    var n := MatchLength(CommaOptionalSpace, s, i);
    PieceIsLeadFree(CommaOptionalSpace, s, p);
    assert s[p..] == s[p..i] + s[i..];
    DropSpaceKeepsCommaFreePrefix(s[p..i], s[i..]);
    DropAtComma(s[i..]);
    assert MatchLength(CommaOptionalSpace, s[i..], 0) == n;
    assert s[i..][n..] == s[i + n..];
  }

  /** The regular-expression split, joined with bare commas, is the text with the
      one space after each comma removed: nothing else is lost or trimmed. */
  lemma {:induction false} SplitFromCommaJoin(s: string, p: nat)
    requires p <= |s|
    ensures Join(SplitFrom(CommaOptionalSpace, s, p), ',') == DropSpaceAfterComma(s[p..])
    decreases |s| - p
  {
    var sep := CommaOptionalSpace;
    var i := IndexOf(s, ',', p);
    PieceIsLeadFree(sep, s, p);
    if i == |s| {
      DropSpaceKeepsCommaFreePrefix(s[p..], []);
      assert s[p..] + [] == s[p..];
    } else {
      var j := i + MatchLength(sep, s, i);
      SplitFromCommaJoin(s, j);
      SplitFromAt(sep, s, p, i);
      JoinCons(s[p..i], SplitFrom(sep, s, j), ',');
      DropAtFirstComma(s, p, i);
    }
  }

  /** The regular-expression split is the one-character split on ',' of the
      text with the space after each comma removed. */
  lemma SplitCommaIsLiteralSplit(s: string)
    ensures Split(CommaOptionalSpace, s) == Split(Literal(','), DropSpaceAfterComma(s))
  {
    var pieces := Split(CommaOptionalSpace, s);
    SplitFromCommaJoin(s, 0);
    assert s[0..] == s;
    SplitPiecesExcludeLead(CommaOptionalSpace, s);
    JoinSplit(',', pieces);
  }

  /** One step of the split loop: a match at `q` closes the piece `s[p..q]`. */
  lemma MatcherStep(sep: Separator, s: string, pieces: seq<string>, p: nat, q: nat)
    requires p <= q < |s| && s[q] == Lead(sep)
    requires forall k :: p <= k < q ==> s[k] != Lead(sep)
    ensures pieces + SplitFrom(sep, s, p)
            == (pieces + [s[p..q]]) + SplitFrom(sep, s, q + MatchLength(sep, s, q))
  {
    IndexOfIs(s, Lead(sep), p, q);
    SplitFromAt(sep, s, p, q);
  }

  /** The ECMAScript split loop: `p` is the start of the current piece, `q`
      the position where a match is tried next. */
  method SplitByMatcher(sep: Separator, s: string) returns (pieces: seq<string>)
    ensures pieces == Split(sep, s)
  {
    pieces := [];
    var p, q := 0, 0;
    while q < |s|
      invariant 0 <= p <= q <= |s|
      invariant forall k :: p <= k < q ==> s[k] != Lead(sep)
      invariant pieces + SplitFrom(sep, s, p) == Split(sep, s)
    {
      var n := MatchLength(sep, s, q);
      if n == 0 {
        q := q + 1;
      } else {
        MatcherStep(sep, s, pieces, p, q);
        pieces, p := pieces + [s[p..q]], q + n;
        q := p;
      }
    }
    SplitFromLast(sep, s, p);
    pieces := pieces + [s[p..]];
  }
}
