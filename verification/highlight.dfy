/**
 * highlightText: the reference text is escaped, then for each mismatched
 * token in list order every whole-word, case-insensitive occurrence in the
 * text so far is wrapped in a red span that keeps the original spelling
 * (the `$1` of the replacement). One replacement pass is modelled as a scan
 * that cuts the text into plain characters and marked occurrences.
 */
module Highlight {
  import opened Base
  import Html

  const OpenTag: string := "<span style=\"color: red;\">"
  const CloseTag: string := "</span>"

  // ---------------------------------------------------------------------
  // Building the pattern
  // ---------------------------------------------------------------------

  /** The characters `word.replace(/[.*+?^${}()|[\]\\]/g, '\\$&')` escapes. */
  predicate IsSyntaxChar(c: char)
  {
    c == '.' || c == '*' || c == '+' || c == '?' || c == '^' || c == '$' || c == '{' || c == '}'
    || c == '(' || c == ')' || c == '|' || c == '[' || c == ']' || c == '\\'
  }

  function EscapeRegExp(w: string): (p: string)
    ensures |p| >= |w|
  {
    if |w| == 0 then ""
    else (if IsSyntaxChar(w[0]) then ['\\', w[0]] else [w[0]]) + EscapeRegExp(w[1..])
  }

  /**
   * The literal text a pattern denotes, when it is a plain sequence of
   * characters and identity escapes of syntax characters; None when it
   * contains an operator or any other escape.
   */
  function LiteralOf(p: string): Option<string>
    decreases |p|
  {
    if |p| == 0 then Some("")
    else if p[0] == '\\' then
      if |p| >= 2 && IsSyntaxChar(p[1]) then
        match LiteralOf(p[2..])
        case Some(rest) => Some([p[1]] + rest)
        case None => None
      else None
    else if IsSyntaxChar(p[0]) then None
    else
      match LiteralOf(p[1..])
      case Some(rest) => Some([p[0]] + rest)
      case None => None
  }

  /** After escaping, a token's pattern matches the token's characters literally. */
  lemma {:induction false} EscapedTokenIsLiteral(w: string)
    ensures LiteralOf(EscapeRegExp(w)) == Some(w)
  {
    if |w| > 0 {
      EscapedTokenIsLiteral(w[1..]);
      var p := EscapeRegExp(w);
      if IsSyntaxChar(w[0]) {
        assert p[2..] == EscapeRegExp(w[1..]);
      } else {
        assert p[1..] == EscapeRegExp(w[1..]);
      }
      assert w == [w[0]] + w[1..];
    }
  }

  // ---------------------------------------------------------------------
  // Whole-word, case-insensitive matching
  // ---------------------------------------------------------------------

  /** IsWordChar: [A-Za-z0-9_]. */
  predicate IsWordChar(c: char)
  {
    ('a' <= c <= 'z') || ('A' <= c <= 'Z') || ('0' <= c <= '9') || c == '_'
  }

  /** `\b` at position i: word-ness differs on its two sides (outside the text counts as non-word). */
  predicate IsBoundary(s: string, i: nat)
    requires i <= |s|
  {
    (i > 0 && IsWordChar(s[i - 1])) != (i < |s| && IsWordChar(s[i]))
  }

  /** Case folding for the `i` flag, restricted to ASCII letters. */
  function Fold(c: char): char
  {
    if 'a' <= c <= 'z' then (c as int - 32) as char else c
  }

  predicate CaseEq(a: string, b: string)
  {
    |a| == |b| && forall i :: 0 <= i < |a| ==> Fold(a[i]) == Fold(b[i])
  }

  /** `\b(tok)\b` matches at position i. */
  predicate MatchAt(s: string, i: nat, tok: string)
  {
    && i + |tok| <= |s|
    && IsBoundary(s, i)
    && CaseEq(s[i..i + |tok|], tok)
    && IsBoundary(s, i + |tok|)
  }

  // ---------------------------------------------------------------------
  // One replacement pass
  // ---------------------------------------------------------------------

  /** A piece of the text after one pass: an untouched character or a wrapped occurrence. */
  datatype Piece = Plain(c: char) | Mark(text: string)

  function PieceText(p: Piece): string
  {
    match p
    case Plain(c) => [c]
    case Mark(t) => t
  }

  /** The text the pieces were cut from. */
  function Underlying(ps: seq<Piece>): string
  {
    if |ps| == 0 then "" else PieceText(ps[0]) + Underlying(ps[1..])
  }

  /** The text after the pass: occurrences wrapped in the span, with their own spelling. */
  function Render(ps: seq<Piece>): string
  {
    if |ps| == 0 then ""
    else
      match ps[0]
      case Plain(c) => [c] + Render(ps[1..])
      case Mark(t) => OpenTag + t + CloseTag + Render(ps[1..])
  }

  /** Position in the text at which piece k starts. */
  function Offset(ps: seq<Piece>, k: nat): nat
    requires k <= |ps|
  {
    |Underlying(ps[..k])|
  }

  /** Where the search resumes after position i: past a non-empty match, else one further. */
  function Next(s: string, tok: string, i: nat): (n: nat)
    requires i < |s|
    ensures i < n <= |s|
  {
    if MatchAt(s, i, tok) && |tok| > 0 then i + |tok| else i + 1
  }

  /** The pieces produced at position i. */
  function Head(s: string, tok: string, i: nat): seq<Piece>
    requires i < |s|
  {
    if MatchAt(s, i, tok) then
      if |tok| > 0 then [Mark(s[i..i + |tok|])] else [Mark(""), Plain(s[i])]
    else [Plain(s[i])]
  }

  /**
   * The global replace from position i: the leftmost match is wrapped and the
   * search resumes after it; an empty token matches at every boundary, and
   * the search then moves on by one character.
   */
  function Scan(s: string, tok: string, i: nat): seq<Piece>
    requires i <= |s|
    decreases |s| - i
  {
    if i == |s| then (if MatchAt(s, i, tok) then [Mark("")] else [])
    else Head(s, tok, i) + Scan(s, tok, Next(s, tok, i))
  }

  /** One step of highlightText: replace every whole-word occurrence of tok. */
  function ReplaceWord(s: string, tok: string): string
  {
    Render(Scan(s, tok, 0))
  }

  lemma {:induction false} UnderlyingConcat(a: seq<Piece>, b: seq<Piece>)
    ensures Underlying(a + b) == Underlying(a) + Underlying(b)
  {
    if |a| > 0 {
      assert (a + b)[1..] == a[1..] + b;
      UnderlyingConcat(a[1..], b);
    } else {
      assert a + b == b;
    }
  }

  /** Offsets in a list that starts with `head` are shifted by the text of `head`. */
  lemma OffsetAfter(head: seq<Piece>, rest: seq<Piece>, k: nat)
    requires |head| <= k <= |head| + |rest|
    ensures Offset(head + rest, k) == |Underlying(head)| + Offset(rest, k - |head|)
  {
    assert (head + rest)[..k] == head + rest[..k - |head|];
    UnderlyingConcat(head, rest[..k - |head|]);
  }

  /** Offsets inside `head` are unaffected by what follows it. */
  lemma OffsetBefore(head: seq<Piece>, rest: seq<Piece>, k: nat)
    requires k <= |head|
    ensures Offset(head + rest, k) == Offset(head, k)
  {
    assert (head + rest)[..k] == head[..k];
  }

  /** The pieces made at one position spell the text up to the resume position, all starting at i. */
  lemma HeadSpells(s: string, tok: string, i: nat)
    requires i < |s|
    ensures Underlying(Head(s, tok, i)) == s[i..Next(s, tok, i)]
    ensures forall k :: 0 <= k < |Head(s, tok, i)| ==> Offset(Head(s, tok, i), k) == 0
  {
    var h := Head(s, tok, i);
    assert Offset(h, 0) == 0;
    if |h| == 2 {
      assert h[1..] == [Plain(s[i])];
      assert Underlying(h[1..]) == [s[i]];
      assert h[..1] == [Mark("")];
      assert Underlying(h[..1]) == "";
    } else {
      assert Underlying(h) == PieceText(h[0]);
    }
  }

  /** A piece wrapped at position i is an occurrence there, with the text's own spelling. */
  lemma HeadSound(s: string, tok: string, i: nat, k: nat)
    requires i < |s| && k < |Head(s, tok, i)| && Head(s, tok, i)[k].Mark?
    ensures MatchAt(s, i, tok) && Head(s, tok, i)[k].text == s[i..i + |tok|]
  {
  }

  /** A character left untouched at position i does not start an occurrence of a non-empty token. */
  lemma HeadComplete(s: string, tok: string, i: nat, k: nat)
    requires i < |s| && |tok| > 0 && k < |Head(s, tok, i)| && Head(s, tok, i)[k].Plain?
    ensures !MatchAt(s, i, tok)
  {
  }

  /** One pass loses nothing: the pieces spell the text again. */
  lemma {:induction false} ScanSpells(s: string, tok: string, i: nat)
    requires i <= |s|
    ensures Underlying(Scan(s, tok, i)) == s[i..]
    decreases |s| - i
  {
    if i < |s| {
      var n := Next(s, tok, i);
      ScanSpells(s, tok, n);
      HeadSpells(s, tok, i);
      UnderlyingConcat(Head(s, tok, i), Scan(s, tok, n));
      assert s[i..] == s[i..n] + s[n..];
    }
  }

  /** A wrapped piece found at position `at` is an occurrence there, with the text's own spelling. */
  predicate SoundAt(s: string, tok: string, at: nat, p: Piece)
  {
    p.Mark? ==> MatchAt(s, at, tok) && p.text == s[at..at + |tok|]
  }

  /** A character left untouched at position `at` does not start an occurrence. */
  predicate UntouchedAt(s: string, tok: string, at: nat, p: Piece)
  {
    p.Plain? ==> !MatchAt(s, at, tok)
  }

  /** Piece k of a scan from i is piece k of the head when k is inside it, at the same position. */
  lemma ScanPieceInHead(s: string, tok: string, i: nat, k: nat)
    requires i < |s| && k < |Head(s, tok, i)|
    ensures k < |Scan(s, tok, i)|
    ensures Scan(s, tok, i)[k] == Head(s, tok, i)[k]
    ensures Offset(Scan(s, tok, i), k) == 0
  {
    var head, rest := Head(s, tok, i), Scan(s, tok, Next(s, tok, i));
    assert Scan(s, tok, i) == head + rest;
    OffsetBefore(head, rest, k);
    HeadSpells(s, tok, i);
  }

  /** Piece k of a scan from i past the head is a piece of the scan from the resume position. */
  lemma ScanPieceInRest(s: string, tok: string, i: nat, k: nat)
    requires i < |s| && |Head(s, tok, i)| <= k < |Scan(s, tok, i)|
    ensures var j := k - |Head(s, tok, i)|;
            var rest := Scan(s, tok, Next(s, tok, i));
            && j < |rest|
            && Scan(s, tok, i)[k] == rest[j]
            && i + Offset(Scan(s, tok, i), k) == Next(s, tok, i) + Offset(rest, j)
  {
    var head, rest := Head(s, tok, i), Scan(s, tok, Next(s, tok, i));
    assert Scan(s, tok, i) == head + rest;
    OffsetAfter(head, rest, k);
    HeadSpells(s, tok, i);
  }

  /** Piece k of a scan from i, if wrapped, is an occurrence at its position. */
  lemma {:induction false} ScanPieceSound(s: string, tok: string, i: nat, k: nat)
    requires i <= |s| && k < |Scan(s, tok, i)|
    ensures SoundAt(s, tok, i + Offset(Scan(s, tok, i), k), Scan(s, tok, i)[k])
    decreases |s| - i
  {
    if i == |s| {
      assert Offset(Scan(s, tok, i), 0) == 0;
    } else if k < |Head(s, tok, i)| {
      ScanPieceInHead(s, tok, i, k);
      if Head(s, tok, i)[k].Mark? {
        HeadSound(s, tok, i, k);
      }
    } else {
      ScanPieceInRest(s, tok, i, k);
      ScanPieceSound(s, tok, Next(s, tok, i), k - |Head(s, tok, i)|);
    }
  }

  /**
   * Every wrapped piece is a case-insensitive occurrence of the token bounded
   * by `\b` on both sides, and carries the text's own spelling.
   */
  lemma ScanSound(s: string, tok: string, i: nat)
    requires i <= |s|
    ensures forall k :: 0 <= k < |Scan(s, tok, i)| ==> SoundAt(s, tok, i + Offset(Scan(s, tok, i), k), Scan(s, tok, i)[k])
  {
    forall k | 0 <= k < |Scan(s, tok, i)|
      ensures SoundAt(s, tok, i + Offset(Scan(s, tok, i), k), Scan(s, tok, i)[k])
    {
      ScanPieceSound(s, tok, i, k);
    }
  }

  /** Piece k of a scan from i, if untouched, does not start an occurrence of a non-empty token. */
  lemma {:induction false} ScanPieceComplete(s: string, tok: string, i: nat, k: nat)
    requires i <= |s| && |tok| > 0 && k < |Scan(s, tok, i)|
    ensures UntouchedAt(s, tok, i + Offset(Scan(s, tok, i), k), Scan(s, tok, i)[k])
    decreases |s| - i
  {
    if i == |s| {
    } else if k < |Head(s, tok, i)| {
      ScanPieceInHead(s, tok, i, k);
      if Head(s, tok, i)[k].Plain? {
        HeadComplete(s, tok, i, k);
      }
    } else {
      ScanPieceInRest(s, tok, i, k);
      ScanPieceComplete(s, tok, Next(s, tok, i), k - |Head(s, tok, i)|);
    }
  }

  /** For a non-empty token, no character left untouched starts an occurrence. */
  lemma ScanComplete(s: string, tok: string, i: nat)
    requires i <= |s| && |tok| > 0
    ensures forall k :: 0 <= k < |Scan(s, tok, i)| ==> UntouchedAt(s, tok, i + Offset(Scan(s, tok, i), k), Scan(s, tok, i)[k])
  {
    forall k | 0 <= k < |Scan(s, tok, i)|
      ensures UntouchedAt(s, tok, i + Offset(Scan(s, tok, i), k), Scan(s, tok, i)[k])
    {
      ScanPieceComplete(s, tok, i, k);
    }
  }

  // ---------------------------------------------------------------------
  // highlightText
  // ---------------------------------------------------------------------

  /** The loop over the differences, in list order, each pass applied to the previous output. */
  function HighlightFrom(h: string, differences: seq<string>): string
    decreases |differences|
  {
    if |differences| == 0 then h
    else HighlightFrom(ReplaceWord(h, differences[0]), differences[1..])
  }

  function HighlightText(text: string, differences: seq<string>): string
  {
    HighlightFrom(Html.EscapeHtml(text), differences)
  }

  /** With no differences the result is just the escaped text. */
  lemma NoDifferences(text: string)
    ensures HighlightText(text, []) == Html.EscapeHtml(text)
  {
  }

  /** highlightText is a left fold: one more token is one more pass over the previous output. */
  lemma {:induction false} HighlightSnoc(h: string, differences: seq<string>, d: string)
    ensures HighlightFrom(h, differences + [d]) == ReplaceWord(HighlightFrom(h, differences), d)
    decreases |differences|
  {
    if |differences| == 0 {
      assert differences + [d] == [d];
    } else {
      assert (differences + [d])[1..] == differences[1..] + [d];
      HighlightSnoc(ReplaceWord(h, differences[0]), differences[1..], d);
    }
  }

  /**
   * The passes do not skip markup: once a token has been wrapped, a later
   * token spelled "span" (in any case) matches the tag name just inserted.
   */
  lemma LaterTokenMatchesMarkup(rest: string)
    ensures MatchAt(OpenTag + rest, 1, "span") && MatchAt(OpenTag + rest, 1, "SPAN")
  {
    var h := OpenTag + rest;
    assert h[0] == '<' && h[5] == ' ';
    assert h[..|OpenTag|] == OpenTag;
    assert h[1] == 's' && h[2] == 'p' && h[3] == 'a' && h[4] == 'n';
    assert h[1..5] == "span";
  }
}
