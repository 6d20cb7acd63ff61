/**
 * Cleaning of a translation reply before it is stored for a page:
 * `reply.replace(/^"(.*)"$/, '$1')`, then `.split(/\n{2,}/)`, then dropping
 * the lines that are blank after `trim()`.
 */
module Translation {

  /** The characters `.` refuses to match. */
  predicate IsLineTerminator(c: char)
  {
    c == '\n' || c == '\r' || c == '\U{2028}' || c == '\U{2029}'
  }

  /** `^"(.*)"$` matches: quoted at both ends, no line terminator inside. */
  predicate IsQuotedLine(s: string)
  {
    && |s| >= 2 && s[0] == '"' && s[|s| - 1] == '"'
    && forall i :: 1 <= i < |s| - 1 ==> !IsLineTerminator(s[i])
  }

  /** Strip one pair of surrounding quotes from a single-line reply; leave anything else unchanged. */
  function StripQuotes(reply: string): (r: string)
    ensures IsQuotedLine(reply) ==> reply == "\"" + r + "\""
    ensures !IsQuotedLine(reply) ==> r == reply
  {
    if IsQuotedLine(reply) then reply[1..|reply| - 1] else reply
  }

  /** Quoting a single line and stripping gives the line back, inner quotes included. */
  lemma StripQuotesOfQuoted(t: string)
    requires forall i :: 0 <= i < |t| ==> !IsLineTerminator(t[i])
    ensures StripQuotes("\"" + t + "\"") == t
  {
    var q := "\"" + t + "\"";
    assert forall i :: 1 <= i < |q| - 1 ==> q[i] == t[i - 1];
    assert IsQuotedLine(q);
  }

  // ---------------------------------------------------------------------
  // Splitting on runs of two or more newlines
  // ---------------------------------------------------------------------

  predicate DoubleNewlineAt(s: string, j: nat)
  {
    j + 1 < |s| && s[j] == '\n' && s[j + 1] == '\n'
  }

  predicate NoDoubleNewline(s: string)
  {
    forall j :: 0 <= j < |s| ==> !DoubleNewlineAt(s, j)
  }

  /** End of the run of newlines starting at q. */
  function RunEnd(s: string, q: nat): (e: nat)
    requires q <= |s|
    ensures q <= e <= |s|
    ensures forall j :: q <= j < e ==> s[j] == '\n'
    ensures e == |s| || s[e] != '\n'
    decreases |s| - q
  {
    if q < |s| && s[q] == '\n' then RunEnd(s, q + 1) else q
  }

  function Newlines(n: nat): (r: string)
    ensures |r| == n && forall i :: 0 <= i < n ==> r[i] == '\n'
  {
    seq(n, _ => '\n')
  }

  /** The pieces joined again by their separating runs of newlines. */
  function Weave(pieces: seq<string>, gaps: seq<nat>): string
    requires |pieces| == |gaps| + 1
    decreases |gaps|
  {
    if |gaps| == 0 then pieces[0]
    else pieces[0] + Newlines(gaps[0]) + Weave(pieces[1..], gaps[1..])
  }

  /** The pieces of a split, and the lengths of the newline runs between them. */
  datatype Parts = Parts(pieces: seq<string>, gaps: seq<nat>)

  predicate SplitShape(src: string, r: Parts)
  {
    && |r.pieces| == |r.gaps| + 1
    && src == Weave(r.pieces, r.gaps)
    && (forall k :: 0 <= k < |r.gaps| ==> r.gaps[k] >= 2)
    && (forall k :: 0 <= k < |r.pieces| ==> NoDoubleNewline(r.pieces[k]))
    && (forall k :: 0 <= k < |r.gaps| ==> r.pieces[k] == [] || r.pieces[k][|r.pieces[k]| - 1] != '\n')
    && (forall k :: 0 < k < |r.pieces| ==> r.pieces[k] == [] || r.pieces[k][0] != '\n')
  }

  /**
   * The split algorithm: the current piece starts at p, and q scans for the
   * leftmost place where two newlines begin; the whole run is consumed as
   * one separator and the next piece starts after it.
   */
  function SplitFrom(s: string, p: nat, q: nat): (r: Parts)
    requires p <= q <= |s|
    ensures |r.pieces| == |r.gaps| + 1
    decreases |s| - q
  {
    if q + 1 >= |s| then Parts([s[p..]], [])
    else if s[q] == '\n' && s[q + 1] == '\n' then
      var e := RunEnd(s, q);
      var rest := SplitFrom(s, e, e);
      Parts([s[p..q]] + rest.pieces, [e - q] + rest.gaps)
    else SplitFrom(s, p, q + 1)
  }

  /** Joining the pieces with the consumed runs gives the text back; every run has two or more newlines. */
  lemma {:induction false} SplitReassembles(s: string, p: nat, q: nat)
    requires p <= q <= |s|
    ensures s[p..] == Weave(SplitFrom(s, p, q).pieces, SplitFrom(s, p, q).gaps)
    ensures forall k :: 0 <= k < |SplitFrom(s, p, q).gaps| ==> SplitFrom(s, p, q).gaps[k] >= 2
    decreases |s| - q
  {
    if q + 1 >= |s| {
    } else if s[q] == '\n' && s[q + 1] == '\n' {
      var e := RunEnd(s, q);
      SplitReassembles(s, e, e);
      var rest := SplitFrom(s, e, e);
      var r := SplitFrom(s, p, q);
      assert r.pieces[1..] == rest.pieces && r.gaps[1..] == rest.gaps;
      assert s[q..e] == Newlines(e - q);
      assert s[p..] == s[p..q] + s[q..e] + s[e..];
    } else {
      SplitReassembles(s, p, q + 1);
    }
  }

  /** No piece contains two newlines in a row. */
  lemma {:induction false} SplitPiecesSingleSpaced(s: string, p: nat, q: nat)
    requires p <= q <= |s|
    requires forall j :: p <= j < q ==> !DoubleNewlineAt(s, j)
    ensures forall k :: 0 <= k < |SplitFrom(s, p, q).pieces| ==> NoDoubleNewline(SplitFrom(s, p, q).pieces[k])
    decreases |s| - q
  {
    var r := SplitFrom(s, p, q);
    if q + 1 >= |s| {
      assert forall j :: q <= j < |s| ==> !DoubleNewlineAt(s, j);
      SliceSingleSpaced(s, p, |s|);
      assert r == Parts([s[p..]], []);
      assert s[p..] == s[p..|s|];
    } else if s[q] == '\n' && s[q + 1] == '\n' {
      var e := RunEnd(s, q);
      SplitPiecesSingleSpaced(s, e, e);
      SliceSingleSpaced(s, p, q);
      assert r.pieces == [s[p..q]] + SplitFrom(s, e, e).pieces;
    } else {
      SplitPiecesSingleSpaced(s, p, q + 1);
    }
  }

  lemma SliceSingleSpaced(s: string, p: nat, q: nat)
    requires p <= q <= |s|
    requires forall j :: p <= j < q && j + 1 < q ==> !DoubleNewlineAt(s, j)
    ensures NoDoubleNewline(s[p..q])
  {
    forall j | 0 <= j < q - p
      ensures !DoubleNewlineAt(s[p..q], j)
    {
      if j + 1 < q - p {
        assert !DoubleNewlineAt(s, p + j);
      }
    }
  }

  /**
   * Each run is consumed whole: a piece before a run does not end in a
   * newline, and a piece after a run does not start with one.
   */
  lemma {:induction false} SplitRunsMaximal(s: string, p: nat, q: nat)
    requires p <= q <= |s|
    requires forall j :: p <= j < q ==> !DoubleNewlineAt(s, j)
    requires p > 0 ==> p == |s| || s[p] != '\n'
    ensures var r := SplitFrom(s, p, q);
            forall k :: 0 <= k < |r.gaps| ==> r.pieces[k] == [] || r.pieces[k][|r.pieces[k]| - 1] != '\n'
    ensures var r := SplitFrom(s, p, q);
            forall k :: 0 < k < |r.pieces| ==> r.pieces[k] == [] || r.pieces[k][0] != '\n'
    ensures p > 0 ==> SplitFrom(s, p, q).pieces[0] == [] || SplitFrom(s, p, q).pieces[0][0] != '\n'
    decreases |s| - q
  {
    var r := SplitFrom(s, p, q);
    if q + 1 >= |s| {
    } else if s[q] == '\n' && s[q + 1] == '\n' {
      var e := RunEnd(s, q);
      SplitRunsMaximal(s, e, e);
      var rest := SplitFrom(s, e, e);
      assert r.pieces == [s[p..q]] + rest.pieces && r.gaps == [e - q] + rest.gaps;
      if p < q {
        assert !DoubleNewlineAt(s, q - 1);
      }
    } else {
      SplitRunsMaximal(s, p, q + 1);
    }
  }

  /** `s.split(/\n{2,}/)`, with the full shape of its result. */
  function SplitParagraphs(s: string): (r: Parts)
    ensures SplitShape(s, r)
  {
    SplitReassembles(s, 0, 0);
    SplitPiecesSingleSpaced(s, 0, 0);
    SplitRunsMaximal(s, 0, 0);
    assert s[0..] == s;
    SplitFrom(s, 0, 0)
  }

  // ---------------------------------------------------------------------
  // Dropping blank lines
  // ---------------------------------------------------------------------

  /** White space for `trim()`, restricted to the ASCII set. */
  predicate IsWhitespace(c: char)
  {
    c == ' ' || c == '\t' || c == '\n' || c == '\r' || c == '\U{000B}' || c == '\U{000C}'
  }

  function TrimStart(s: string): (r: string)
    ensures |r| <= |s| && r == s[|s| - |r|..]
    ensures r == [] || !IsWhitespace(r[0])
  {
    if |s| > 0 && IsWhitespace(s[0]) then TrimStart(s[1..]) else s
  }

  function TrimEnd(s: string): (r: string)
    ensures |r| <= |s| && r == s[..|r|]
    ensures r == [] || !IsWhitespace(r[|r| - 1])
  {
    if |s| > 0 && IsWhitespace(s[|s| - 1]) then TrimEnd(s[..|s| - 1]) else s
  }

  function Trim(s: string): string
  {
    TrimEnd(TrimStart(s))
  }

  predicate IsBlank(line: string)
  {
    Trim(line) == ""
  }

  /** A line is blank exactly when every character of it is white space. */
  lemma {:induction false} BlankIffWhitespace(line: string)
    ensures IsBlank(line) <==> forall i :: 0 <= i < |line| ==> IsWhitespace(line[i])
  {
    var t := TrimStart(line);
    var k := |line| - |t|;
    assert forall i :: 0 <= i < k ==> IsWhitespace(line[i]) by {
      TrimStartSkipsWhitespace(line);
    }
    if t == [] {
      assert Trim(line) == TrimEnd([]);
    } else {
      assert line[k] == t[0];
      assert Trim(line) != "" by {
        var e := TrimEnd(t);
        if e == [] {
          TrimEndSkipsWhitespace(t);
        }
      }
    }
  }

  lemma {:induction false} TrimStartSkipsWhitespace(s: string)
    ensures forall i :: 0 <= i < |s| - |TrimStart(s)| ==> IsWhitespace(s[i])
  {
    if |s| > 0 && IsWhitespace(s[0]) {
      TrimStartSkipsWhitespace(s[1..]);
    }
  }

  lemma {:induction false} TrimEndSkipsWhitespace(s: string)
    ensures forall i :: |TrimEnd(s)| <= i < |s| ==> IsWhitespace(s[i])
  {
    if |s| > 0 && IsWhitespace(s[|s| - 1]) {
      TrimEndSkipsWhitespace(s[..|s| - 1]);
    }
  }

  /** `.filter(line => line.trim() !== '')`. */
  function DropBlank(lines: seq<string>): (r: seq<string>)
    ensures |r| <= |lines|
    ensures forall k :: 0 <= k < |r| ==> !IsBlank(r[k]) && r[k] in lines
  {
    if |lines| == 0 then []
    else (if IsBlank(lines[0]) then [] else [lines[0]]) + DropBlank(lines[1..])
  }

  /** Filtering keeps source order: it distributes over concatenation. */
  lemma {:induction false} DropBlankConcat(a: seq<string>, b: seq<string>)
    ensures DropBlank(a + b) == DropBlank(a) + DropBlank(b)
  {
    if |a| > 0 {
      var head := if IsBlank(a[0]) then [] else [a[0]];
      assert (a + b)[0] == a[0];
      assert (a + b)[1..] == a[1..] + b;
      assert DropBlank(a + b) == head + DropBlank(a[1..] + b);
      assert DropBlank(a) == head + DropBlank(a[1..]);
      DropBlankConcat(a[1..], b);
    } else {
      assert a + b == b;
    }
  }

  /** Filtering keeps every non-blank line, and keeps it once per occurrence. */
  lemma {:induction false} DropBlankKeeps(lines: seq<string>, k: nat)
    requires k < |lines| && !IsBlank(lines[k])
    ensures lines[k] in DropBlank(lines)
  {
    if k > 0 {
      DropBlankKeeps(lines[1..], k - 1);
      assert lines[1..][k - 1] == lines[k];
    }
  }

  /**
   * The lines stored for a page: every one is non-blank, none contains two
   * newlines in a row, and each is one of the reply's paragraphs.
   */
  function CleanReply(reply: string): (lines: seq<string>)
    ensures forall k :: 0 <= k < |lines| ==> !IsBlank(lines[k]) && NoDoubleNewline(lines[k])
    ensures forall k :: 0 <= k < |lines| ==> lines[k] in SplitParagraphs(StripQuotes(reply)).pieces
  {
    DropBlank(SplitParagraphs(StripQuotes(reply)).pieces)
  }
}
