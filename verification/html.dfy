/**
 * escapeHtml: each of & < > " ' becomes its entity, every other character is
 * kept. Its partner is the entity decoder below, which undoes it.
 */
module Html {
  import opened Base

  predicate IsSpecial(c: char)
  {
    c == '&' || c == '<' || c == '>' || c == '"' || c == '\''
  }

  /** The replacement map of escapeHtml, extended by the identity. */
  function Entity(c: char): (r: string)
    ensures IsSpecial(c) ==> |r| > 1 && r[0] == '&' && r[|r| - 1] == ';'
    ensures !IsSpecial(c) ==> r == [c]
  {
    match c
    case '&' => "&amp;"
    case '<' => "&lt;"
    case '>' => "&gt;"
    case '"' => "&quot;"
    case '\'' => "&#039;"
    case _ => [c]
  }

  /** Characters that can never appear in escaped text. */
  predicate IsMarkup(c: char)
  {
    c == '<' || c == '>' || c == '"' || c == '\''
  }

  function EscapeHtml(s: string): (r: string)
    ensures |r| >= |s|
    ensures forall i :: 0 <= i < |r| ==> !IsMarkup(r[i])
    ensures (forall i :: 0 <= i < |s| ==> !IsSpecial(s[i])) ==> r == s
  {
    if |s| == 0 then "" else Entity(s[0]) + EscapeHtml(s[1..])
  }

  /** Escaping works character by character, so it distributes over concatenation. */
  lemma {:induction false} EscapeConcat(a: string, b: string)
    ensures EscapeHtml(a + b) == EscapeHtml(a) + EscapeHtml(b)
  {
    if |a| > 0 {
      assert (a + b)[0] == a[0];
      assert (a + b)[1..] == a[1..] + b;
      EscapeConcat(a[1..], b);
    } else {
      assert a + b == b;
    }
  }

  predicate HasPrefix(s: string, p: string)
  {
    |p| <= |s| && s[..|p|] == p
  }

  /** The entity at the start of s, if any: the character it stands for and its length. */
  function EntityAt(s: string): (r: Option<(char, nat)>)
    ensures r.Some? ==> 0 < r.value.1 <= |s|
  {
    if HasPrefix(s, "&amp;") then Some(('&', 5))
    else if HasPrefix(s, "&lt;") then Some(('<', 4))
    else if HasPrefix(s, "&gt;") then Some(('>', 4))
    else if HasPrefix(s, "&quot;") then Some(('"', 6))
    else if HasPrefix(s, "&#039;") then Some(('\'', 6))
    else None
  }

  /** Decodes the five entities escapeHtml produces; anything else is copied. */
  function Unescape(s: string): string
    decreases |s|
  {
    if |s| == 0 then ""
    else
      match EntityAt(s)
      case Some((c, k)) => [c] + Unescape(s[k..])
      case None => [s[0]] + Unescape(s[1..])
  }

  /** The recogniser reads back exactly the entity escapeHtml wrote. */
  lemma EntityAtEntity(c: char, rest: string)
    ensures IsSpecial(c) ==> EntityAt(Entity(c) + rest) == Some((c, |Entity(c)|))
    ensures !IsSpecial(c) ==> EntityAt(Entity(c) + rest) == None
  {
    var e := Entity(c) + rest;
    if c == '&' {
      assert e[..5] == "&amp;";
    } else if c == '<' {
      assert e[..4] == "&lt;" && e[1] == 'l';
    } else if c == '>' {
      assert e[..4] == "&gt;" && e[1] == 'g';
    } else if c == '"' {
      assert e[..6] == "&quot;" && e[1] == 'q';
    } else if c == '\'' {
      assert e[..6] == "&#039;" && e[1] == '#';
    } else {
      assert e[0] == c;
    }
  }

  /** Decoding one escaped character followed by further text. */
  lemma UnescapeEntity(c: char, rest: string)
    ensures Unescape(Entity(c) + rest) == [c] + Unescape(rest)
  {
    var e := Entity(c) + rest;
    EntityAtEntity(c, rest);
    assert e[|Entity(c)|..] == rest;
    if !IsSpecial(c) {
      assert e[1..] == rest;
    }
  }

  /** Escaping loses nothing: decoding the escaped text gives back the original. */
  lemma {:induction false} UnescapeEscape(s: string)
    ensures Unescape(EscapeHtml(s)) == s
  {
    if |s| > 0 {
      UnescapeEscape(s[1..]);
      UnescapeEntity(s[0], EscapeHtml(s[1..]));
      assert s == [s[0]] + s[1..];
    }
  }
}
