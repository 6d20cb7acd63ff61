/**
 * Page navigation shared by the slide pages: the previous/next buttons, the
 * advance made when a page is completed, and the scan for pages whose
 * translation is still missing.
 */
module Navigation {

  /** The previous button: `Math.max(1, p - 1)`. */
  function PrevPage(p: int): (r: int)
    ensures r >= 1
    ensures p > 1 ==> r == p - 1
    ensures p <= 1 ==> r == 1
  {
    if p - 1 > 1 then p - 1 else 1
  }

  /** The next button: `Math.min(pageCount, p + 1)`. */
  function NextPage(p: int, pageCount: int): (r: int)
    ensures r <= pageCount
    ensures p < pageCount ==> r == p + 1
    ensures p >= pageCount ==> r == pageCount
  {
    if pageCount < p + 1 then pageCount else p + 1
  }

  /** Completing a page moves to the following one, except on the last page. */
  function Advance(p: int, pageCount: int): (r: int)
    ensures p < pageCount ==> r == p + 1
    ensures p >= pageCount ==> r == p
    ensures r - p <= 1
  {
    if p < pageCount then p + 1 else p
  }

  datatype Click = Prev | Next

  /** The page reached from p by a sequence of button clicks. */
  function Navigate(p: int, pageCount: int, clicks: seq<Click>): int
    decreases |clicks|
  {
    if |clicks| == 0 then p
    else
      var q := if clicks[0].Prev? then PrevPage(p) else NextPage(p, pageCount);
      Navigate(q, pageCount, clicks[1..])
  }

  /** Any sequence of clicks keeps a page of the document within the document. */
  lemma {:induction false} NavigateStaysInRange(p: int, pageCount: int, clicks: seq<Click>)
    requires 1 <= p <= pageCount
    ensures 1 <= Navigate(p, pageCount, clicks) <= pageCount
    decreases |clicks|
  {
    if |clicks| > 0 {
      var q := if clicks[0].Prev? then PrevPage(p) else NextPage(p, pageCount);
      NavigateStaysInRange(q, pageCount, clicks[1..]);
    }
  }

  /** Completing a page also keeps the page within the document. */
  lemma AdvanceStaysInRange(p: int, pageCount: int)
    requires 1 <= p <= pageCount
    ensures p <= Advance(p, pageCount) <= pageCount
  {
  }

  /** A page still needs work when it has no translation or an empty one. */
  predicate Missing(translations: map<int, seq<string>>, p: int)
  {
    p !in translations || translations[p] == []
  }

  /** The pages 1..pageCount whose translation is missing, in ascending order. */
  method MissingPages(translations: map<int, seq<string>>, pageCount: int) returns (missing: seq<int>)
    ensures forall a, b :: 0 <= a < b < |missing| ==> missing[a] < missing[b]
    ensures forall p :: p in missing <==> 1 <= p <= pageCount && Missing(translations, p)
  {
    missing := [];
    var i := 1;
    while i <= pageCount
      invariant 1 <= i <= if pageCount >= 1 then pageCount + 1 else 1
      invariant forall a, b :: 0 <= a < b < |missing| ==> missing[a] < missing[b]
      invariant forall k :: 0 <= k < |missing| ==> missing[k] < i
      invariant forall p :: p in missing <==> 1 <= p < i && Missing(translations, p)
    {
      if Missing(translations, i) {
        missing := missing + [i];
      }
      i := i + 1;
    }
  }
}
