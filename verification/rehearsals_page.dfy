/**
 * The rehearsal page: one analysis result and one recording URL per page,
 * written for the page shown when recording stopped.
 */
module RehearsalsPage {
  import opened Base
  import Json
  import PageStore
  import Highlight

  /** The fields are kept as the service sent them, falsy ones replaced by their defaults. */
  datatype PageResult = PageResult(speech: Json.Value, predict: Json.Value, suggestion: Json.Value, differences: Json.Value)

  /** What is shown for a page without a result. */
  const EmptyPageResult := PageResult(Json.Str(""), Json.Str(""), Json.Str(""), Json.Arr([]))

  /** `PageResults[pageNum] || default`; a stored result is an object, hence truthy. */
  function CurrentPage(results: map<int, PageResult>, page: int): (r: PageResult)
    ensures page in results ==> r == results[page]
    ensures page !in results ==> r == EmptyPageResult
  {
    if page in results then results[page] else EmptyPageResult
  }

  /** Each field `parsed.f || default`. */
  function Summarize(parsed: Json.Object): (r: PageResult)
    ensures Json.Truthy(r.speech) || r.speech == Json.Str("")
    ensures Json.Truthy(r.predict) || r.predict == Json.Str("")
    ensures Json.Truthy(r.suggestion) || r.suggestion == Json.Str("")
    ensures Json.Truthy(r.differences) || r.differences == Json.Arr([])
    ensures "speech" in parsed && Json.Truthy(parsed["speech"]) ==> r.speech == parsed["speech"]
    ensures "predict" in parsed && Json.Truthy(parsed["predict"]) ==> r.predict == parsed["predict"]
    ensures "suggestion" in parsed && Json.Truthy(parsed["suggestion"]) ==> r.suggestion == parsed["suggestion"]
    ensures "differences" in parsed && Json.Truthy(parsed["differences"]) ==> r.differences == parsed["differences"]
  {
    PageResult(
      Json.Or(Json.Get(parsed, "speech"), Json.Str("")),
      Json.Or(Json.Get(parsed, "predict"), Json.Str("")),
      Json.Or(Json.Get(parsed, "suggestion"), Json.Str("")),
      Json.Or(Json.Get(parsed, "differences"), Json.Arr([])))
  }

  /** The analysis completion for the page captured at stop; a failure changes nothing. */
  function ApplyAnalysis(results: map<int, PageResult>, page: int, reply: Json.Reply): (next: map<int, PageResult>)
    ensures reply.Failed? ==> next == results
    ensures reply.Replied? ==> next.Keys == results.Keys + {page}
    ensures forall p :: p != page && p in results ==> next[p] == results[p]
  {
    match reply
    case Failed => results
    case Replied(body) => PageStore.Store(results, page, Summarize(Json.Unwrap(body)))
  }

  /**
   * After a successful analysis the page captured at stop shows the
   * summarised reply, and every other page shows what it showed before.
   */
  lemma AnalysisWritesOnlyItsPage(results: map<int, PageResult>, page: int, body: Json.Object)
    ensures var next := ApplyAnalysis(results, page, Json.Replied(body));
            && CurrentPage(next, page) == Summarize(Json.Unwrap(body))
            && forall p :: p != page ==> CurrentPage(next, p) == CurrentPage(results, p)
  {
  }

  /** A reply whose `reply` field is a string leaves the page showing the empty default. */
  lemma StringReplyShowsDefault(results: map<int, PageResult>, page: int, body: Json.Object)
    requires "reply" in body && body["reply"].Str?
    ensures CurrentPage(ApplyAnalysis(results, page, Json.Replied(body)), page) == EmptyPageResult
  {
  }

  /** The rehearsal page's state. */
  datatype Rehearsal = Rehearsal(page: int, urls: map<int, Url>, results: map<int, PageResult>)

  /** Stopping stores the recording URL for the page shown and captures that page for the analysis. */
  function StopRecording(st: Rehearsal, url: Url): (res: (Rehearsal, int))
    ensures res.1 == st.page
    ensures res.0.urls == PageStore.Store(st.urls, st.page, url)
    ensures res.0.page == st.page && res.0.results == st.results
  {
    (st.(urls := PageStore.Store(st.urls, st.page, url)), st.page)
  }

  /** The analysis lands on the captured page even when the user moved on meanwhile. */
  lemma AnalysisFollowsCapturedPage(st: Rehearsal, url: Url, shown: int, body: Json.Object)
    ensures var (stopped, page) := StopRecording(st, url);
            var done := ApplyAnalysis(stopped.results, page, Json.Replied(body));
            && CurrentPage(done, st.page) == Summarize(Json.Unwrap(body))
            && (shown != st.page ==> CurrentPage(done, shown) == CurrentPage(st.results, shown))
  {
    AnalysisWritesOnlyItsPage(st.results, st.page, body);
  }

  /** A string as `for...of` visits it: one single-character string per character. */
  function Characters(s: string): (cs: seq<string>)
    ensures |cs| == |s| && forall i :: 0 <= i < |s| ==> cs[i] == [s[i]]
  {
    seq(|s|, i requires 0 <= i < |s| => [s[i]])
  }

  /**
   * The tokens `for (const word of differences)` visits: a string yields its
   * characters one by one, an array of strings its items. None stands for a
   * throw: a number, boolean or object is not iterable, and an item that is
   * not a string has no `replace`.
   */
  function Words(d: Json.Value): Option<seq<string>>
  {
    match d
    case Str(s) => Some(Characters(s))
    case Arr(items) =>
      if forall i :: 0 <= i < |items| ==> items[i].Str? then Some(seq(|items|, i requires 0 <= i < |items| => items[i].s))
      else None
    case _ => None
  }

  /**
   * What the page renders for a stored result:
   * `highlightText(predict || '', differences || [])`, or None when that
   * throws because `predict` is not a string (only strings have `replace`)
   * or the differences cannot be iterated as strings.
   */
  function Shown(r: PageResult): Option<string>
  {
    var text := Json.Or(Some(r.predict), Json.Str(""));
    var words := Words(Json.Or(Some(r.differences), Json.Arr([])));
    if text.Str? && words.Some? then Some(Highlight.HighlightText(text.s, words.value)) else None
  }

  /** A field that, when present and truthy, is a string. */
  predicate StringOrFalsy(parsed: Json.Object, key: string)
  {
    key in parsed && Json.Truthy(parsed[key]) ==> parsed[key].Str?
  }

  /** A field that, when present and truthy, is a string or an array of strings. */
  predicate WordsOrFalsy(parsed: Json.Object, key: string)
  {
    key in parsed && Json.Truthy(parsed[key]) ==>
      || parsed[key].Str?
      || (parsed[key].Arr? && forall i :: 0 <= i < |parsed[key].items| ==> parsed[key].items[i].Str?)
  }

  /**
   * A summarised reply can be displayed exactly when its `predict` is a
   * string or falsy and its `differences` are a string, an array of strings,
   * or falsy; with an array of strings the page shows the reference text
   * highlighted by exactly those tokens.
   */
  lemma SummaryShownIff(parsed: Json.Object)
    ensures Shown(Summarize(parsed)).Some? <==> StringOrFalsy(parsed, "predict") && WordsOrFalsy(parsed, "differences")
    ensures var r := Summarize(parsed);
            r.predict.Str? && r.differences.Arr? && Shown(r).Some? ==>
              exists words: seq<string> ::
                && |words| == |r.differences.items|
                && (forall i :: 0 <= i < |words| ==> Json.Str(words[i]) == r.differences.items[i])
                && Shown(r) == Some(Highlight.HighlightText(r.predict.s, words))
  {
    var r := Summarize(parsed);
    if r.predict.Str? && r.differences.Arr? && Shown(r).Some? {
      var words := Words(r.differences).value;
      assert forall i :: 0 <= i < |words| ==> Json.Str(words[i]) == r.differences.items[i];
    }
  }

  /** A string `differences` is iterated character by character: each character is a token. */
  lemma StringDifferencesAreCharacters(r: PageResult)
    requires r.predict.Str? && r.differences.Str? && r.differences.s != ""
    ensures Shown(r) == Some(Highlight.HighlightText(r.predict.s, Characters(r.differences.s)))
  {
  }
}
