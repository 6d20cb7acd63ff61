/**
 * The sentence-practice page: recording URLs and evaluation results kept per
 * page and per sentence, the default shown for a sentence without a result,
 * and the two ways an upload completion rewrites the results.
 *
 * A failed upload replaces the page's whole entry by a single flat result
 * object rather than a map of sentences. Such an entry has no sentence
 * indices as keys, so every sentence of the page reads as the default, and a
 * later success that spreads it contributes no sentences.
 */
module PdfTestPage {
  import opened Base
  import Json
  import PageStore

  datatype SentenceResult = SentenceResult(
    spokenText: string,
    differences: seq<Json.Value>,
    accuracy: string,
    suggestion: string,
    audioUrl: Url)

  /** What is shown for a sentence that has no result. */
  const EmptyResult := SentenceResult("", [], "", "", "")

  const UploadFailedMessage := "上傳失敗，請檢查網路連線或伺服器狀態。"

  /** The flat object written for a page when an upload fails. */
  const FailedResult := SentenceResult("", [], "", UploadFailedMessage, "")

  datatype PageEntry = Sentences(bySentence: map<int, SentenceResult>) | Flat(result: SentenceResult)

  type Results = map<int, PageEntry>

  /** The sentences of a page as `...(prev[pageNum] || {})` spreads them. */
  function SentencesOf(results: Results, page: int): (m: map<int, SentenceResult>)
    ensures page in results && results[page].Sentences? ==> m == results[page].bySentence
    ensures page !in results || results[page].Flat? ==> m == map[]
  {
    if page in results && results[page].Sentences? then results[page].bySentence else map[]
  }

  /** `resultsByPage[pageNum]?.[sentenceIndex] ?? default`. */
  function Lookup(results: Results, page: int, sentence: int): (r: SentenceResult)
    ensures sentence in SentencesOf(results, page) ==> r == SentencesOf(results, page)[sentence]
    ensures sentence !in SentencesOf(results, page) ==> r == EmptyResult
  {
    var m := SentencesOf(results, page);
    if sentence in m then m[sentence] else EmptyResult
  }

  /** The differences as stored: the items of an array, and [] for anything else. */
  function DifferencesOf(v: Json.Value): (d: seq<Json.Value>)
    ensures v.Arr? ==> d == v.items
    ensures !v.Arr? ==> d == []
  {
    if v.Arr? then v.items else []
  }

  /**
   * The stored result of a successful upload: each field as its string
   * coercion, absent fields as "", and differences only when they are an
   * array.
   */
  function Normalize(parsed: Json.Object, url: Url): (r: SentenceResult)
    ensures "spoken_text" !in parsed ==> r.spokenText == ""
    ensures "accuracy" !in parsed ==> r.accuracy == ""
    ensures "suggestion" !in parsed ==> r.suggestion == ""
    ensures "spoken_text" in parsed && parsed["spoken_text"].Str? ==> r.spokenText == parsed["spoken_text"].s
    ensures "accuracy" in parsed && parsed["accuracy"].Str? ==> r.accuracy == parsed["accuracy"].s
    ensures "suggestion" in parsed && parsed["suggestion"].Str? ==> r.suggestion == parsed["suggestion"].s
    ensures "differences" in parsed && parsed["differences"].Arr? ==> r.differences == parsed["differences"].items
    ensures !("differences" in parsed && parsed["differences"].Arr?) ==> r.differences == []
    ensures r.audioUrl == url
  {
    SentenceResult(
      Json.ToString(Json.WithDefault(Json.Get(parsed, "spoken_text"), Json.Str(""))),
      DifferencesOf(Json.WithDefault(Json.Get(parsed, "differences"), Json.Str(""))),
      Json.ToString(Json.WithDefault(Json.Get(parsed, "accuracy"), Json.Str(""))),
      Json.ToString(Json.WithDefault(Json.Get(parsed, "suggestion"), Json.Str(""))),
      url)
  }

  /** The page and sentence shown when recording stopped. */
  datatype Slot = Slot(page: int, sentence: int)

  /** `audioUrlsByPage[page][sentence] = url`, keeping the page's other sentences. */
  function StoreRecordingUrl(urls: map<int, map<int, Url>>, at: Slot, url: Url): (next: map<int, map<int, Url>>)
    ensures next.Keys == urls.Keys + {at.page}
    ensures at.sentence in next[at.page] && next[at.page][at.sentence] == url
    ensures forall s :: s != at.sentence && at.page in urls && s in urls[at.page] ==>
              s in next[at.page] && next[at.page][s] == urls[at.page][s]
    ensures forall p :: p != at.page && p in urls ==> next[p] == urls[p]
  {
    var prev := if at.page in urls then urls[at.page] else map[];
    PageStore.Store(urls, at.page, PageStore.Store(prev, at.sentence, url))
  }

  /** The upload completion for the slot captured when recording stopped. */
  function ApplyUpload(results: Results, at: Slot, reply: Json.Reply, url: Url): (next: Results)
    ensures next.Keys == results.Keys + {at.page}
    ensures forall p :: p != at.page && p in results ==> next[p] == results[p]
  {
    match reply
    case Replied(body) =>
      var entry := PageStore.Store(SentencesOf(results, at.page), at.sentence, Normalize(Json.Unwrap(body), url));
      PageStore.Store(results, at.page, Sentences(entry))
    case Failed =>
      PageStore.Store(results, at.page, Flat(FailedResult))
  }

  /**
   * A successful upload changes what is shown for its own slot only: every
   * other sentence, on this page or another, reads as before.
   */
  lemma SuccessWritesOnlyItsSlot(results: Results, at: Slot, body: Json.Object, url: Url)
    ensures var next := ApplyUpload(results, at, Json.Replied(body), url);
            && Lookup(next, at.page, at.sentence) == Normalize(Json.Unwrap(body), url)
            && forall p, s :: (p, s) != (at.page, at.sentence) ==> Lookup(next, p, s) == Lookup(results, p, s)
  {
    var next := ApplyUpload(results, at, Json.Replied(body), url);
    forall p, s | (p, s) != (at.page, at.sentence)
      ensures Lookup(next, p, s) == Lookup(results, p, s)
    {
      if p == at.page {
        assert SentencesOf(next, p) == SentencesOf(results, p)[at.sentence := Normalize(Json.Unwrap(body), url)];
      } else {
        assert SentencesOf(next, p) == SentencesOf(results, p);
      }
    }
  }

  /**
   * A failed upload wipes the page: every sentence of it reads as the empty
   * default afterwards, while other pages read as before.
   */
  lemma FailureClearsPage(results: Results, at: Slot, url: Url)
    ensures var next := ApplyUpload(results, at, Json.Failed, url);
            && next[at.page] == Flat(FailedResult)
            && (forall s :: Lookup(next, at.page, s) == EmptyResult)
            && (forall p, s :: p != at.page ==> Lookup(next, p, s) == Lookup(results, p, s))
  {
  }

  /** After a failure, a later success on the same page keeps only its own sentence. */
  lemma SuccessAfterFailure(results: Results, first: Slot, second: Slot, body: Json.Object, url1: Url, url2: Url)
    requires first.page == second.page
    ensures var next := ApplyUpload(ApplyUpload(results, first, Json.Failed, url1), second, Json.Replied(body), url2);
            && next[second.page] == Sentences(map[second.sentence := Normalize(Json.Unwrap(body), url2)])
            && forall s :: s != second.sentence ==> Lookup(next, second.page, s) == EmptyResult
  {
  }

  /** A reply whose `reply` field is a string yields the all-empty result. */
  lemma StringReplyIsEmpty(body: Json.Object, url: Url)
    requires "reply" in body && body["reply"].Str?
    ensures Normalize(Json.Unwrap(body), url) == EmptyResult.(audioUrl := url)
  {
  }

  /** The practice page's state: what is shown and what is stored. */
  datatype Practice = Practice(page: int, sentence: int, urls: map<int, map<int, Url>>, results: Results)

  /** Stopping stores the URL for the slot shown and captures that slot for the upload. */
  function StopRecording(st: Practice, url: Url): (res: (Practice, Slot))
    ensures res.1 == Slot(st.page, st.sentence)
    ensures res.0 == st.(urls := StoreRecordingUrl(st.urls, Slot(st.page, st.sentence), url))
  {
    var at := Slot(st.page, st.sentence);
    (st.(urls := StoreRecordingUrl(st.urls, at, url)), at)
  }

  /** The upload completion, whatever is shown by then. */
  function FinishUpload(st: Practice, at: Slot, reply: Json.Reply, url: Url): (st': Practice)
    ensures st'.page == st.page && st'.sentence == st.sentence && st'.urls == st.urls
    ensures st'.results == ApplyUpload(st.results, at, reply, url)
  {
    st.(results := ApplyUpload(st.results, at, reply, url))
  }

  /**
   * The result lands on the slot shown at stop even when the user moved to
   * another page and sentence while the upload was pending; what is shown
   * then is not touched by a success unless it is that very slot.
   */
  lemma ResultFollowsCapturedSlot(st: Practice, recUrl: Url, page: int, sentence: int, body: Json.Object, url: Url)
    ensures var (stopped, at) := StopRecording(st, recUrl);
            var moved := stopped.(page := page, sentence := sentence);
            var done := FinishUpload(moved, at, Json.Replied(body), url);
            && Lookup(done.results, st.page, st.sentence) == Normalize(Json.Unwrap(body), url)
            && ((page, sentence) != (st.page, st.sentence) ==>
                  Lookup(done.results, page, sentence) == Lookup(st.results, page, sentence))
  {
    SuccessWritesOnlyItsSlot(st.results, Slot(st.page, st.sentence), body, url);
  }
}
