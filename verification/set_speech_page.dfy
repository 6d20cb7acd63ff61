/**
 * The speech-preparation page: per-page notes, recording URLs and
 * translations, the transcription of a recording into the page's note, the
 * "complete page" action with its translation request, and the check made
 * before moving on to practice.
 *
 * An asynchronous completion is an explicit event that carries the page (and
 * page count) captured in the handler's closure when the request was issued;
 * the user may navigate in between.
 */
module SetSpeechPage {
  import opened Base
  import Json
  import Translation
  import Navigation
  import PageStore

  datatype Editor = Editor(
    pdfLoaded: bool,
    bufferLoaded: bool,
    page: int,
    pageCount: int,
    notes: map<int, Json.Value>,
    translations: map<int, seq<string>>,
    urls: map<int, Url>)

  /** Nothing loaded yet: page 1 of 0, all stores empty. */
  const Initial := Editor(false, false, 1, 0, map[], map[], map[])

  /** Typing in the note box stores the text under the page shown. */
  function EditNote(e: Editor, text: string): (e': Editor)
    ensures e'.notes.Keys == e.notes.Keys + {e.page}
    ensures e'.notes[e.page] == Json.Str(text)
    ensures forall p :: p in e.notes && p != e.page ==> e'.notes[p] == e.notes[p]
    ensures e'.translations == e.translations && e'.urls == e.urls && e'.page == e.page
  {
    e.(notes := PageStore.Store(e.notes, e.page, Json.Str(text)))
  }

  /** `notesByPage[pageNum] || ""`: the note sent for translation. */
  function CurrentNote(notes: map<int, Json.Value>, p: int): (v: Json.Value)
    ensures p in notes && Json.Truthy(notes[p]) ==> v == notes[p]
    ensures !(p in notes && Json.Truthy(notes[p])) ==> v == Json.Str("")
    ensures Json.Truthy(v) || v == Json.Str("")
  {
    if p in notes && Json.Truthy(notes[p]) then notes[p] else Json.Str("")
  }

  /** A transcription request remembers the page on which recording stopped. */
  datatype TranscribeRequest = TranscribeRequest(page: int)

  /** Stopping a recording stores its URL under the page shown and sends it for transcription. */
  function StopRecording(e: Editor, url: Url): (res: (Editor, TranscribeRequest))
    ensures res.1.page == e.page
    ensures res.0.urls == PageStore.Store(e.urls, e.page, url)
    ensures res.0.notes == e.notes && res.0.translations == e.translations && res.0.page == e.page
  {
    (e.(urls := PageStore.Store(e.urls, e.page, url)), TranscribeRequest(e.page))
  }

  /**
   * `result.transcript`; a missing field is undefined, which like null is
   * falsy, so it is kept as null.
   */
  function Transcript(body: Json.Object): (v: Json.Value)
    ensures "transcript" in body ==> v == body["transcript"]
    ensures "transcript" !in body ==> !Json.Truthy(v)
  {
    Json.WithDefault(Json.Get(body, "transcript"), Json.Null)
  }

  /** The transcription reply writes the note of the captured page; a failure changes nothing. */
  function FinishTranscription(e: Editor, req: TranscribeRequest, reply: Json.Reply): (e': Editor)
    ensures reply.Failed? ==> e' == e
    ensures reply.Replied? ==> e'.notes == PageStore.Store(e.notes, req.page, Transcript(reply.body))
    ensures e'.page == e.page && e'.urls == e.urls && e'.translations == e.translations
  {
    match reply
    case Failed => e
    case Replied(body) => e.(notes := PageStore.Store(e.notes, req.page, Transcript(body)))
  }

  /** The translation request remembers the page, the page count and the note. */
  datatype TranslateRequest = TranslateRequest(page: int, pageCount: int, note: Json.Value)

  /**
   * "Complete page": without a document nothing happens; otherwise the page
   * advances at once and the note of the page shown is sent for translation.
   */
  function CompletePage(e: Editor): (res: (Editor, Option<TranslateRequest>))
    ensures !e.pdfLoaded ==> res == (e, None)
    ensures e.pdfLoaded ==> res.1 == Some(TranslateRequest(e.page, e.pageCount, CurrentNote(e.notes, e.page)))
    ensures e.pdfLoaded ==> res.0 == e.(page := Navigation.Advance(e.page, e.pageCount))
  {
    if !e.pdfLoaded then (e, None)
    else
      var req := TranslateRequest(e.page, e.pageCount, CurrentNote(e.notes, e.page));
      (e.(page := Navigation.Advance(e.page, e.pageCount)), Some(req))
  }

  /**
   * The lines a translation reply stores: present only when `reply` is a
   * string, since calling `replace` on anything else throws.
   */
  function TranslatedLines(reply: Json.Reply): (lines: Option<seq<string>>)
    ensures lines.Some? <==> reply.Replied? && "reply" in reply.body && reply.body["reply"].Str?
    ensures lines.Some? ==> lines.value == Translation.CleanReply(reply.body["reply"].s)
  {
    match reply
    case Failed => None
    case Replied(body) =>
      if "reply" in body && body["reply"].Str? then Some(Translation.CleanReply(body["reply"].s)) else None
  }

  /**
   * The translation reply: the cleaned lines go to the captured page. The
   * page is then set once more from the captured page when that was not the
   * last one; on the last page nothing is set, so the page shown stays.
   */
  function FinishCompletion(e: Editor, req: TranslateRequest, reply: Json.Reply): (e': Editor)
    ensures var lines := TranslatedLines(reply);
            && (lines.Some? ==> e'.translations == PageStore.Store(e.translations, req.page, lines.value))
            && (lines.None? ==> e'.translations == e.translations)
    ensures req.page < req.pageCount ==> e'.page == req.page + 1
    ensures req.page >= req.pageCount ==> e'.page == e.page
    ensures e'.notes == e.notes && e'.urls == e.urls && e'.pageCount == e.pageCount
  {
    var translations :=
      match TranslatedLines(reply)
      case Some(lines) => PageStore.Store(e.translations, req.page, lines)
      case None => e.translations;
    var page := if req.page < req.pageCount then req.page + 1 else e.page;
    e.(translations := translations, page := page)
  }

  /**
   * Both page updates of one completion use the captured page. Before the
   * last page the completion ends one page further on, even if the user
   * navigated while the translation was pending; on the last page the
   * user's navigation stands. Either way the translation lands on the page
   * where "complete" was clicked, other pages keeping theirs.
   */
  lemma CompletionAdvancesOnce(e: Editor, clicks: seq<Navigation.Click>, reply: Json.Reply)
    requires e.pdfLoaded
    ensures var (shown, req) := CompletePage(e);
            var moved := shown.(page := Navigation.Navigate(shown.page, shown.pageCount, clicks));
            var done := FinishCompletion(moved, req.value, reply);
            && (e.page < e.pageCount ==> done.page == e.page + 1)
            && (e.page >= e.pageCount ==> done.page == Navigation.Navigate(e.page, e.pageCount, clicks))
            && (forall p :: p != e.page && p in e.translations ==> p in done.translations && done.translations[p] == e.translations[p])
            && (TranslatedLines(reply).Some? ==> done.translations[e.page] == TranslatedLines(reply).value)
  {
  }

  /** On the last page, moving back while the translation is pending is not undone by its reply. */
  lemma LastPageKeepsNavigation(e: Editor, reply: Json.Reply)
    requires e.pdfLoaded && e.pageCount > 1 && e.page == e.pageCount
    ensures var (shown, req) := CompletePage(e);
            var moved := shown.(page := Navigation.PrevPage(shown.page));
            FinishCompletion(moved, req.value, reply).page == e.pageCount - 1
  {
  }

  /** Every line stored for a page is non-blank and holds no blank-line break. */
  lemma StoredLinesClean(e: Editor, req: TranslateRequest, reply: Json.Reply)
    requires forall p, k :: p in e.translations && 0 <= k < |e.translations[p]| ==>
               !Translation.IsBlank(e.translations[p][k]) && Translation.NoDoubleNewline(e.translations[p][k])
    ensures var e' := FinishCompletion(e, req, reply);
            forall p, k :: p in e'.translations && 0 <= k < |e'.translations[p]| ==>
              !Translation.IsBlank(e'.translations[p][k]) && Translation.NoDoubleNewline(e'.translations[p][k])
  {
  }

  /** What "next step" does. */
  datatype Proceed =
    | AskForPdf
    | ReportMissing(pages: seq<int>)
    | GoToPractice(translations: map<int, seq<string>>)

  /**
   * "Next step": asks for a document when none is loaded, lists the pages
   * still missing a translation, and otherwise moves on with the
   * translations.
   */
  method NextStep(e: Editor) returns (o: Proceed)
    ensures o.AskForPdf? <==> !(e.pdfLoaded && e.bufferLoaded)
    ensures o.GoToPractice? <==>
              e.pdfLoaded && e.bufferLoaded && forall p :: 1 <= p <= e.pageCount ==> !Navigation.Missing(e.translations, p)
    ensures o.GoToPractice? ==> o.translations == e.translations
    ensures o.ReportMissing? ==>
              && |o.pages| > 0
              && (forall a, b :: 0 <= a < b < |o.pages| ==> o.pages[a] < o.pages[b])
              && (forall p :: p in o.pages <==> 1 <= p <= e.pageCount && Navigation.Missing(e.translations, p))
  {
    if !e.pdfLoaded || !e.bufferLoaded {
      return AskForPdf;
    }
    var missing := Navigation.MissingPages(e.translations, e.pageCount);
    if |missing| > 0 {
      assert missing[0] in missing;
      return ReportMissing(missing);
    }
    return GoToPractice(e.translations);
  }
}
