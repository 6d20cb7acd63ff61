/**
 * The single-sentence test page: five text fields filled from the evaluation
 * service's reply, or a failure message.
 */
module AudioTestPage {
  import Json

  datatype Panel = Panel(spokenText: string, compareResult: string, correction: string, accuracy: string, suggestion: string)

  /** All fields start empty. */
  const InitialPanel := Panel("", "", "", "", "")

  const UploadFailedMessage := "上傳失敗，請檢查網路連線或伺服器狀態。"

  /** `const { name = '' } = parsed` followed by `String(name)`. */
  function Field(parsed: Json.Object, name: string): (text: string)
    ensures name !in parsed ==> text == ""
    ensures name in parsed && parsed[name].Str? ==> text == parsed[name].s
    ensures name in parsed && parsed[name].Null? ==> text == "null"
  {
    Json.ToString(Json.WithDefault(Json.Get(parsed, name), Json.Str("")))
  }

  /**
   * The upload completion: a reply sets every field from the parsed object;
   * a failure changes only the suggestion, to the failure message.
   */
  function ApplyUpload(panel: Panel, reply: Json.Reply): (next: Panel)
    ensures reply.Failed? ==> next == panel.(suggestion := UploadFailedMessage)
    ensures reply.Replied? ==>
              var parsed := Json.Unwrap(reply.body);
              && next.spokenText == Field(parsed, "spoken_text")
              && next.compareResult == Field(parsed, "compare_result")
              && next.correction == Field(parsed, "correction")
              && next.accuracy == Field(parsed, "accuracy")
              && next.suggestion == Field(parsed, "suggestion")
  {
    match reply
    case Failed => panel.(suggestion := UploadFailedMessage)
    case Replied(body) =>
      var parsed := Json.Unwrap(body);
      Panel(
        Field(parsed, "spoken_text"),
        Field(parsed, "compare_result"),
        Field(parsed, "correction"),
        Field(parsed, "accuracy"),
        Field(parsed, "suggestion"))
  }

  /** A reply replaces the whole panel: nothing of the previous one survives. */
  lemma ReplyForgetsPanel(a: Panel, b: Panel, body: Json.Object)
    ensures ApplyUpload(a, Json.Replied(body)) == ApplyUpload(b, Json.Replied(body))
  {
  }

  /** A reply whose `reply` field is a string clears every field. */
  lemma StringReplyClears(panel: Panel, body: Json.Object)
    requires "reply" in body && body["reply"].Str?
    ensures ApplyUpload(panel, Json.Replied(body)) == InitialPanel
  {
  }

  /** A reply carrying all five fields as strings shows them unchanged. */
  lemma StringFieldsShown(panel: Panel, body: Json.Object, p: Panel)
    requires !("reply" in body && body["reply"].Str?)
    requires body == map["spoken_text" := Json.Str(p.spokenText), "compare_result" := Json.Str(p.compareResult),
                         "correction" := Json.Str(p.correction), "accuracy" := Json.Str(p.accuracy),
                         "suggestion" := Json.Str(p.suggestion)]
    ensures ApplyUpload(panel, Json.Replied(body)) == p
  {
  }

  /** Repeated failures keep the earlier results and show only the message. */
  lemma FailureKeepsResults(panel: Panel)
    ensures var next := ApplyUpload(panel, Json.Failed);
            && next.spokenText == panel.spokenText && next.compareResult == panel.compareResult
            && next.correction == panel.correction && next.accuracy == panel.accuracy
            && ApplyUpload(next, Json.Failed) == next
  {
  }
}
