/** The answer of the voice-assistant webhook as both the voice agent and the
    voice-report page read it: the HTTP reply, the JSON it may carry, and the
    rule that fills a missing `text` from the other text-like fields. */
module Webhook {
  import JsText

  /** The fields of a reply object the pages look at; an absent or falsy
      field is the empty string. */
  datatype Fields = Fields(text: string, audio: string, pdfUrl: string, response: string, output: string, message: string)

  /** A parsed JSON value: an object (arrays count, with no fields) or a
      primitive (`null`, a number, a string, a boolean). */
  datatype Json = JObject(fields: Fields) | JPrimitive

  /** The webhook's HTTP reply: a non-OK status with its body text, a request
      that never completed (with the thrown message), or an OK response with
      its `content-type` (empty when missing) and body text. */
  datatype HttpReply = HttpError(status: int, body: string) | NetworkError(message: string) | HttpOk(contentType: string, body: string)

  /** The message thrown for a non-OK status. */
  function HttpErrorMessage(status: int, body: string): string
  {
    "HTTP error! status: " + JsText.IntToString(status) + " - " + body
  }

  /** `{ text: '', audio: '' }`. */
  const EmptyFields: Fields := Fields("", "", "", "", "", "")

  /** A JSON body the pages treat as empty: blank or `{}` once trimmed. */
  predicate EmptyJsonBody(body: string)
  {
    JsText.Trim(body) == "" || JsText.Trim(body) == "{}"
  }

  predicate IsJsonType(contentType: string)
  {
    JsText.Contains(contentType, "application/json")
  }

  predicate IsAudioType(contentType: string)
  {
    JsText.Contains(contentType, "audio")
  }

  /** The reply made from an audio body, given the base64 part of its data URL. */
  function AudioFields(base64: string): (r: Fields)
    ensures r.text == "" && r.audio != "" && r.pdfUrl == ""
  {
    EmptyFields.(audio := "data:audio/mp3;base64," + base64)
  }

  /** `data.response || data.output || data.message || ''`. */
  function TextFallback(f: Fields): (r: string)
    ensures r == "" <==> f.response == "" && f.output == "" && f.message == ""
    ensures f.response != "" ==> r == f.response
    ensures f.response == "" && f.output != "" ==> r == f.output
    ensures f.response == "" && f.output == "" ==> r == f.message
  {
    if f.response != "" then f.response
    else if f.output != "" then f.output
    else f.message
  }

  /** A missing `text` is filled from the fallback; nothing else changes. */
  function FillText(f: Fields): (r: Fields)
    ensures f.text != "" ==> r == f
    ensures f.text == "" ==> r == f.(text := TextFallback(f))
    ensures r.text == "" <==> f.text == "" && f.response == "" && f.output == "" && f.message == ""
  {
    if f.text != "" then f else f.(text := TextFallback(f))
  }

  /** Filling twice is filling once. */
  lemma FillTextIdempotent(f: Fields)
    ensures FillText(FillText(f)) == FillText(f)
  {
  }
}
