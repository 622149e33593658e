/** The voice-report page: a four-state recording button, and the handling of
    the assistant's answer once a recording has been sent. */
module VoiceReport {
  import opened Wrappers
  import JsText
  import Webhook
  import VoiceAgent

  /** The state of the recording button. */
  datatype RState = Ready | Recording | Processing | Listening

  // ---------------------------------------------------------------- button

  /** `startRecording` as seen by the state: a no-op while recording; recording
      once the microphone is granted (`micGranted`); unchanged otherwise. */
  function Start(state: RState, micGranted: bool): (r: RState)
    ensures state == Recording ==> r == Recording
    ensures state != Recording ==> (r == Recording <==> micGranted)
    ensures r != Recording ==> r == state
  {
    if state == Recording then Recording
    else if micGranted then Recording
    else state
  }

  /** `stopRecording` as seen by the state: a no-op unless recording with a
      recorder; otherwise the answer is awaited. */
  function Stop(state: RState, hasRecorder: bool): (r: RState)
    ensures state != Recording || !hasRecorder ==> r == state
    ensures state == Recording && hasRecorder ==> r == Processing
  {
    if state != Recording || !hasRecorder then state else Processing
  }

  /** `toggleRecording`: stops while recording, starts when ready or after an
      answer, and ignores the button while an answer is awaited. */
  function Toggle(state: RState, hasRecorder: bool, micGranted: bool): (r: RState)
    ensures state == Recording ==> r == Stop(state, hasRecorder)
    ensures state == Ready || state == Listening ==> r == Start(state, micGranted)
    ensures state == Processing ==> r == Processing
  {
    match state
    case Recording => Stop(state, hasRecorder)
    case Ready => Start(state, micGranted)
    case Listening => Start(state, micGranted)
    case Processing => state
  }

  /** The button moves to awaiting an answer only from recording, and leaves
      that state never. */
  lemma ToggleReachesProcessingOnlyFromRecording(state: RState, hasRecorder: bool, micGranted: bool)
    ensures Toggle(state, hasRecorder, micGranted) == Processing <==>
      state == Processing || (state == Recording && hasRecorder)
  {
  }

  // ---------------------------------------------------------------- answer

  const EmptyRecordingStatus: string := "Запись пуста. Попробуйте еще раз."
  const EmptyReplyStatus: string := "Ответ от AI агента пуст. Попробуйте еще раз."
  const PdfReadyStatus: string := "PDF готов. Можете задать следующий вопрос."
  const PdfLinkStatus: string := "PDF готов. Используйте кнопку для скачивания или открытия."
  const PdfUrlFailedStatus: string := "PDF URL получен, но не удалось загрузить. Попробуйте открыть ссылку."
  const PdfTextFailedStatus: string := "Ошибка генерации PDF. Текст сохранен."
  const AnswerStatus: string := "Ответ получен. Можете задать следующий вопрос."

  const BadJsonError: string := "Некорректный JSON ответ от n8n"
  const FormatError: string := "Некорректный формат ответа от n8n. Ожидается JSON с полями text, audio или pdf_url."
  const WorkflowError: string := "Webhook настроен неправильно. Измените \"Respond\" в Webhook node на \"Using Respond to Webhook Node\"."
  const WorkflowMarker: string := "Workflow was started"
  const UnknownFormatText: string := "Ответ получен, но формат неизвестен"

  const ConnectionError: string := "Ошибка подключения к серверу. Проверьте интернет-соединение."
  const ServerErrorPrefix: string := "Ошибка сервера: "
  const DefaultError: string := "Произошла ошибка при обработке запроса."

  /** What became of a PDF generation: ready, or thrown with a message. */
  datatype PdfOutcome = PdfReady | PdfThrew(message: string)

  /** The state the page ends in and the status line it shows. */
  datatype Outcome = Outcome(state: RState, status: string)

  /** A message that names a blocked or failed connection. */
  predicate ConnectionTrouble(message: string)
  {
    JsText.Contains(message, "Failed to fetch") || JsText.Contains(message, "CORS")
  }

  /** The status shown for an error caught while handling the answer. */
  function ErrorStatus(message: string): (r: string)
    ensures r != ""
    ensures ConnectionTrouble(message) ==> r == ConnectionError
    ensures !ConnectionTrouble(message) && JsText.Contains(message, "HTTP error") ==> r == ServerErrorPrefix + message
    ensures !ConnectionTrouble(message) && !JsText.Contains(message, "HTTP error") ==>
      r == (if message != "" then message else DefaultError)
  {
    if ConnectionTrouble(message) then ConnectionError
    else if JsText.Contains(message, "HTTP error") then ServerErrorPrefix + message
    else if message != "" then message
    else DefaultError
  }

  /** The body of an OK answer read as JSON: a JSON type is parsed (an empty
      or `{}` body is the empty reply, an unparsable one an error), an audio
      type becomes a data URL, and anything else is parsed if it can be and
      otherwise taken as the text. `parse` is `JSON.parse`. */
  function ReadBody(contentType: string, body: string, parse: string -> Result<Webhook.Json>, base64: string)
    : (r: Result<Webhook.Json>)
    ensures Webhook.IsJsonType(contentType) && Webhook.EmptyJsonBody(body) ==> r == Success(Webhook.JObject(Webhook.EmptyFields))
    ensures Webhook.IsJsonType(contentType) && !Webhook.EmptyJsonBody(body) ==>
      r == (if parse(body).Success? then parse(body) else Failure(BadJsonError))
    ensures !Webhook.IsJsonType(contentType) && Webhook.IsAudioType(contentType) ==>
      r == Success(Webhook.JObject(Webhook.AudioFields(base64)))
    ensures !Webhook.IsJsonType(contentType) && !Webhook.IsAudioType(contentType) ==> r.Success?
    ensures !Webhook.IsJsonType(contentType) && !Webhook.IsAudioType(contentType) && parse(body).Failure? ==>
      r.value.JObject? && r.value.fields.text != "" &&
      r.value.fields == Webhook.EmptyFields.(text := if body != "" then body else UnknownFormatText)
  {
    if Webhook.IsJsonType(contentType) then
      if Webhook.EmptyJsonBody(body) then Success(Webhook.JObject(Webhook.EmptyFields))
      else if parse(body).Success? then parse(body)
      else Failure(BadJsonError)
    else if Webhook.IsAudioType(contentType) then Success(Webhook.JObject(Webhook.AudioFields(base64)))
    else if parse(body).Success? then parse(body)
    else Success(Webhook.JObject(Webhook.EmptyFields.(text := if body != "" then body else UnknownFormatText)))
  }

  /** The checks on the read answer: a non-object is an error, so is a
      `message` announcing that the workflow merely started; otherwise a
      missing `text` is filled in. */
  function Normalise(j: Webhook.Json): (r: Result<Webhook.Fields>)
    ensures j.JPrimitive? ==> r == Failure(FormatError)
    ensures j.JObject? && JsText.Contains(j.fields.message, WorkflowMarker) ==> r == Failure(WorkflowError)
    ensures j.JObject? && !JsText.Contains(j.fields.message, WorkflowMarker) ==> r == Success(Webhook.FillText(j.fields))
  {
    match j
    case JPrimitive => Failure(FormatError)
    case JObject(f) =>
      if f.message != "" && JsText.Contains(f.message, WorkflowMarker) then Failure(WorkflowError)
      else Success(Webhook.FillText(f))
  }

  /** The answer as the page holds it before acting on it, or the message of
      the error thrown on the way. */
  function Received(reply: Webhook.HttpReply, parse: string -> Result<Webhook.Json>, base64: string)
    : (r: Result<Webhook.Fields>)
    ensures reply.HttpError? ==> r == Failure(Webhook.HttpErrorMessage(reply.status, reply.body))
    ensures reply.NetworkError? ==> r == Failure(reply.message)
    ensures reply.HttpOk? ==> r == (match ReadBody(reply.contentType, reply.body, parse, base64)
                                    case Success(j) => Normalise(j)
                                    case Failure(m) => Failure(m))
  {
    match reply
    case HttpError(status, body) => Failure(Webhook.HttpErrorMessage(status, body))
    case NetworkError(m) => Failure(m)
    case HttpOk(contentType, body) =>
      match ReadBody(contentType, body, parse, base64)
      case Success(j) => Normalise(j)
      case Failure(m) => Failure(m)
  }

  /** Acting on the answer, as written: nothing to show goes back to ready; a
      PDF link comes first, then non-blank text (made into a PDF), then audio.
      A PDF that fails for a reason other than the connection leaves the
      page awaiting an answer. `urlPdf` and `textPdf` are what the two PDF
      generations come to. */
  function Dispatch(f: Webhook.Fields, urlPdf: PdfOutcome, textPdf: PdfOutcome): (r: Outcome)
    ensures r.state != Recording
    ensures f.text == "" && f.audio == "" && f.pdfUrl == "" ==> r == Outcome(Ready, EmptyReplyStatus)
    ensures f.pdfUrl != "" ==> r == (match urlPdf
                                     case PdfReady => Outcome(Listening, PdfReadyStatus)
                                     case PdfThrew(m) =>
                                       if ConnectionTrouble(m) then Outcome(Listening, PdfLinkStatus)
                                       else Outcome(Processing, PdfUrlFailedStatus))
    ensures f.pdfUrl == "" && !JsText.IsBlank(f.text) ==>
      r == (if textPdf.PdfReady? then Outcome(Listening, PdfReadyStatus) else Outcome(Processing, PdfTextFailedStatus))
    ensures f.pdfUrl == "" && JsText.IsBlank(f.text) ==>
      r == (if f.audio != "" then Outcome(Listening, AnswerStatus) else Outcome(Ready, EmptyReplyStatus))
  {
    if f.text == "" && f.audio == "" && f.pdfUrl == "" then Outcome(Ready, EmptyReplyStatus)
    else if f.pdfUrl != "" then
      match urlPdf
      case PdfReady => Outcome(Listening, PdfReadyStatus)
      case PdfThrew(m) =>
        if ConnectionTrouble(m) then Outcome(Listening, PdfLinkStatus)
        else Outcome(Processing, PdfUrlFailedStatus)
    else if !JsText.IsBlank(f.text) then
      if textPdf.PdfReady? then Outcome(Listening, PdfReadyStatus) else Outcome(Processing, PdfTextFailedStatus)
    else if f.audio != "" then Outcome(Listening, AnswerStatus)
    else
      assert f.text == "" || JsText.IsBlank(f.text);
      Outcome(Ready, EmptyReplyStatus)
  }

  /** `processRecording`, as written: an empty recording goes back to ready
      without sending; an error anywhere on the way goes back to ready with
      its status; otherwise the answer is acted on. */
  function ProcessRecording(blobEmpty: bool, reply: Webhook.HttpReply, parse: string -> Result<Webhook.Json>,
                            base64: string, urlPdf: PdfOutcome, textPdf: PdfOutcome): (r: Outcome)
    ensures blobEmpty ==> r == Outcome(Ready, EmptyRecordingStatus)
    ensures !blobEmpty && Received(reply, parse, base64).Failure? ==>
      r == Outcome(Ready, ErrorStatus(Received(reply, parse, base64).error))
    ensures !blobEmpty && Received(reply, parse, base64).Success? ==>
      r == Dispatch(Received(reply, parse, base64).value, urlPdf, textPdf)
  {
    if blobEmpty then Outcome(Ready, EmptyRecordingStatus)
    else
      match Received(reply, parse, base64)
      case Failure(m) => Outcome(Ready, ErrorStatus(m))
      case Success(f) => Dispatch(f, urlPdf, textPdf)
  }

  /** A PDF link decides the outcome alone: the text, the audio and the text
      PDF play no part. */
  lemma PdfLinkFirst(f: Webhook.Fields, text: string, audio: string, urlPdf: PdfOutcome, textPdf: PdfOutcome, textPdf': PdfOutcome)
    requires f.pdfUrl != ""
    ensures Dispatch(f, urlPdf, textPdf) == Dispatch(f.(text := text, audio := audio), urlPdf, textPdf')
  {
  }

  /** Without a link, non-blank text decides the outcome before the audio. */
  lemma TextBeforeAudio(f: Webhook.Fields, audio: string, urlPdf: PdfOutcome, urlPdf': PdfOutcome, textPdf: PdfOutcome)
    requires f.pdfUrl == "" && !JsText.IsBlank(f.text)
    ensures Dispatch(f, urlPdf, textPdf) == Dispatch(f.(audio := audio), urlPdf', textPdf)
  {
  }

  /** Every error on the way to the answer ends in ready with a non-empty
      status, whatever the PDF generations would have done. */
  lemma ErrorsEndReady(reply: Webhook.HttpReply, parse: string -> Result<Webhook.Json>, base64: string,
                       urlPdf: PdfOutcome, textPdf: PdfOutcome)
    requires Received(reply, parse, base64).Failure?
    ensures var r := ProcessRecording(false, reply, parse, base64, urlPdf, textPdf);
      r.state == Ready && r.status != ""
  {
  }

  /** The page and the voice agent read a JSON object answer alike: when
      neither rejects it, the page's text is the agent's text, and the audio
      is the same. */
  lemma PageAndAgentAgree(url: string, reply: Webhook.HttpReply, parse: string -> Result<Webhook.Json>, base64: string)
    requires url != "" && reply.HttpOk? && Webhook.IsJsonType(reply.contentType)
    requires Received(reply, parse, base64).Success?
    requires VoiceAgent.SendToN8N(url, reply, parse, base64).Success?
    ensures Received(reply, parse, base64).value.text == VoiceAgent.SendToN8N(url, reply, parse, base64).value.text
    ensures Received(reply, parse, base64).value.audio == VoiceAgent.SendToN8N(url, reply, parse, base64).value.audio
  {
  }

  // ---------------------------------------------------------------- finding

  /** As written, a JSON answer with a PDF link whose download fails with an
      ordinary error (one not about the connection, such as the empty-file
      error below) leaves the page awaiting an answer; the button ignores
      every press from then on. */
  lemma StuckAfterPdfFailure(ct: string, body: string, parse: string -> Result<Webhook.Json>, f: Webhook.Fields,
                             m: string, textPdf: PdfOutcome, hasRecorder: bool, micGranted: bool)
    requires Webhook.IsJsonType(ct) && !Webhook.EmptyJsonBody(body)
    requires parse(body) == Success(Webhook.JObject(f)) && f.pdfUrl != "" && f.message == ""
    requires !ConnectionTrouble(m)
    ensures ProcessRecording(false, Webhook.HttpOk(ct, body), parse, "", PdfThrew(m), textPdf).state == Processing
    ensures Toggle(Processing, hasRecorder, micGranted) == Processing
  {
    if JsText.Contains(f.message, WorkflowMarker) {
      var k := JsText.ContainsWitness(f.message, WorkflowMarker);
      assert false;
    }
    ReceivedObject(ct, body, parse, "", f);
    var g := Webhook.FillText(f);
    assert Received(Webhook.HttpOk(ct, body), parse, "") == Success(g);
    assert g.pdfUrl != "";
    assert Dispatch(g, PdfThrew(m), textPdf) == Outcome(Processing, PdfUrlFailedStatus);
  }

  /** A JSON object answer without the workflow notice is received with its
      text filled in. */
  lemma ReceivedObject(ct: string, body: string, parse: string -> Result<Webhook.Json>, base64: string, f: Webhook.Fields)
    requires Webhook.IsJsonType(ct) && !Webhook.EmptyJsonBody(body)
    requires parse(body) == Success(Webhook.JObject(f)) && !JsText.Contains(f.message, WorkflowMarker)
    ensures Received(Webhook.HttpOk(ct, body), parse, base64) == Success(Webhook.FillText(f))
  {
  }

  /** The error thrown for an empty PDF download: an ordinary error, so an
      empty file behind the link leaves the page stuck. */
  const EmptyPdfError: string := "PDF файл пуст"

  lemma EmptyPdfErrorIsOrdinary(m: string)
    requires m == EmptyPdfError
    ensures !ConnectionTrouble(m)
  {
    NoCors(m);
    NoFetch(m);
  }

  lemma NoCors(m: string)
    requires m == EmptyPdfError
    ensures !JsText.Contains(m, "CORS")
  {
    JsText.MissingCharNotContained(m, "CORS", 'O');
  }

  lemma NoFetch(m: string)
    requires m == EmptyPdfError
    ensures !JsText.Contains(m, "Failed to fetch")
  {
    JsText.MissingCharNotContained(m, "Failed to fetch", 'a');
  }

  /** Acting on the answer, corrected: a PDF that cannot be made returns the
      page to ready, with the same status line. */
  function DispatchFixed(f: Webhook.Fields, urlPdf: PdfOutcome, textPdf: PdfOutcome): (r: Outcome)
    ensures r.state == Ready || r.state == Listening
    ensures Dispatch(f, urlPdf, textPdf).state != Processing ==> r == Dispatch(f, urlPdf, textPdf)
    ensures Dispatch(f, urlPdf, textPdf).state == Processing ==> r == Outcome(Ready, Dispatch(f, urlPdf, textPdf).status)
  {
    var r := Dispatch(f, urlPdf, textPdf);
    if r.state == Processing then r.(state := Ready) else r
  }

  /** `processRecording`, corrected: as written, except that it never leaves
      the page awaiting an answer. */
  function ProcessRecordingFixed(blobEmpty: bool, reply: Webhook.HttpReply, parse: string -> Result<Webhook.Json>,
                                 base64: string, urlPdf: PdfOutcome, textPdf: PdfOutcome): (r: Outcome)
    ensures r.state == Ready || r.state == Listening
    ensures ProcessRecording(blobEmpty, reply, parse, base64, urlPdf, textPdf).state != Processing ==>
      r == ProcessRecording(blobEmpty, reply, parse, base64, urlPdf, textPdf)
  {
    if blobEmpty then Outcome(Ready, EmptyRecordingStatus)
    else
      match Received(reply, parse, base64)
      case Failure(m) => Outcome(Ready, ErrorStatus(m))
      case Success(f) => DispatchFixed(f, urlPdf, textPdf)
  }

  /** One press-and-answer round with the corrected handling: from ready or
      after an answer, a press with the microphone granted starts recording,
      the next press stops it, and the answer leaves the button usable, so a
      further press records again. */
  function Round(state: RState, blobEmpty: bool, reply: Webhook.HttpReply, parse: string -> Result<Webhook.Json>,
                 base64: string, urlPdf: PdfOutcome, textPdf: PdfOutcome): (r: Outcome)
    requires state == Ready || state == Listening
    ensures Toggle(state, true, true) == Recording && Toggle(Recording, true, true) == Processing
    ensures r.state != Processing && r.state != Recording
    ensures Toggle(r.state, true, true) == Recording
  {
    var recording := Toggle(state, true, true);
    assert Toggle(recording, true, true) == Processing;
    ProcessRecordingFixed(blobEmpty, reply, parse, base64, urlPdf, textPdf)
  }
}
