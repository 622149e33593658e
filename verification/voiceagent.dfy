/** The reusable voice agent: a microphone recorder that collects audio chunks,
    and the upload of a recording to the assistant webhook. */
module VoiceAgent {
  import opened Wrappers
  import JsText
  import Seqs
  import Webhook

  /** The recorder's state: whether a microphone stream and a recorder are held,
      the sizes of the chunks collected so far, and the recording flag. */
  datatype Recorder = Recorder(hasStream: bool, hasRecorder: bool, chunks: seq<nat>, isRecording: bool)

  const Idle: Recorder := Recorder(false, false, [], false)

  /** The default recording limit and audio format. */
  const MaxRecordingMillis: nat := 30000
  const MimeType: string := "audio/webm;codecs=opus"

  const MicrophoneError: string := "Не удалось получить доступ к микрофону"

  /** `startRecording`: a no-op while recording; otherwise, if the microphone is
      granted, a fresh stream and recorder with no chunks, recording; if it is
      not, the call throws and nothing changes. */
  function StartRecording(s: Recorder, micGranted: bool): (r: Result<Recorder>)
    ensures s.isRecording ==> r == Success(s)
    ensures !s.isRecording && micGranted ==>
      r.Success? && r.value.isRecording && r.value.hasStream && r.value.hasRecorder && r.value.chunks == []
    ensures !s.isRecording && !micGranted ==> r == Failure(MicrophoneError)
  {
    if s.isRecording then Success(s)
    else if micGranted then Success(Recorder(true, true, [], true))
    else Failure(MicrophoneError)
  }

  /** `ondataavailable`: only non-empty chunks are kept. */
  function OnData(s: Recorder, size: nat): (r: Recorder)
    ensures size > 0 ==> r == s.(chunks := s.chunks + [size])
    ensures size == 0 ==> r == s
  {
    if size > 0 then s.(chunks := s.chunks + [size]) else s
  }

  /** A sequence of `ondataavailable` events. */
  function Feed(s: Recorder, sizes: seq<nat>): (r: Recorder)
    ensures r.(chunks := s.chunks) == s
    decreases |sizes|
  {
    if |sizes| == 0 then s else Feed(OnData(s, sizes[0]), sizes[1..])
  }

  /** The recorder after `stopRecording` and the recording it resolves to
      (the chunk sizes of the blob, or `None` for `null`). */
  datatype Stopped = Stopped(state: Recorder, blob: Option<seq<nat>>)

  /** The collected chunks as the blob, or `null` when there are none. */
  function BlobOf(chunks: seq<nat>): (r: Option<seq<nat>>)
    ensures r.Some? <==> chunks != []
    ensures r.Some? ==> r.value == chunks
  {
    if chunks != [] then Some(chunks) else None
  }

  /** `stopRecording`, where `active` says the browser recorder's own state is
      `recording` or `paused` and `fails` says that asking it for its last data
      throws. `null` and no change unless recording with a
      recorder. When the recorder is active and does not throw, its stop event
      releases the stream and ends recording. When it is already inactive, or
      that request throws, no stop event comes: the blob is resolved at once and the
      flag and the stream stay as they were. In every case the blob is the
      collected chunks, or `null` when there are none. */
  function StopRecording(s: Recorder, active: bool, fails: bool): (r: Stopped)
    ensures !s.isRecording || !s.hasRecorder ==> r == Stopped(s, None)
    ensures s.isRecording && s.hasRecorder ==>
      r.state.hasRecorder && r.state.chunks == s.chunks &&
      (r.blob.Some? <==> s.chunks != []) && (r.blob.Some? ==> r.blob.value == s.chunks)
    ensures s.isRecording && s.hasRecorder && active && !fails ==>
      !r.state.isRecording && !r.state.hasStream
    ensures s.isRecording && s.hasRecorder && (!active || fails) ==> r.state == s
  {
    if !s.isRecording || !s.hasRecorder then Stopped(s, None)
    else if active && !fails then Stopped(s.(hasStream := false, isRecording := false), BlobOf(s.chunks))
    else Stopped(s, BlobOf(s.chunks))
  }

  /** A stop that got no stop event leaves the agent believing it records: a
      new start is ignored, and every later stop hands back the same chunks
      again until one gets its stop event. */
  lemma StopWithoutEventStaysRecording(s: Recorder, micGranted: bool, active: bool, fails: bool)
    requires s.isRecording && s.hasRecorder
    ensures var first := StopRecording(s, false, fails);
      && StartRecording(first.state, micGranted) == Success(first.state)
      && StopRecording(first.state, active, fails).blob == first.blob
    ensures var first := StopRecording(s, true, true);
      && StartRecording(first.state, micGranted) == Success(first.state)
      && StopRecording(first.state, active, fails).blob == first.blob
  {
  }

  /** `cleanup`: no stream, no recorder, no chunks, not recording. */
  function Cleanup(s: Recorder): (r: Recorder)
    ensures !r.hasStream && !r.hasRecorder && r.chunks == [] && !r.isRecording
  {
    Idle
  }

  /** The chunk sizes a recorder keeps: the non-empty ones, in order. */
  function NonEmptyChunks(sizes: seq<nat>): (r: seq<nat>)
    ensures forall i :: 0 <= i < |r| ==> r[i] > 0
  {
    Seqs.Filter(sizes, (n: nat) => n > 0)
  }

  /** One event, then the rest: the first size is kept when non-empty. */
  lemma FeedStep(s: Recorder, sizes: seq<nat>)
    requires |sizes| > 0
    ensures var head: seq<nat> := if sizes[0] > 0 then [sizes[0]] else [];
      Feed(s, sizes) == Feed(OnData(s, sizes[0]), sizes[1..]) &&
      OnData(s, sizes[0]).chunks == s.chunks + head &&
      NonEmptyChunks(sizes) == head + NonEmptyChunks(sizes[1..])
  {
  }

  /** Feeding chunks keeps exactly the non-empty ones, in order. */
  lemma {:induction false} FeedKeepsNonEmpty(s: Recorder, sizes: seq<nat>)
    ensures Feed(s, sizes).chunks == s.chunks + NonEmptyChunks(sizes)
    decreases |sizes|
  {
    if |sizes| > 0 {
      var head: seq<nat> := if sizes[0] > 0 then [sizes[0]] else [];
      var rest := NonEmptyChunks(sizes[1..]);
      FeedStep(s, sizes);
      FeedKeepsNonEmpty(OnData(s, sizes[0]), sizes[1..]);
      assert (s.chunks + head) + rest == s.chunks + (head + rest);
    }
  }

  /** A recording session: the blob a stop resolves to holds exactly the
      non-empty chunks delivered since the start, and is `null` when there
      were none; a second stop resolves to `null`. */
  lemma RecordingRoundTrip(s: Recorder, sizes: seq<nat>)
    requires !s.isRecording
    ensures var started := StartRecording(s, true).value;
      var stopped := StopRecording(Feed(started, sizes), true, false);
      var kept := NonEmptyChunks(sizes);
      (stopped.blob.Some? <==> kept != []) && (stopped.blob.Some? ==> stopped.blob.value == kept) &&
      StopRecording(stopped.state, true, false).blob.None?
  {
    var started := StartRecording(s, true).value;
    FeedKeepsNonEmpty(started, sizes);
    assert [] + NonEmptyChunks(sizes) == NonEmptyChunks(sizes);
  }

  // ---------------------------------------------------------------- upload

  /** What `sendToN8N` returns. */
  datatype AgentReply = AgentReply(text: string, audio: string)

  const NoUrlError: string := "n8n webhook URL не настроен"
  const BadFormatError: string := "Некорректный формат ответа от n8n"

  function UnsupportedMessage(contentType: string): string
  {
    "Неподдерживаемый формат ответа. Получен: " + (if contentType != "" then contentType else "unknown")
  }

  /** The reply object made from a parsed JSON value. */
  function ReplyOf(j: Webhook.Json): (r: Result<AgentReply>)
    ensures j.JPrimitive? ==> r == Failure(BadFormatError)
    ensures j.JObject? ==> r == Success(AgentReply(Webhook.FillText(j.fields).text, j.fields.audio))
  {
    match j
    case JPrimitive => Failure(BadFormatError)
    case JObject(f) => Success(AgentReply(Webhook.FillText(f).text, f.audio))
  }

  /** `sendToN8N`: without a URL it throws before any request. A non-OK status,
      a failed request, an unparsable JSON body, a non-object body and a
      content type that is neither JSON nor audio all throw. An empty JSON
      body gives an empty reply, an audio body a data URL; otherwise a
      missing `text` is filled from `response`, `output` or `message`.
      `parse` is `JSON.parse`, with the thrown message on failure; `base64`
      is the base64 text of an audio body. */
  function SendToN8N(url: string, reply: Webhook.HttpReply, parse: string -> Result<Webhook.Json>, base64: string)
    : (r: Result<AgentReply>)
    ensures url == "" ==> r == Failure(NoUrlError)
    ensures url != "" && reply.HttpError? ==> r == Failure(Webhook.HttpErrorMessage(reply.status, reply.body))
    ensures url != "" && reply.NetworkError? ==> r == Failure(reply.message)
    ensures url != "" && reply.HttpOk? && Webhook.IsJsonType(reply.contentType) && Webhook.EmptyJsonBody(reply.body) ==>
      r == Success(AgentReply("", ""))
    ensures url != "" && reply.HttpOk? && Webhook.IsJsonType(reply.contentType) && !Webhook.EmptyJsonBody(reply.body) ==>
      r == (match parse(reply.body) case Success(j) => ReplyOf(j) case Failure(m) => Failure(m))
    ensures url != "" && reply.HttpOk? && !Webhook.IsJsonType(reply.contentType) && Webhook.IsAudioType(reply.contentType) ==>
      r == Success(AgentReply("", "data:audio/mp3;base64," + base64))
    ensures url != "" && reply.HttpOk? && !Webhook.IsJsonType(reply.contentType) && !Webhook.IsAudioType(reply.contentType) ==>
      r == Failure(UnsupportedMessage(reply.contentType))
  {
    if url == "" then Failure(NoUrlError)
    else
      match reply
      case HttpError(status, body) => Failure(Webhook.HttpErrorMessage(status, body))
      case NetworkError(m) => Failure(m)
      case HttpOk(contentType, body) =>
        if Webhook.IsJsonType(contentType) then
          if Webhook.EmptyJsonBody(body) then ReplyOf(Webhook.JObject(Webhook.EmptyFields))
          else
            match parse(body)
            case Success(j) => ReplyOf(j)
            case Failure(m) => Failure(m)
        else if Webhook.IsAudioType(contentType) then ReplyOf(Webhook.JObject(Webhook.AudioFields(base64)))
        else Failure(UnsupportedMessage(contentType))
  }

  /** A successful upload's text is empty only when the reply had no text-like
      field at all. */
  lemma ReplyTextFromAnyField(url: string, reply: Webhook.HttpReply, parse: string -> Result<Webhook.Json>,
                              base64: string, f: Webhook.Fields)
    requires url != "" && reply.HttpOk? && Webhook.IsJsonType(reply.contentType) && !Webhook.EmptyJsonBody(reply.body)
    requires parse(reply.body) == Success(Webhook.JObject(f))
    ensures var r := SendToN8N(url, reply, parse, base64);
      r.Success? && (r.value.text == "" <==> f.text == "" && f.response == "" && f.output == "" && f.message == "")
  {
  }

  /** Every failure is reported with a message, except a failed request or
      parse whose own message is empty. */
  lemma FailuresCarryMessages(url: string, reply: Webhook.HttpReply, parse: string -> Result<Webhook.Json>, base64: string)
    ensures var r := SendToN8N(url, reply, parse, base64);
      r.Failure? && r.error == "" ==> reply.NetworkError? || (reply.HttpOk? && parse(reply.body).Failure?)
  {
  }
}
