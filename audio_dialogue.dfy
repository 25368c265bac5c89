/** The two-voice audio dialogue flow: its input guard, the choice of the media
    field in the speech service's response, the parsing of the returned data URL
    and the conversion of raw PCM into a WAV data URL. The speech and text
    services, base64 decoding and the WAV writer are parameters of the model. */
module AudioDialogue {
  import opened Wrappers
  import opened JsBuiltins

  newtype Byte = x: int | 0 <= x < 256

  /** What `parseDataUrl` returns. */
  datatype DataUrl = DataUrl(mime: string, base64: string)

  /** The sample layout the WAV writer is given: channels, rate, bits per sample. */
  datatype WavFormat = WavFormat(channels: nat, sampleRate: nat, bitDepth: nat)

  /** One channel, 24000 Hz, two bytes per sample. */
  const SpeechFormat: WavFormat := WavFormat(1, 24000, 2 * 8)

  const InvalidDataUrl: string := "Invalid data URL"
  const EmptySummary: string := "Summary input cannot be empty."
  const NoScript: string := "Failed to generate dialogue script."
  const NoMedia: string := "No audio media returned"

  /** The characters `.` does not match in a JavaScript regular expression. */
  predicate IsLineTerminator(c: char) {
    c == '\n' || c == '\r' || c == '\U{2028}' || c == '\U{2029}'
  }

  predicate NoLineTerminator(s: string) {
    forall i | 0 <= i < |s| :: !IsLineTerminator(s[i])
  }

  /** The length of the longest prefix of `s` without a `;`. */
  function RunLength(s: string): (n: nat)
    ensures n <= |s|
    ensures forall i | 0 <= i < n :: s[i] != ';'
    ensures n < |s| ==> s[n] == ';'
  {
    if s == [] || s[0] == ';' then 0 else 1 + RunLength(s[1..])
  }

  /** `header.replace(/^data:([^;]+).*$/, '$1')`. The greedy group takes the
      whole run of non-`;` characters after `data:`; backtracking to a shorter
      run cannot help `.*$`, whose text would only grow, so the pattern matches
      exactly when that run is non-empty and the rest of the header holds no
      line terminator. On a match the whole header is replaced by the run;
      otherwise the header is returned unchanged. */
  function MimeOf(header: string): (mime: string)
    ensures mime == header ||
      (StartsWith(header, "data:") && mime != [] && ';' !in mime &&
       5 + |mime| <= |header| && header[5..5 + |mime|] == mime)
  {
    if StartsWith(header, "data:") then
      var rest := header[5..];
      var n := RunLength(rest);
      if n >= 1 && NoLineTerminator(rest[n..]) then
        rest[..n]
      else header
    else header
  }

  /** `parseDataUrl`: split at the first comma; the header's mime type and
      everything after the comma. */
  function ParseDataUrl(url: string): Result<DataUrl, string> {
    var i := IndexOf(url, ",");
    if i < 0 then Err(InvalidDataUrl)
    else Ok(DataUrl(MimeOf(url[..i]), url[i + 1..]))
  }

  /** Parsing fails exactly when there is no comma; otherwise the URL is the
      comma-free header, a comma, and the payload, and the mime type is read
      from that header. */
  lemma ParseDataUrlSpec(url: string)
    ensures ParseDataUrl(url).Err? <==> ',' !in url
    ensures ParseDataUrl(url).Err? ==> ParseDataUrl(url).error == InvalidDataUrl
    ensures ParseDataUrl(url).Ok? ==>
      var i := IndexOf(url, ",");
      && url == url[..i] + "," + ParseDataUrl(url).value.base64
      && ',' !in url[..i]
      && ParseDataUrl(url).value.mime == MimeOf(url[..i])
  {
    var i := IndexOf(url, ",");
    if i < 0 {
      forall k | 0 <= k < |url| ensures url[k] != ',' {
        assert !OccursAt(url, ",", k);
        assert url[k..k + 1] == [url[k]];
      }
    } else {
      assert url[i..i + 1] == ",";
      assert url == url[..i] + url[i..i + 1] + url[i + 1..];
      forall k | 0 <= k < i ensures url[k] != ',' {
        assert !OccursAt(url, ",", k);
        assert url[k..k + 1] == [url[k]];
      }
    }
  }

  /** A header `data:<mime>` followed by `;parameters` (or nothing) yields `<mime>`. */
  lemma MimeOfDataHeader(mime: string, params: string)
    requires mime != [] && ';' !in mime
    requires params == [] || params[0] == ';'
    requires NoLineTerminator(params)
    ensures MimeOf("data:" + mime + params) == mime
  {
    var header := "data:" + mime + params;
    var rest := header[5..];
    assert rest == mime + params;
    RunLengthOf(mime, params);
    assert rest[RunLength(rest)..] == params;
  }

  lemma {:induction false} RunLengthOf(run: string, rest: string)
    requires ';' !in run && (rest == [] || rest[0] == ';')
    ensures RunLength(run + rest) == |run|
  {
    if run != [] {
      assert (run + rest)[1..] == run[1..] + rest;
      RunLengthOf(run[1..], rest);
    } else {
      assert run + rest == rest;
    }
  }

  /** A data URL header with parameters after the type, as the speech service
      sends for raw PCM at any sample rate. */
  lemma MimeExampleWithParameters(rate: string)
    requires AllDigits(rate)
    ensures MimeOf("data:audio/pcm" + (";rate=" + rate + ";base64")) == "audio/pcm"
  {
    var mime, params := "audio/pcm", ";rate=" + rate + ";base64";
    assert ';' !in mime;
    forall i | 0 <= i < |params|
      ensures !IsLineTerminator(params[i])
    {
      if 6 <= i < 6 + |rate| {
        assert params[i] == rate[i - 6];
      }
    }
    assert "data:audio/pcm" == "data:" + mime;
    MimeOfDataHeader(mime, params);
  }

  /** An empty type does not match, so the header itself is used. */
  lemma MimeExampleEmptyType()
    ensures MimeOf("data:;base64") == "data:;base64"
  {
    var h := "data:;base64";
    assert StartsWith(h, "data:") by { assert h[..5] == "data:"; }
    assert h[5..][0] == ';';
  }

  // ----- Choosing the media field of the speech response -----

  /** An object that may carry the audio under `url`, `uri` or `data`. */
  datatype MediaPart = MediaPart(url: Option<string>, uri: Option<string>, data: Option<string>)

  /** A response field: absent, one object, or an array of objects. */
  datatype MediaValue = Absent | Single(part: MediaPart) | Many(parts: seq<MediaPart>)

  /** The speech service's response: its `media` and `output` fields, and the
      URL fields of the response object itself. */
  datatype SpeechResponse = SpeechResponse(media: MediaValue, output: MediaValue, own: MediaPart)

  /** `media ?? output ?? result`, then the first element of an array, as a part
      (None when an array is empty). */
  function MediaPartOf(res: SpeechResponse): Option<MediaPart> {
    var chosen := if !res.media.Absent? then res.media
                  else if !res.output.Absent? then res.output
                  else Single(res.own);
    match chosen
    case Single(p) => Some(p)
    case Many(ps) => if ps == [] then None else Some(ps[0])
    case Absent => None
  }

  /** The audio URL: `url ?? uri ?? data` of the chosen part; an absent or empty
      URL throws. */
  function SelectMedia(res: SpeechResponse): (r: Result<string, string>)
    ensures r.Err? ==> r.error == NoMedia
    ensures r.Ok? ==> r.value != []
  {
    match MediaPartOf(res)
    case None => Err(NoMedia)
    case Some(p) =>
      var u := p.url.OrElse(p.uri).OrElse(p.data);
      if u.None? || u.value == [] then Err(NoMedia) else Ok(u.value)
  }

  /** The URL is taken from the first field present in priority order, and the
      request fails exactly when that field is missing or empty. */
  lemma SelectMediaSpec(res: SpeechResponse)
    ensures MediaPartOf(res).Some? ==>
      var p := MediaPartOf(res).value;
      && (p.url.Some? ==> SelectMedia(res) == (if p.url.value == [] then Err(NoMedia) else Ok(p.url.value)))
      && (p.url.None? && p.uri.Some? ==> SelectMedia(res) == (if p.uri.value == [] then Err(NoMedia) else Ok(p.uri.value)))
      && (p.url.None? && p.uri.None? ==> SelectMedia(res) == (if p.data.None? || p.data.value == [] then Err(NoMedia) else Ok(p.data.value)))
    ensures res.media.Single? ==> MediaPartOf(res) == Some(res.media.part)
    ensures res.media.Many? && res.media.parts != [] ==> MediaPartOf(res) == Some(res.media.parts[0])
    ensures res.media.Absent? && res.output.Single? ==> MediaPartOf(res) == Some(res.output.part)
    ensures res.media.Absent? && res.output.Many? && res.output.parts != [] ==>
      MediaPartOf(res) == Some(res.output.parts[0])
    ensures res.media.Absent? && res.output.Absent? ==> MediaPartOf(res) == Some(res.own)
    ensures res.media == Many([]) ==> SelectMedia(res).Err?
  {
  }

  // ----- Normalising the audio -----

  predicate IsRawPcm(mime: string) {
    mime == "audio/pcm" || mime == "audio/x-raw"
  }

  /** The audio data URL the flow returns for the service's data URL: raw PCM is
      decoded, wrapped as WAV and re-encoded; any other type is rebuilt as
      `data:<mime>;base64,<payload>` with the payload untouched. */
  function NormalizeAudio(url: string, decode: string -> seq<Byte>,
                          wavBase64: (seq<Byte>, WavFormat) -> string): (r: Result<string, string>)
    ensures ParseDataUrl(url).Err? ==> r == Err(InvalidDataUrl)
    ensures ParseDataUrl(url).Ok? && IsRawPcm(ParseDataUrl(url).value.mime) ==>
      r == Ok("data:audio/wav;base64," + wavBase64(decode(ParseDataUrl(url).value.base64), SpeechFormat))
    ensures ParseDataUrl(url).Ok? && !IsRawPcm(ParseDataUrl(url).value.mime) ==>
      r == Ok("data:" + ParseDataUrl(url).value.mime + ";base64," + ParseDataUrl(url).value.base64)
  {
    match ParseDataUrl(url)
    case Err(e) => Err(e)
    case Ok(DataUrl(mime, payload)) =>
      var raw := decode(payload);
      if IsRawPcm(mime) then Ok("data:audio/wav;base64," + wavBase64(raw, SpeechFormat))
      else Ok("data:" + mime + ";base64," + payload)
  }

  /** A base64 data URL of any type other than raw PCM comes back unchanged. */
  lemma NormalizePassThrough(mime: string, payload: string, decode: string -> seq<Byte>,
                             wavBase64: (seq<Byte>, WavFormat) -> string)
    requires mime != [] && ';' !in mime && ',' !in mime && !IsRawPcm(mime)
    ensures var url := "data:" + mime + ";base64," + payload;
      NormalizeAudio(url, decode, wavBase64) == Ok(url)
  {
    var header := "data:" + mime + ";base64";
    var url := header + "," + payload;
    assert url == "data:" + mime + ";base64," + payload;
    assert ',' !in header;
    IndexOfAfter(header, ',', payload);
    assert url[..|header|] == header && url[|header| + 1..] == payload;
    MimeOfDataHeader(mime, ";base64");
  }

  /** A data URL of a type other than raw PCM comes back unchanged exactly when
      its header is `data:<mime>;base64`, the header the flow rebuilds. */
  lemma NormalizeUnchangedIff(url: string, decode: string -> seq<Byte>,
                              wavBase64: (seq<Byte>, WavFormat) -> string)
    requires ParseDataUrl(url).Ok? && !IsRawPcm(ParseDataUrl(url).value.mime)
    ensures NormalizeAudio(url, decode, wavBase64) == Ok(url) <==>
      url[..IndexOf(url, ",")] == "data:" + ParseDataUrl(url).value.mime + ";base64"
  {
    ParseDataUrlSpec(url);
    var i := IndexOf(url, ",");
    var parsed := ParseDataUrl(url).value;
    RebuiltIff(url, url[..i], parsed.mime, parsed.base64);
  }

  /** A URL split at a comma is rebuilt as `data:<mime>;base64,` and its own
      payload exactly when `data:<mime>;base64` is its own header. */
  lemma RebuiltIff(url: string, own: string, mime: string, payload: string)
    requires url == own + "," + payload
    ensures "data:" + mime + ";base64," + payload == url <==> own == "data:" + mime + ";base64"
  {
    var header := "data:" + mime + ";base64";
    assert "data:" + mime + ";base64," + payload == header + "," + payload;
    if header + "," + payload == url {
      assert |header| == |own|;
      assert header == url[..|header|];
      assert own == url[..|own|];
    }
  }

  /** A raw PCM data URL always becomes a WAV data URL, whatever the header's
      parameters. */
  lemma NormalizeWrapsPcm(params: string, payload: string, decode: string -> seq<Byte>,
                          wavBase64: (seq<Byte>, WavFormat) -> string)
    requires params == [] || params[0] == ';'
    requires ',' !in params && NoLineTerminator(params)
    ensures var url := "data:audio/pcm" + params + "," + payload;
      NormalizeAudio(url, decode, wavBase64) ==
        Ok("data:audio/wav;base64," + wavBase64(decode(payload), SpeechFormat))
  {
    var header := "data:audio/pcm" + params;
    var url := header + "," + payload;
    assert ',' !in header;
    IndexOfAfter(header, ',', payload);
    assert url[..|header|] == header && url[|header| + 1..] == payload;
    assert "data:" + "audio/pcm" == "data:audio/pcm";
    assert "data:" + "audio/pcm" + params == header;
    MimeOfDataHeader("audio/pcm", params);
  }

  /** How a call of the flow fails: its input schema refuses the input with
      the schema's issue messages before the body runs, or the body throws. */
  datatype FlowError = InvalidInput(issues: seq<string>) | Failed(message: string)

  /** A failure of a step of the body, as thrown by the flow. */
  function Thrown(r: Result<string, string>): Result<string, FlowError> {
    match r
    case Ok(v) => Ok(v)
    case Err(e) => Err(Failed(e))
  }

  /** The whole flow with its services as parameters. The input schema's
      `min(1)` refuses the empty summary (the only string under one UTF-16
      unit). The body then trims the summary and throws when it is blank; the
      text service turns it into a script (an empty script is refused); the
      speech service's response must carry a data URL, which is then
      normalised. */
  function DialogueFlow(summary: string,
                        dialoguePrompt: string -> Option<string>,
                        speech: string -> SpeechResponse,
                        decode: string -> seq<Byte>,
                        wavBase64: (seq<Byte>, WavFormat) -> string): Result<string, FlowError>
  {
    if summary == [] then Err(InvalidInput([EmptySummary]))
    else
      var s := Trim(summary);
      if s == [] then Err(Failed(EmptySummary))
      else
        var script := dialoguePrompt(s);
        if script.None? || script.value == [] then Err(Failed(NoScript))
        else
          match SelectMedia(speech(script.value))
          case Err(e) => Err(Failed(e))
          case Ok(url) => Thrown(NormalizeAudio(url, decode, wavBase64))
  }

  /** The empty summary never reaches the body: the input schema refuses it
      with its own issue, whatever the services would answer. (A summary of
      white space only gets through the schema; `BlankSummaryRefused` shows
      the body throwing it out.) */
  lemma EmptySummarySchema(p: string -> Option<string>, sp: string -> SpeechResponse,
                           decode: string -> seq<Byte>,
                           wavBase64: (seq<Byte>, WavFormat) -> string)
    ensures DialogueFlow([], p, sp, decode, wavBase64) == Err(InvalidInput([EmptySummary]))
  {
  }

  /** A blank or all-white-space summary is refused before either service is
      consulted, by the schema when it is empty and by the body otherwise: the
      outcome is the same whatever the services would answer. */
  lemma BlankSummaryRefused(summary: string,
                            p1: string -> Option<string>, p2: string -> Option<string>,
                            s1: string -> SpeechResponse, s2: string -> SpeechResponse,
                            decode: string -> seq<Byte>,
                            wavBase64: (seq<Byte>, WavFormat) -> string)
    requires AllSpace(summary)
    ensures summary == [] ==> DialogueFlow(summary, p1, s1, decode, wavBase64) == Err(InvalidInput([EmptySummary]))
    ensures summary != [] ==> DialogueFlow(summary, p1, s1, decode, wavBase64) == Err(Failed(EmptySummary))
    ensures DialogueFlow(summary, p1, s1, decode, wavBase64) ==
            DialogueFlow(summary, p2, s2, decode, wavBase64)
  {
    TrimFacts(summary);
  }

  /** Otherwise the text service is asked about the trimmed summary, and a
      usable response ends in the normalised audio URL. */
  lemma FlowSucceeds(summary: string,
                     dialoguePrompt: string -> Option<string>,
                     speech: string -> SpeechResponse,
                     decode: string -> seq<Byte>,
                     wavBase64: (seq<Byte>, WavFormat) -> string)
    requires !AllSpace(summary)
    requires dialoguePrompt(Trim(summary)).Some? && dialoguePrompt(Trim(summary)).value != []
    requires SelectMedia(speech(dialoguePrompt(Trim(summary)).value)).Ok?
    ensures var normalized := NormalizeAudio(SelectMedia(speech(dialoguePrompt(Trim(summary)).value)).value, decode, wavBase64);
      && (normalized.Ok? ==> DialogueFlow(summary, dialoguePrompt, speech, decode, wavBase64) == Ok(normalized.value))
      && (normalized.Err? ==> DialogueFlow(summary, dialoguePrompt, speech, decode, wavBase64) == Err(Failed(normalized.error)))
  {
    TrimFacts(summary);
  }
}
