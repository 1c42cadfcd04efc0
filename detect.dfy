/** Recognising which tool wrote a chat dump (`detect_format`) and picking its converter
    (`get_converter`). */
module Detect {
  import opened Wrappers
  import opened Json
  import PyStr

  datatype ChatFormat = TwitchDownloader | ChatDownloader | YtdlpLive | YtdlpPosthoc | Unknown

  /** The whole file is a TwitchDownloader dump: an object with both `FileInfo` and `comments`. */
  predicate IsTwitchDump(whole: Option<Json>) {
    whole.Some? && whole.value.JObj? && HasKey(whole.value, "FileInfo") && HasKey(whole.value, "comments")
  }

  /** The JSON Lines part of `detect_format`, given the value decoded from the stripped first line:
      `client_nonce` and `message_id` mean chat_downloader; `replayChatItemAction` means yt-dlp, live when
      `isLive` or `videoOffsetTimeMsec` is at the top level and post-hoc otherwise. `in` on a line that
      decoded to a number, a boolean or `null` raises. */
  function DetectLine(v: Json): (r: Result<ChatFormat, string>)
    ensures r.Failure? <==> !(v.JObj? || v.JArr? || v.JStr?)
    ensures r.Success? ==> r.value != TwitchDownloader
  {
    match PyIn("client_nonce", v)
    case Failure(e) => Failure(e)
    case Success(hasNonce) =>
      if hasNonce && PyIn("message_id", v) == Success(true) then Success(ChatDownloader)
      else if PyIn("replayChatItemAction", v) == Success(true) then
        (if PyIn("isLive", v) == Success(true) || PyIn("videoOffsetTimeMsec", v) == Success(true)
         then Success(YtdlpLive) else Success(YtdlpPosthoc))
      else Success(Unknown)
  }

  /** `detect_format`. `whole` is what `json.load` gives for the whole file (`None` when it raises a
      decoding error); `firstLine` is the file's first line; `lineValue` is what `json.loads` gives for
      that line once stripped (`None` when it raises a decoding error). A `TypeError` from `in` is not
      caught, so it comes out as a failure. */
  function DetectFormat(whole: Option<Json>, firstLine: string, lineValue: Option<Json>): (r: Result<ChatFormat, string>)
    ensures IsTwitchDump(whole) ==> r == Success(TwitchDownloader)
    ensures !IsTwitchDump(whole) && PyStr.Strip(firstLine) == "" ==> r == Success(Unknown)
    ensures !IsTwitchDump(whole) && PyStr.Strip(firstLine) != "" && lineValue.None? ==> r == Success(Unknown)
    ensures !IsTwitchDump(whole) && PyStr.Strip(firstLine) != "" && lineValue.Some? ==> r == DetectLine(lineValue.value)
  {
    if IsTwitchDump(whole) then Success(TwitchDownloader)
    else if PyStr.Strip(firstLine) == "" then Success(Unknown)
    else match lineValue
      case None => Success(Unknown)
      case Some(v) => DetectLine(v)
  }

  /** chat_downloader is recognised exactly when the line has both `client_nonce` and `message_id`. */
  lemma DetectChatDownloader(whole: Option<Json>, firstLine: string, lineValue: Option<Json>)
    ensures DetectFormat(whole, firstLine, lineValue) == Success(ChatDownloader)
      <==> !IsTwitchDump(whole) && PyStr.Strip(firstLine) != "" && lineValue.Some?
           && PyIn("client_nonce", lineValue.value) == Success(true)
           && PyIn("message_id", lineValue.value) == Success(true)
  {
  }

  /** For a line that decoded to an object: which keys it has decides the whole outcome. Live yt-dlp
      needs `replayChatItemAction` and one of the two live markers but not the chat_downloader pair;
      post-hoc is the same without either marker; anything else is unknown. */
  lemma DetectObjectLine(fields: seq<(string, Json)>)
    ensures var v := JObj(fields);
      var chat := HasKey(v, "client_nonce") && HasKey(v, "message_id");
      var yt := HasKey(v, "replayChatItemAction");
      var live := HasKey(v, "isLive") || HasKey(v, "videoOffsetTimeMsec");
      && (DetectLine(v) == Success(ChatDownloader) <==> chat)
      && (DetectLine(v) == Success(YtdlpLive) <==> !chat && yt && live)
      && (DetectLine(v) == Success(YtdlpPosthoc) <==> !chat && yt && !live)
      && (DetectLine(v) == Success(Unknown) <==> !chat && !yt)
  {
  }

  /** Only the set of keys of the first line's object matters, not their values or their order. */
  lemma DetectOnlyKeys(a: seq<(string, Json)>, b: seq<(string, Json)>)
    requires forall k :: k in Keys(a) <==> k in Keys(b)
    ensures DetectLine(JObj(a)) == DetectLine(JObj(b))
  {
    assert HasKey(JObj(a), "client_nonce") == HasKey(JObj(b), "client_nonce");
    assert HasKey(JObj(a), "message_id") == HasKey(JObj(b), "message_id");
    assert HasKey(JObj(a), "replayChatItemAction") == HasKey(JObj(b), "replayChatItemAction");
    assert HasKey(JObj(a), "isLive") == HasKey(JObj(b), "isLive");
    assert HasKey(JObj(a), "videoOffsetTimeMsec") == HasKey(JObj(b), "videoOffsetTimeMsec");
  }

  /** A first line holding a JSON string is searched as text: a string line is taken for a
      chat_downloader dump exactly when it mentions both chat_downloader keys somewhere. */
  lemma StringLineSearchedAsText(s: string)
    ensures DetectLine(JStr(s)) == Success(ChatDownloader)
      <==> PyStr.IsSubstring("client_nonce", s) && PyStr.IsSubstring("message_id", s)
  {
  }

  /** Detection fails only with the `TypeError` of a first line that decoded to a scalar, and only when
      the whole file is not a TwitchDownloader dump. */
  lemma DetectFails(whole: Option<Json>, firstLine: string, lineValue: Option<Json>)
    ensures DetectFormat(whole, firstLine, lineValue).Failure?
      <==> !IsTwitchDump(whole) && PyStr.Strip(firstLine) != "" && lineValue.Some?
           && !(lineValue.value.JObj? || lineValue.value.JArr? || lineValue.value.JStr?)
  {
  }

  // ---- get_converter

  datatype Converter = TwitchDownloaderConverter | ChatDownloaderConverter | YtdlpLiveConverter

  /** `get_converter`: the converter class for a format; post-hoc yt-dlp dumps share the live one, and
      an unknown format raises a `ValueError` naming it. */
  function GetConverter(f: ChatFormat): (r: Result<Converter, string>)
    ensures r.Failure? <==> f == Unknown
    ensures r.Failure? ==> r.error == "No converter for format: ChatFormat.UNKNOWN"
  {
    match f
    case TwitchDownloader => Success(TwitchDownloaderConverter)
    case ChatDownloader => Success(ChatDownloaderConverter)
    case YtdlpLive => Success(YtdlpLiveConverter)
    case YtdlpPosthoc => Success(YtdlpLiveConverter)
    case Unknown => Failure("No converter for format: ChatFormat.UNKNOWN")
  }

  /** Every detected format but the unknown one gets a converter; the yt-dlp formats get the same one,
      and no other two formats share one. */
  lemma ConverterPerFormat(f: ChatFormat, g: ChatFormat)
    requires f != Unknown && g != Unknown
    ensures GetConverter(f).Success?
    ensures GetConverter(f) == GetConverter(g) <==> f == g || ({f, g} == {YtdlpLive, YtdlpPosthoc})
  {
  }

  /** A file that `detect_format` classifies gets a converter unless it is unknown. */
  lemma DetectedHasConverter(whole: Option<Json>, firstLine: string, lineValue: Option<Json>)
    requires DetectFormat(whole, firstLine, lineValue).Success?
    ensures GetConverter(DetectFormat(whole, firstLine, lineValue).value).Success?
      <==> DetectFormat(whole, firstLine, lineValue).value != Unknown
  {
  }
}
