/** TwitchDownloader: turning a comment's message fragments into segments
    (`TwitchDownloaderConverter._parse_fragments`). */
module TwitchDownloader {
  import opened Wrappers
  import opened Schema
  import ChannelFilter
  import PyStr

  /** The `emoticon` object of a fragment: its `emoticon_id`, if present. */
  datatype Emoticon = Emoticon(emoticonId: Option<string>)

  /** A message fragment: its `emoticon` (absent or `null` is `None`) and its `text`. */
  datatype Fragment = Fragment(emoticon: Option<Emoticon>, text: Option<string>)

  /** The emote id of a fragment that is an emote: an `emoticon` whose `emoticon_id` is a non-empty
      string. (An `emoticon` object without that id is not an emote, whatever else it holds.) */
  function EmoteId(f: Fragment): (id: Option<string>)
    ensures id.Some? ==> id.value != ""
  {
    if f.emoticon.Some? && f.emoticon.value.emoticonId.Some? && f.emoticon.value.emoticonId.value != ""
    then f.emoticon.value.emoticonId
    else None
  }

  /** The segment a fragment becomes, if any: an emote gives its image (named by its stripped text) or,
      outside the channel filter, the `:name:` text; other fragments give their text unless it is empty. */
  function FragmentSegment(channelEmotes: set<string>, f: Fragment): (s: Option<Segment>)
    ensures EmoteId(f).Some? ==> s.Some? && Display(s.value) == Placeholder(PyStr.Strip(f.text.GetOr("")))
    ensures EmoteId(f).Some? && !ChannelFilter.IsChannelEmote(channelEmotes, EmoteId(f).value) ==>
      s == Some(Text(Placeholder(PyStr.Strip(f.text.GetOr("")))))
    ensures EmoteId(f).Some? && ChannelFilter.IsChannelEmote(channelEmotes, EmoteId(f).value) ==>
      s == Some(Emoji(EmoteId(f).value, PyStr.Strip(f.text.GetOr(""))))
    ensures EmoteId(f).None? ==> (s.None? <==> f.text.GetOr("") == "")
    ensures EmoteId(f).None? && s.Some? ==> s.value == Text(f.text.value)
  {
    var text := f.text.GetOr("");
    match EmoteId(f)
    case Some(id) => Some(ChannelFilter.EmoteOrPlaceholder(channelEmotes, id, PyStr.Strip(text)))
    case None => if text != "" then Some(Text(text)) else None
  }

  /** The segments of a comment, fragment by fragment. */
  function FragmentsSegments(channelEmotes: set<string>, fragments: seq<Fragment>): seq<Segment> {
    if fragments == [] then []
    else
      var f := fragments[|fragments| - 1];
      FragmentsSegments(channelEmotes, fragments[..|fragments| - 1]) + OptionToSeq(FragmentSegment(channelEmotes, f))
  }

  /** `_parse_fragments`. */
  method ParseFragments(channelEmotes: set<string>, fragments: seq<Fragment>) returns (segments: seq<Segment>)
    ensures segments == FragmentsSegments(channelEmotes, fragments)
  {
    segments := [];
    for i := 0 to |fragments|
      invariant segments == FragmentsSegments(channelEmotes, fragments[..i])
    {
      assert fragments[..i + 1][..i] == fragments[..i];
      var frag := fragments[i];
      var text := frag.text.GetOr("");
      if frag.emoticon.Some? && frag.emoticon.value.emoticonId.Some? && frag.emoticon.value.emoticonId.value != "" {
        var emoteId := frag.emoticon.value.emoticonId.value;
        if ChannelFilter.IsChannelEmote(channelEmotes, emoteId) {
          segments := segments + [Emoji(emoteId, PyStr.Strip(text))];
        } else {
          segments := segments + [Text(":" + PyStr.Strip(text) + ":")];
        }
      } else {
        if text != "" {
          segments := segments + [Text(text)];
        }
      }
    }
    assert fragments[..|fragments|] == fragments;
  }

  /** Fragments are translated one after another, so the order of fragments is the order of segments. */
  lemma {:induction false} FragmentsSegmentsAppend(ch: set<string>, a: seq<Fragment>, b: seq<Fragment>)
    ensures FragmentsSegments(ch, a + b) == FragmentsSegments(ch, a) + FragmentsSegments(ch, b)
    decreases |b|
  {
    if b == [] {
      assert a + b == a;
    } else {
      var b' := b[..|b| - 1];
      assert (a + b)[..|a + b| - 1] == a + b';
      assert (a + b)[|a + b| - 1] == b[|b| - 1];
      FragmentsSegmentsAppend(ch, a, b');
    }
  }

  /** A plain fragment with empty text is dropped, and so leaves the rest unchanged. */
  lemma EmptyTextFragmentDropped(ch: set<string>, a: seq<Fragment>, f: Fragment, b: seq<Fragment>)
    requires EmoteId(f).None? && f.text.GetOr("") == ""
    ensures FragmentsSegments(ch, a + [f] + b) == FragmentsSegments(ch, a + b)
  {
    assert [f][..0] == [];
    assert FragmentsSegments(ch, [f]) == [];
    FragmentsSegmentsAppend(ch, a + [f], b);
    FragmentsSegmentsAppend(ch, a, [f]);
    FragmentsSegmentsAppend(ch, a, b);
  }

  /** How many fragments yield a segment: every emote, and every other fragment with text. */
  function KeptFragments(fragments: seq<Fragment>): nat {
    if fragments == [] then 0
    else
      var f := fragments[|fragments| - 1];
      KeptFragments(fragments[..|fragments| - 1]) + (if EmoteId(f).Some? || f.text.GetOr("") != "" then 1 else 0)
  }

  lemma {:induction false} FragmentsSegmentsCount(ch: set<string>, fragments: seq<Fragment>)
    ensures |FragmentsSegments(ch, fragments)| == KeptFragments(fragments) <= |fragments|
  {
    if fragments != [] {
      FragmentsSegmentsCount(ch, fragments[..|fragments| - 1]);
    }
  }
}
