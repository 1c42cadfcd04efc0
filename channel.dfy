/** The channel-emote filter every converter shares (`BaseConverter`). The set is read from
    `channel_emotes.json` when the converter is built and never changes afterwards, so it is passed
    here as a value. */
module ChannelFilter {
  import opened Schema

  /** An emote may be shown as an image when no filter is configured, or when it is listed. */
  predicate IsChannelEmote(channelEmotes: set<string>, emoteId: string)
    ensures channelEmotes == {} ==> IsChannelEmote(channelEmotes, emoteId)
    ensures channelEmotes != {} ==> (IsChannelEmote(channelEmotes, emoteId) <==> emoteId in channelEmotes)
  {
    channelEmotes == {} || emoteId in channelEmotes
  }

  /** The segment an emote becomes: its image when it passes the filter, else the text `:name:`. */
  function EmoteOrPlaceholder(channelEmotes: set<string>, emoteId: string, name: string): (s: Segment)
    ensures IsChannelEmote(channelEmotes, emoteId) ==> s == Emoji(emoteId, name)
    ensures !IsChannelEmote(channelEmotes, emoteId) ==> s == Text(Placeholder(name))
    ensures Display(s) == Placeholder(name)
  {
    if IsChannelEmote(channelEmotes, emoteId) then Emoji(emoteId, name) else Text(Placeholder(name))
  }

  /** Filtering only ever narrows: an emote admitted by a non-empty filter is admitted by any larger one,
      and what the larger one admits beyond the smaller are exactly the ids added to it. */
  lemma FilterMonotone(small: set<string>, large: set<string>, emoteId: string)
    requires small != {} && small <= large
    ensures IsChannelEmote(small, emoteId) ==> IsChannelEmote(large, emoteId)
    ensures IsChannelEmote(large, emoteId) && !IsChannelEmote(small, emoteId) <==> emoteId in large - small
  {
  }
}
