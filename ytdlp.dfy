/** yt-dlp live chat (YouTube): flattening a message's runs into raw text and segments
    (`YtdlpLiveConverter._parse_runs`). */
module YtdlpLive {
  import opened Wrappers
  import opened Schema
  import PyStr

  /** The `emoji` object of a run; an absent key is `None` and takes the source's default. */
  datatype EmojiInfo = EmojiInfo(emojiId: Option<string>, shortcuts: Option<seq<string>>, isCustomEmoji: Option<bool>)

  /** A run of a message: which of the keys `text` and `emoji` it has. */
  datatype Run = Run(text: Option<string>, emoji: Option<EmojiInfo>)

  /** The emoji's display name: its first shortcut without surrounding colons, else "emoji". */
  function EmojiName(e: EmojiInfo): (name: string)
    ensures e.shortcuts.GetOr([]) == [] ==> name == "emoji"
    ensures e.shortcuts.GetOr([]) != [] ==> name == PyStr.TrimBoth(e.shortcuts.value[0], PyStr.IsColon)
    ensures name != [] ==> name[0] != ':' && name[|name| - 1] != ':'
  {
    var shortcuts := e.shortcuts.GetOr([]);
    if shortcuts != [] then PyStr.StripColons(shortcuts[0]) else "emoji"
  }

  /** An id that is short or does not look like a channel id (`UC...`) is the emoji character itself. */
  predicate IsUnicodeId(emojiId: string) {
    |emojiId| <= 4 || !PyStr.StartsWith(emojiId, "UC")
  }

  /** The segment an emoji run becomes: a custom emoji is an image, otherwise a Unicode emoji is its own
      character as text, and anything else is the `:name:` placeholder. */
  function EmojiSegment(e: EmojiInfo): (s: Segment)
    ensures var id := e.emojiId.GetOr("");
      && (e.isCustomEmoji.GetOr(false) ==> s == Emoji(id, EmojiName(e)))
      && (!e.isCustomEmoji.GetOr(false) && IsUnicodeId(id) ==> s == Text(id))
      && (!e.isCustomEmoji.GetOr(false) && !IsUnicodeId(id) ==> s == Text(Placeholder(EmojiName(e))))
      && (s.Emoji? <==> e.isCustomEmoji.GetOr(false))
  {
    var id := e.emojiId.GetOr("");
    var isCustom := e.isCustomEmoji.GetOr(false);
    if IsUnicodeId(id) && !isCustom then Text(id)
    else if isCustom then Emoji(id, EmojiName(e))
    else Text(Placeholder(EmojiName(e)))
  }

  /** The segment a run becomes, if any: `text` wins over `emoji`, and a run with neither is skipped. */
  function RunSegment(run: Run): (s: Option<Segment>)
    ensures s.None? <==> run.text.None? && run.emoji.None?
    ensures run.text.Some? ==> s == Some(Text(run.text.value))
  {
    if run.text.Some? then Some(Text(run.text.value))
    else if run.emoji.Some? then Some(EmojiSegment(run.emoji.value))
    else None
  }

  /** The segments of a message, run by run. */
  function RunsSegments(runs: seq<Run>): seq<Segment> {
    if runs == [] then []
    else RunsSegments(runs[..|runs| - 1]) + OptionToSeq(RunSegment(runs[|runs| - 1]))
  }

  /** `_parse_runs`: builds the raw text and the segments side by side. */
  method ParseRuns(runs: seq<Run>) returns (raw: string, segments: seq<Segment>)
    ensures segments == RunsSegments(runs)
    ensures raw == Flatten(segments)
  {
    var rawParts: seq<string> := [];
    segments := [];
    for i := 0 to |runs|
      invariant segments == RunsSegments(runs[..i])
      invariant rawParts == Displays(segments)
    {
      RunsSegmentsStep(runs, i);
      var run := runs[i];
      if run.text.Some? {
        var text := run.text.value;
        DisplaysSnoc(segments, Text(text));
        rawParts := rawParts + [text];
        segments := segments + [Text(text)];
      } else if run.emoji.Some? {
        var emoji := run.emoji.value;
        var emojiId := emoji.emojiId.GetOr("");
        var shortcuts := emoji.shortcuts.GetOr([]);
        var name := if shortcuts != [] then PyStr.StripColons(shortcuts[0]) else "emoji";
        var isUnicode := |emojiId| <= 4 || !PyStr.StartsWith(emojiId, "UC");
        var isCustom := emoji.isCustomEmoji.GetOr(false);
        if isUnicode && !isCustom {
          assert EmojiSegment(emoji) == Text(emojiId);
          DisplaysSnoc(segments, Text(emojiId));
          rawParts := rawParts + [emojiId];
          segments := segments + [Text(emojiId)];
        } else if isCustom {
          assert EmojiSegment(emoji) == Emoji(emojiId, name);
          DisplaysSnoc(segments, Emoji(emojiId, name));
          rawParts := rawParts + [Placeholder(name)];
          segments := segments + [Emoji(emojiId, name)];
        } else {
          assert EmojiSegment(emoji) == Text(Placeholder(name));
          DisplaysSnoc(segments, Text(Placeholder(name)));
          rawParts := rawParts + [Placeholder(name)];
          segments := segments + [Text(Placeholder(name))];
        }
      }
    }
    assert runs[..|runs|] == runs;
    raw := PyStr.Join(rawParts);
  }

  /** The segments of the first `i + 1` runs extend those of the first `i` by what run `i` gives. */
  lemma RunsSegmentsStep(runs: seq<Run>, i: nat)
    requires i < |runs|
    ensures RunsSegments(runs[..i + 1]) == RunsSegments(runs[..i]) + OptionToSeq(RunSegment(runs[i]))
  {
    assert runs[..i + 1][..i] == runs[..i];
  }

  lemma DisplaysSnoc(segs: seq<Segment>, s: Segment)
    ensures Displays(segs + [s]) == Displays(segs) + [Display(s)]
  {
  }

  /** Runs are flattened one after another: the segments of a concatenation are the concatenation of
      the segments, so the order of runs is the order of segments. */
  lemma {:induction false} RunsSegmentsAppend(a: seq<Run>, b: seq<Run>)
    ensures RunsSegments(a + b) == RunsSegments(a) + RunsSegments(b)
    decreases |b|
  {
    if b == [] {
      assert a + b == a;
    } else {
      var b' := b[..|b| - 1];
      assert (a + b)[..|a + b| - 1] == a + b';
      assert (a + b)[|a + b| - 1] == b[|b| - 1];
      RunsSegmentsAppend(a, b');
    }
  }

  /** A run with neither `text` nor `emoji` leaves no trace. */
  lemma RunWithoutContentSkipped(a: seq<Run>, run: Run, b: seq<Run>)
    requires run.text.None? && run.emoji.None?
    ensures RunsSegments(a + [run] + b) == RunsSegments(a + b)
  {
    assert [run][..0] == [];
    assert RunsSegments([run]) == [];
    RunsSegmentsAppend(a + [run], b);
    RunsSegmentsAppend(a, [run]);
    RunsSegmentsAppend(a, b);
  }

  /** How many runs carry `text` or `emoji`. */
  function ContentRuns(runs: seq<Run>): nat {
    if runs == [] then 0
    else ContentRuns(runs[..|runs| - 1]) + (if RunSegment(runs[|runs| - 1]).Some? then 1 else 0)
  }

  /** One segment per run that has content, and none for the others. */
  lemma {:induction false} RunsSegmentsCount(runs: seq<Run>)
    ensures |RunsSegments(runs)| == ContentRuns(runs) <= |runs|
  {
    if runs != [] {
      RunsSegmentsCount(runs[..|runs| - 1]);
    }
  }

  /** A message made of text runs only has the concatenated texts as its raw text. */
  lemma {:induction false} TextRunsRaw(runs: seq<Run>, texts: seq<string>)
    requires |texts| == |runs|
    requires forall i :: 0 <= i < |runs| ==> runs[i].text == Some(texts[i])
    ensures Flatten(RunsSegments(runs)) == PyStr.Join(texts)
  {
    if runs != [] {
      var n := |runs| - 1;
      var init, last := RunsSegments(runs[..n]), Text(texts[n]);
      TextRunsRaw(runs[..n], texts[..n]);
      assert RunsSegments(runs) == init + [last];
      FlattenAppend(init, [last]);
      assert Displays([last]) == [texts[n]];
      assert PyStr.Join([texts[n]]) == texts[n] by {
        assert [texts[n]][..0] == [];
      }
      assert texts == texts[..n] + [texts[n]];
      PyStr.JoinAppend(texts[..n], [texts[n]]);
    }
  }
}
