/** chat_downloader (Twitch): splitting a message's text at its emote locations
    (`ChatDownloaderConverter._parse_message_with_emotes`). */
module ChatDownloader {
  import opened Wrappers
  import opened Schema
  import opened Location
  import opened RangeSort
  import ChannelFilter
  import PyStr

  /** An entry of `emotes`: its `id`, `name` and `locations`, each possibly absent. */
  datatype ChatEmote = ChatEmote(id: Option<string>, name: Option<string>, locations: Option<seq<string>>)

  // ---- collecting the ranges

  /** The ranges one emote's locations give, in order; locations that do not parse are skipped. */
  function LocRanges(id: string, name: string, locs: seq<string>): (rs: seq<EmoteRange>)
    ensures |rs| <= |locs|
    ensures forall i :: 0 <= i < |rs| ==> rs[i].id == id && rs[i].name == name
  {
    if locs == [] then []
    else
      var rs := LocRanges(id, name, locs[..|locs| - 1]);
      match ParseLocation(locs[|locs| - 1])
      case None => rs
      case Some(sp) => rs + [EmoteRange(sp.start, sp.end, id, name)]
  }

  function EmoteRanges(e: ChatEmote): seq<EmoteRange> {
    LocRanges(e.id.GetOr(""), e.name.GetOr(""), e.locations.GetOr([]))
  }

  /** All ranges of all emotes, emote by emote. */
  function CollectRanges(emotes: seq<ChatEmote>): seq<EmoteRange> {
    if emotes == [] then [] else CollectRanges(emotes[..|emotes| - 1]) + EmoteRanges(emotes[|emotes| - 1])
  }

  /** A location that does not match contributes nothing. */
  lemma UnmatchedLocationSkipped(id: string, name: string, locs: seq<string>, loc: string)
    requires ParseLocation(loc) == None
    ensures LocRanges(id, name, locs + [loc]) == LocRanges(id, name, locs)
  {
    assert (locs + [loc])[..|locs|] == locs;
  }

  /** A location that matches contributes its range, with the emote's id and name. */
  lemma MatchedLocationKept(id: string, name: string, locs: seq<string>, loc: string)
    requires ParseLocation(loc).Some?
    ensures var sp := ParseLocation(loc).value;
      LocRanges(id, name, locs + [loc]) == LocRanges(id, name, locs) + [EmoteRange(sp.start, sp.end, id, name)]
  {
    assert (locs + [loc])[..|locs|] == locs;
  }

  // ---- the walk over the text

  /** One step of the walk: a gap of text `[lo, hi)`, or an emote at its range. */
  datatype Piece = Gap(lo: nat, hi: nat) | Mark(range: EmoteRange)

  /** The pieces the walk visits from cursor `pos` over ranges `rs` in a text of length `n`: the gap up
      to each range when the cursor is before it, the range itself, and finally the rest of the text
      when the cursor is before its end. The cursor moves to each range's end, even backwards. */
  function PlanFrom(rs: seq<EmoteRange>, pos: nat, n: nat): seq<Piece>
    decreases |rs|
  {
    if rs == [] then (if pos < n then [Gap(pos, n)] else [])
    else (if pos < rs[0].start then [Gap(pos, rs[0].start)] else []) + [Mark(rs[0])] + PlanFrom(rs[1..], rs[0].end, n)
  }

  /** The segment a piece becomes. */
  function RenderPiece(ch: set<string>, text: string, p: Piece): Segment {
    match p
    case Gap(lo, hi) => Text(PyStr.Slice(text, lo, hi))
    case Mark(r) => ChannelFilter.EmoteOrPlaceholder(ch, r.id, r.name)
  }

  function Render(ch: set<string>, text: string, plan: seq<Piece>): (segs: seq<Segment>)
    ensures |segs| == |plan|
  {
    seq(|plan|, i requires 0 <= i < |plan| => RenderPiece(ch, text, plan[i]))
  }

  /** Gaps become their text, cut from the message as Python slices it; emotes become their image or
      their `:name:` placeholder. */
  lemma RenderAt(ch: set<string>, text: string, plan: seq<Piece>, i: nat)
    requires i < |plan|
    ensures plan[i].Gap? ==> Render(ch, text, plan)[i] == Text(PyStr.Slice(text, plan[i].lo, plan[i].hi))
    ensures plan[i].Mark? ==>
      Render(ch, text, plan)[i] == ChannelFilter.EmoteOrPlaceholder(ch, plan[i].range.id, plan[i].range.name)
  {
  }

  lemma RenderAppend(ch: set<string>, text: string, a: seq<Piece>, b: seq<Piece>)
    ensures Render(ch, text, a + b) == Render(ch, text, a) + Render(ch, text, b)
  {
  }

  /** The plan of a whole message: the collected ranges, sorted by start, walked from the beginning. */
  function MessagePlan(text: string, emotes: seq<ChatEmote>): seq<Piece> {
    PlanFrom(SortByStart(CollectRanges(emotes)), 0, |text|)
  }

  /** The segments of a message: no emotes at all gives the text (or nothing for empty text), otherwise
      the rendered plan. */
  function MessageSegments(ch: set<string>, text: string, emotes: seq<ChatEmote>): seq<Segment> {
    if emotes == [] then (if text == "" then [] else [Text(text)])
    else Render(ch, text, MessagePlan(text, emotes))
  }

  /** `_parse_message_with_emotes`: collects the ranges, sorts them by start and walks the text. */
  method ParseMessageWithEmotes(ch: set<string>, text: string, emotes: seq<ChatEmote>) returns (segments: seq<Segment>)
    ensures segments == MessageSegments(ch, text, emotes)
  {
    if emotes == [] {
      segments := if text != "" then [Text(text)] else [];
      return;
    }
    var emoteRanges := CollectEmoteRanges(emotes);
    emoteRanges := SortByStart(emoteRanges);
    segments := WalkRanges(ch, text, emoteRanges);
  }

  /** The first loop of `_parse_message_with_emotes`: every emote's parseable locations, in order. */
  method CollectEmoteRanges(emotes: seq<ChatEmote>) returns (emoteRanges: seq<EmoteRange>)
    ensures emoteRanges == CollectRanges(emotes)
  {
    emoteRanges := [];
    for i := 0 to |emotes|
      invariant emoteRanges == CollectRanges(emotes[..i])
    {
      assert emotes[..i + 1][..i] == emotes[..i];
      var emoteId := emotes[i].id.GetOr("");
      var emoteName := emotes[i].name.GetOr("");
      var locs := emotes[i].locations.GetOr([]);
      for j := 0 to |locs|
        invariant emoteRanges == CollectRanges(emotes[..i]) + LocRanges(emoteId, emoteName, locs[..j])
      {
        assert locs[..j + 1][..j] == locs[..j];
        match ParseLocation(locs[j]) {
          case Some(sp) =>
            emoteRanges := emoteRanges + [EmoteRange(sp.start, sp.end, emoteId, emoteName)];
          case None =>
        }
      }
      assert locs[..|locs|] == locs;
    }
    assert emotes[..|emotes|] == emotes;
  }

  /** The segments one step of the walk emits: the gap text when the cursor is before the range, then
      the emote. */
  function StepSegments(ch: set<string>, text: string, r: EmoteRange, pos: nat): seq<Segment> {
    (if pos < r.start then [Text(PyStr.Slice(text, pos, r.start))] else [])
      + [ChannelFilter.EmoteOrPlaceholder(ch, r.id, r.name)]
  }

  lemma RenderStep(ch: set<string>, text: string, rs: seq<EmoteRange>, pos: nat, n: nat)
    requires rs != []
    ensures Render(ch, text, PlanFrom(rs, pos, n))
      == StepSegments(ch, text, rs[0], pos) + Render(ch, text, PlanFrom(rs[1..], rs[0].end, n))
  {
    var gap := if pos < rs[0].start then [Gap(pos, rs[0].start)] else [];
    PlanStep(rs, pos, n);
    RenderAppend(ch, text, gap + [Mark(rs[0])], PlanFrom(rs[1..], rs[0].end, n));
    RenderAppend(ch, text, gap, [Mark(rs[0])]);
    assert Render(ch, text, gap) == (if pos < rs[0].start then [Text(PyStr.Slice(text, pos, rs[0].start))] else []);
    assert Render(ch, text, [Mark(rs[0])]) == [ChannelFilter.EmoteOrPlaceholder(ch, rs[0].id, rs[0].name)];
  }

  /** One iteration of the walk keeps the loop invariant. */
  lemma WalkStep(ch: set<string>, text: string, all: seq<EmoteRange>, i: nat, pos: nat, n: nat, before: seq<Segment>)
    requires i < |all|
    requires before + Render(ch, text, PlanFrom(all[i..], pos, n)) == Render(ch, text, PlanFrom(all, 0, n))
    ensures before + StepSegments(ch, text, all[i], pos) + Render(ch, text, PlanFrom(all[i + 1..], all[i].end, n))
      == Render(ch, text, PlanFrom(all, 0, n))
  {
    RenderStep(ch, text, all[i..], pos, n);
    assert all[i..][1..] == all[i + 1..];
  }

  /** The tail of the walk: the text after the last range. */
  lemma WalkTail(ch: set<string>, text: string, pos: nat, n: nat)
    ensures Render(ch, text, PlanFrom([], pos, n)) == (if pos < n then [Text(PyStr.Slice(text, pos, n))] else [])
  {
    if pos < n {
      assert PlanFrom([], pos, n) == [Gap(pos, n)];
    } else {
      assert PlanFrom([], pos, n) == [];
    }
  }

  /** The second loop of `_parse_message_with_emotes`: the cursor walk over the sorted ranges. */
  method WalkRanges(ch: set<string>, text: string, emoteRanges: seq<EmoteRange>) returns (segments: seq<Segment>)
    ensures segments == Render(ch, text, PlanFrom(emoteRanges, 0, |text|))
  {
    segments := [];
    var pos: nat := 0;
    var n := |text|;
    for i := 0 to |emoteRanges|
      invariant segments + Render(ch, text, PlanFrom(emoteRanges[i..], pos, n)) == Render(ch, text, PlanFrom(emoteRanges, 0, n))
    {
      var r := emoteRanges[i];
      ghost var before := segments;
      WalkStep(ch, text, emoteRanges, i, pos, n, before);
      if pos < r.start {
        segments := segments + [Text(PyStr.Slice(text, pos, r.start))];
      }
      if ChannelFilter.IsChannelEmote(ch, r.id) {
        segments := segments + [Emoji(r.id, r.name)];
      } else {
        segments := segments + [Text(":" + r.name + ":")];
      }
      assert segments == before + StepSegments(ch, text, r, pos);
      pos := r.end;
    }
    assert emoteRanges[|emoteRanges|..] == [];
    WalkTail(ch, text, pos, n);
    if pos < n {
      segments := segments + [Text(PyStr.Slice(text, pos, n))];
    }
  }

  // ---- what the walk promises

  /** The emotes of a plan, in order. */
  function Marks(plan: seq<Piece>): seq<EmoteRange> {
    if plan == [] then []
    else (if plan[0].Mark? then [plan[0].range] else []) + Marks(plan[1..])
  }

  lemma {:induction false} MarksAppend(a: seq<Piece>, b: seq<Piece>)
    ensures Marks(a + b) == Marks(a) + Marks(b)
  {
    if a == [] {
      assert a + b == b;
    } else {
      var h := if a[0].Mark? then [a[0].range] else [];
      assert (a + b)[0] == a[0];
      assert (a + b)[1..] == a[1..] + b;
      assert Marks(a + b) == h + Marks(a[1..] + b);
      MarksAppend(a[1..], b);
      assert Marks(a) == h + Marks(a[1..]);
    }
  }

  /** The walk emits exactly one emote piece per range, in the order of the ranges. */
  lemma {:induction false} MarksOfPlan(rs: seq<EmoteRange>, pos: nat, n: nat)
    ensures Marks(PlanFrom(rs, pos, n)) == rs
    decreases |rs|
  {
    if rs != [] {
      var gap := if pos < rs[0].start then [Gap(pos, rs[0].start)] else [];
      MarksAppend(gap + [Mark(rs[0])], PlanFrom(rs[1..], rs[0].end, n));
      MarksAppend(gap, [Mark(rs[0])]);
      assert Marks([Mark(rs[0])]) == [rs[0]] + Marks([]);
      MarksOfPlan(rs[1..], rs[0].end, n);
      assert rs == [rs[0]] + rs[1..];
    }
  }

  /** The gap at `i` is non-empty as a range of indices, and is followed by the emote whose start it
      reaches, or ends the plan at the end of the text. */
  predicate GapOk(plan: seq<Piece>, i: nat, n: nat)
    requires i < |plan| && plan[i].Gap?
  {
    && plan[i].lo < plan[i].hi
    && (i + 1 < |plan| ==> plan[i + 1].Mark? && plan[i + 1].range.start == plan[i].hi)
    && (i + 1 == |plan| ==> plan[i].hi == n)
  }

  predicate GapsOk(plan: seq<Piece>, n: nat) {
    forall i :: 0 <= i < |plan| && plan[i].Gap? ==> GapOk(plan, i, n)
  }

  /** The first step of the walk, spelled out. */
  lemma PlanStep(rs: seq<EmoteRange>, pos: nat, n: nat)
    requires rs != []
    ensures PlanFrom(rs, pos, n)
      == (if pos < rs[0].start then [Gap(pos, rs[0].start)] else []) + [Mark(rs[0])] + PlanFrom(rs[1..], rs[0].end, n)
  {
  }

  /** A text gap is emitted only where the cursor is before the next range, or before the end. */
  lemma {:induction false} GapsOfPlan(rs: seq<EmoteRange>, pos: nat, n: nat)
    ensures GapsOk(PlanFrom(rs, pos, n), n)
    decreases |rs|
  {
    if rs != [] {
      var gap := if pos < rs[0].start then [Gap(pos, rs[0].start)] else [];
      var rest := PlanFrom(rs[1..], rs[0].end, n);
      GapsOfPlan(rs[1..], rs[0].end, n);
      var plan := gap + [Mark(rs[0])] + rest;
      PlanStep(rs, pos, n);
      forall i | 0 <= i < |plan| && plan[i].Gap? ensures GapOk(plan, i, n) {
        if i < |gap| {
          assert plan[i] == Gap(pos, rs[0].start) && pos < rs[0].start;
          assert plan[i + 1] == Mark(rs[0]);
        } else {
          var j := i - |gap| - 1;
          assert 0 <= j < |rest| && plan[i] == rest[j];
          assert GapOk(rest, j, n);
          if j + 1 < |rest| {
            assert plan[i + 1] == rest[j + 1];
          }
        }
      }
    }
  }

  /** Ranges that lie in order inside a text of length `n`, each ending no later than the next begins. */
  predicate WellPlaced(rs: seq<EmoteRange>, n: nat) {
    && (forall i :: 0 <= i < |rs| ==> rs[i].start <= rs[i].end <= n)
    && (forall i :: 0 < i < |rs| ==> rs[i - 1].end <= rs[i].start)
  }

  /** The original text each piece stands for. */
  function Source(text: string, p: Piece): string {
    match p
    case Gap(lo, hi) => PyStr.Slice(text, lo, hi)
    case Mark(r) => PyStr.Slice(text, r.start, r.end)
  }

  function Sources(text: string, plan: seq<Piece>): (ss: seq<string>)
    ensures |ss| == |plan|
  {
    seq(|plan|, i requires 0 <= i < |plan| => Source(text, plan[i]))
  }

  lemma JoinSourcesAppend(text: string, a: seq<Piece>, b: seq<Piece>)
    ensures PyStr.Join(Sources(text, a + b)) == PyStr.Join(Sources(text, a)) + PyStr.Join(Sources(text, b))
  {
    assert Sources(text, a + b) == Sources(text, a) + Sources(text, b);
    PyStr.JoinAppend(Sources(text, a), Sources(text, b));
  }

  lemma JoinSourcesOne(text: string, p: Piece)
    ensures PyStr.Join(Sources(text, [p])) == Source(text, p)
  {
    assert Sources(text, [p]) == [Source(text, p)];
    assert [Source(text, p)][..0] == [];
  }

  /** Ranges after the first of well-placed ranges are well placed too. */
  lemma WellPlacedTail(rs: seq<EmoteRange>, n: nat)
    requires rs != [] && WellPlaced(rs, n)
    ensures WellPlaced(rs[1..], n)
    ensures rs[1..] != [] ==> rs[0].end <= rs[1..][0].start
  {
    assert forall i :: 0 <= i < |rs| - 1 ==> rs[1..][i] == rs[i + 1];
  }

  lemma JoinSourcesStep(text: string, rs: seq<EmoteRange>, pos: nat)
    requires rs != []
    ensures var r := rs[0];
      PyStr.Join(Sources(text, PlanFrom(rs, pos, |text|)))
        == (if pos < r.start then PyStr.Slice(text, pos, r.start) else "") + PyStr.Slice(text, r.start, r.end)
           + PyStr.Join(Sources(text, PlanFrom(rs[1..], r.end, |text|)))
  {
    var r := rs[0];
    var gap := if pos < r.start then [Gap(pos, r.start)] else [];
    var rest := PlanFrom(rs[1..], r.end, |text|);
    PlanStep(rs, pos, |text|);
    assert PyStr.Join(Sources(text, gap)) == if pos < r.start then PyStr.Slice(text, pos, r.start) else "" by {
      if pos < r.start {
        JoinSourcesOne(text, Gap(pos, r.start));
      }
    }
    JoinSourcesOne(text, Mark(r));
    JoinSourcesAppend(text, gap + [Mark(r)], rest);
    JoinSourcesAppend(text, gap, [Mark(r)]);
  }

  /** For well-placed ranges the pieces tile the text: joining the gap texts and the original text
      under each emote gives back the text from the cursor on. */
  lemma {:induction false} PlanTilesText(text: string, rs: seq<EmoteRange>, pos: nat)
    requires WellPlaced(rs, |text|)
    requires pos <= |text| && (rs != [] ==> pos <= rs[0].start)
    ensures PyStr.Join(Sources(text, PlanFrom(rs, pos, |text|))) == text[pos..]
    decreases |rs|
  {
    var n := |text|;
    if rs == [] {
      if pos < n {
        JoinSourcesOne(text, Gap(pos, n));
      }
    } else {
      var r := rs[0];
      WellPlacedTail(rs, n);
      PlanTilesText(text, rs[1..], r.end);
      JoinSourcesStep(text, rs, pos);
      TileStep(text, pos, r);
    }
  }

  /** One gap, one emote and the rest of the text spell the text from the cursor on. */
  lemma TileStep(text: string, pos: nat, r: EmoteRange)
    requires pos <= r.start <= r.end <= |text|
    ensures (if pos < r.start then PyStr.Slice(text, pos, r.start) else "") + PyStr.Slice(text, r.start, r.end)
      + text[r.end..] == text[pos..]
  {
    var gap := if pos < r.start then PyStr.Slice(text, pos, r.start) else "";
    assert gap == text[pos..r.start];
    assert PyStr.Slice(text, r.start, r.end) == text[r.start..r.end];
    assert text[pos..r.start] + text[r.start..r.end] + text[r.end..] == text[pos..];
  }

  /** The three promises of the emote walk for a whole message with emotes: one emote or placeholder
      segment per parsed location, ordered by start (equal starts in input order); every other segment
      is the text of a non-empty gap; and, for well-placed ranges, the gaps and the original text under
      the emotes spell the message exactly. */
  lemma MessageWalk(ch: set<string>, text: string, emotes: seq<ChatEmote>)
    requires emotes != []
    ensures var plan := MessagePlan(text, emotes);
      && MessageSegments(ch, text, emotes) == Render(ch, text, plan)
      && Marks(plan) == SortByStart(CollectRanges(emotes))
      && SortedByStart(Marks(plan))
      && multiset(Marks(plan)) == multiset(CollectRanges(emotes))
      && GapsOk(plan, |text|)
      && (WellPlaced(Marks(plan), |text|) ==> PyStr.Join(Sources(text, plan)) == text)
  {
    var rs := SortByStart(CollectRanges(emotes));
    MarksOfPlan(rs, 0, |text|);
    SortSorted(CollectRanges(emotes));
    GapsOfPlan(rs, 0, |text|);
    if WellPlaced(rs, |text|) {
      PlanTilesText(text, rs, 0);
      assert text[0..] == text;
    }
  }

  /** A message whose emotes yield no parseable location comes out as if it had no emotes. */
  lemma NoRangesLikeNoEmotes(ch: set<string>, text: string, emotes: seq<ChatEmote>)
    requires CollectRanges(emotes) == []
    ensures MessageSegments(ch, text, emotes) == (if text == "" then [] else [Text(text)])
  {
    if emotes != [] {
      assert SortByStart([]) == [];
      assert PyStr.Slice(text, 0, |text|) == text;
    }
  }

  /** Emotes are collected one after another, so their ranges keep the order of the emote list. */
  lemma {:induction false} CollectRangesAppend(a: seq<ChatEmote>, b: seq<ChatEmote>)
    ensures CollectRanges(a + b) == CollectRanges(a) + CollectRanges(b)
    decreases |b|
  {
    if b == [] {
      assert a + b == a;
    } else {
      var b' := b[..|b| - 1];
      assert (a + b)[..|a + b| - 1] == a + b';
      assert (a + b)[|a + b| - 1] == b[|b| - 1];
      assert CollectRanges(a + b) == CollectRanges(a + b') + EmoteRanges(b[|b| - 1]);
      assert CollectRanges(b) == CollectRanges(b') + EmoteRanges(b[|b| - 1]);
      CollectRangesAppend(a, b');
    }
  }
}
