# Chat format converter, modelled in Dafny

`standardize-chat.py` turns chat dumps written by TwitchDownloader, chat_downloader and yt-dlp into one
unified message schema (`Author`, `Segment`, `Content`, `UnifiedMessage`, ...), ready to be rendered.
This project models the string- and sequence-level core of that converter and proves what it promises:

- how a message's text is cut into text and emote segments:
  - chat_downloader's `"start-end"` emote locations, sorted and walked with a cursor (`chatdownloader.dfy`, with `location.dfy` and `rangesort.dfy`);
  - yt-dlp's message runs, flattened into `raw` and `segments` in lockstep (`ytdlp.dfy`);
  - TwitchDownloader's fragments (`twitch.dfy`);
  - all three under the channel-emote filter (`channel.dfy`);
- how badge file names are built (`badges.dfy`);
- how a message is written as JSON with every `None` removed (`serialize.dfy`);
- how a dump's format is recognised from its parsed content, and which converter handles it (`detect.dfy`).

Shared pieces:
- `schema.dfy`: the unified schema.
- `json.dfy`: decoded JSON values and Python's `in` on them.
- `pystr.dfy`: the Python string operations the core relies on (`strip`, clamped slicing, `''.join`, `\d` runs, `int()` of a digit run).
- `wrappers.dfy`: `Option` and `Result`.

The loops of the source are methods with loop invariants:
- `ChatDownloader.ParseMessageWithEmotes`, built from `CollectEmoteRanges` and `WalkRanges`;
- `YtdlpLive.ParseRuns`;
- `TwitchDownloader.ParseFragments`;
- `Badges.BuildBadges` and `Badges.BuildYtBadges`.

Each method is proved equal to a specification function, and the lemmas about that function state the properties. `clean_dict`, `_message_to_dict`, `is_channel_emote`, the classification in `detect_format` and `get_converter` are functions.

Conventions of the model:
- `d.get(key, default)` on an input record: the record is a datatype with `Option` fields, and the model applies the same defaults (`""`, version `"1"`, `"emoji"`, `False`).
- The channel emote list loaded in `BaseConverter.__init__` is passed in as a set.
- Where the model needs a value that `json.load`/`json.loads` produces, that value is a parameter.
- Python strings are modelled as Dafny's `string`, a sequence of Unicode scalar values. A Python `str` may also hold a lone surrogate (`json.loads('"\\ud800"')` gives one), which a Dafny `char` cannot; such strings are outside the model.

## Model

| member | source | states |
|---|---|---|
| ChannelFilter.IsChannelEmote | standardize-chat.py:153-157 | every emote passes when the filter set is empty; otherwise exactly the listed ids pass |
| ChannelFilter.EmoteOrPlaceholder | standardize-chat.py:343-346 | a passing emote becomes an emoji segment with its id and name, any other becomes the text `:name:`; either way it displays as `:name:` |
| ChannelFilter.FilterMonotone | standardize-chat.py:153-157 | a larger non-empty filter admits at least what a smaller one does, and what it admits beyond the smaller one is exactly the ids added to it |
| Location.ParseLocation | standardize-chat.py:325-328 | an accepted location denotes a range whose end is at least 1 (the inclusive end plus one) |
| Location.LocationAt | standardize-chat.py:325-328 | digits, a dash and digits at the front of a location, followed by a non-digit or the end, are read as `[s, e + 1)` whatever follows |
| Location.LocationShape | standardize-chat.py:325-328 | conversely, every accepted location has that shape and denotes that range |
| Location.LocationRoundTrip | standardize-chat.py:325-328 | writing `s-e` in decimal and reading it back gives `[s, e + 1)` |
| Location.LocationNeedsLeadingDigit | standardize-chat.py:325-326 | a location that does not start with a digit is skipped |
| ChatDownloader.LocRanges | standardize-chat.py:323-328 | one emote's ranges: at most one per location, each carrying the emote's id and name |
| ChatDownloader.UnmatchedLocationSkipped | standardize-chat.py:325-326 | a location that does not match adds nothing |
| ChatDownloader.MatchedLocationKept | standardize-chat.py:325-328 | a matching location appends its range, with the emote's id and name |
| ChatDownloader.CollectRangesAppend | standardize-chat.py:320-328 | ranges are collected emote after emote, in the order of the emote list |
| ChatDownloader.CollectEmoteRanges | standardize-chat.py:319-328 | the nested collecting loop yields exactly the specified list of ranges |
| RangeSort.SortByStart | standardize-chat.py:331 | the sorted ranges are a permutation of the collected ones |
| RangeSort.SortSorted | standardize-chat.py:331 | the result is ordered by start |
| RangeSort.SortKeepsOrderOfEqualStarts | standardize-chat.py:331 | ranges with the same start keep their relative order (stability) |
| RangeSort.SortedArrangementUnique | standardize-chat.py:331 | two start-ordered arrangements that agree on every group of equal starts are equal |
| RangeSort.StableSortIsSortByStart | standardize-chat.py:331 | any stable sort by start, such as Python's `list.sort`, gives exactly the modelled order |
| ChatDownloader.RenderAt | standardize-chat.py:337-352 | a gap becomes the text slice `text[lo:hi]`, an emote becomes its image or placeholder |
| ChatDownloader.WalkRanges | standardize-chat.py:334-352 | the cursor walk emits exactly the rendered plan of the sorted ranges from position 0 |
| ChatDownloader.ParseMessageWithEmotes | standardize-chat.py:313-354 | the whole operation equals the specified message segments |
| ChatDownloader.NoRangesLikeNoEmotes | standardize-chat.py:315-352 | when no location parses, the result is as for no emotes: `[]` for empty text, else one text segment with the whole text |
| ChatDownloader.MarksOfPlan | standardize-chat.py:337-348 | the walk emits exactly one emote piece per range, in range order |
| ChatDownloader.GapsOfPlan | standardize-chat.py:339-352 | a text gap is emitted only when it is non-empty as an index range, and it ends at the next emote's start or at the end of the text |
| ChatDownloader.PlanTilesText | standardize-chat.py:337-352 | for ordered, disjoint, in-bounds ranges, gap texts joined with the text under each emote reproduce the text from the cursor on |
| ChatDownloader.MessageWalk | standardize-chat.py:313-354 | for a message with emotes: one emote segment per parsed location, sorted by start (stable), a permutation of the collected ranges, gaps only where non-empty, and, if the ranges are well placed, the text is rebuilt exactly |
| YtdlpLive.EmojiName | standardize-chat.py:543-544 | the first shortcut with colons stripped from both ends, or `"emoji"` when there is none |
| YtdlpLive.EmojiSegment | standardize-chat.py:548-562 | a custom emoji is an image; otherwise an id of at most four characters or not starting with `UC` is literal text; anything else is the `:name:` placeholder; the segment is an image exactly when the emoji is custom |
| YtdlpLive.RunSegment | standardize-chat.py:533-540 | `text` wins over `emoji`; a run with neither gives nothing |
| YtdlpLive.ParseRuns | standardize-chat.py:528-564 | the segments are those of the runs, in order, and `raw` is the concatenation of what each segment displays (text, or `:name:`) |
| YtdlpLive.RunsSegmentsAppend | standardize-chat.py:533 | runs are translated one after another, so run order is segment order |
| YtdlpLive.RunWithoutContentSkipped | standardize-chat.py:533-539 | a run with neither `text` nor `emoji` leaves no trace |
| YtdlpLive.RunsSegmentsCount | standardize-chat.py:533-562 | one segment per run with content, none for the others |
| YtdlpLive.TextRunsRaw | standardize-chat.py:534-564 | a message of text runs only has the joined texts as its raw text |
| TwitchDownloader.EmoteId | standardize-chat.py:232-233 | a fragment is an emote exactly when its `emoticon` has a non-empty `emoticon_id` |
| TwitchDownloader.FragmentSegment | standardize-chat.py:229-247 | an emote fragment becomes its image named by its stripped text, or `:name:` outside the filter; another fragment becomes its text, and is dropped exactly when the text is empty |
| TwitchDownloader.ParseFragments | standardize-chat.py:224-249 | the loop emits exactly the specified segments of the fragments |
| TwitchDownloader.FragmentsSegmentsAppend | standardize-chat.py:228 | fragment order is segment order |
| TwitchDownloader.EmptyTextFragmentDropped | standardize-chat.py:245-247 | a non-emote fragment with empty text is dropped and changes nothing else |
| TwitchDownloader.FragmentsSegmentsCount | standardize-chat.py:228-247 | one segment per emote and per non-empty text fragment |
| Badges.BuildBadges | standardize-chat.py:185-195 | one `{id}_{version}.png` per badge entry, in order, with defaults `""` and `"1"`; `None` exactly when there is no badge |
| Badges.BadgeFileNameRoundTrip | standardize-chat.py:189 | a badge file name gives back its identifier and version when the version has no underscore |
| Badges.BadgeFileNameFromSplit | standardize-chat.py:283 | every name that splits is the file name of its parts |
| Badges.SanitizeChar | standardize-chat.py:442 | `lower()` then replacement of non-`[a-zA-Z0-9_]`: one or two badge-id characters per character, id characters kept, an ASCII capital lowered, two exactly for U+0130 |
| Badges.Sanitize | standardize-chat.py:442 | a sanitised tooltip consists only of `[a-z0-9_]`, one character per character apart from U+0130 |
| Badges.SanitizeAt | standardize-chat.py:442 | for a tooltip without U+0130, position by position: an ASCII capital becomes its lower-case letter, `[a-z0-9_]` is kept, KELVIN SIGN becomes `k`, anything else becomes `_` |
| Badges.SanitizeFixes | standardize-chat.py:442 | a tooltip already made of badge-id characters is unchanged |
| Badges.SanitizeIdempotent | standardize-chat.py:442 | sanitising twice is sanitising once |
| Badges.YtBadgeFilesWellFormed | standardize-chat.py:433-443 | every YouTube badge file name is `yt_` + `[a-z0-9_]*` + `.png` |
| Badges.YtBadgeFilesCount | standardize-chat.py:434-443 | one file per badge with a non-empty tooltip |
| Badges.BuildYtBadges | standardize-chat.py:433-443 | the loop yields exactly those files, and `None` when there are none |
| Serialize.Clean | standardize-chat.py:657-663 | objects stay objects and lists stay lists of the same length; other values are unchanged |
| Serialize.CleanObjectKeys | standardize-chat.py:659 | a cleaned object keeps the keys of its non-`None` members, in their order |
| Serialize.CleanLeavesNoNullMembers | standardize-chat.py:657-663 | no object anywhere in the result has a `None` member |
| Serialize.CleanKeepsNullFree | standardize-chat.py:657-663 | a value without `None` members is returned unchanged |
| Serialize.CleanIdempotent | standardize-chat.py:657-663 | cleaning twice is cleaning once |
| Serialize.CleanKeys | standardize-chat.py:659 | a cleaned object has key `k` exactly when the original had a member `k` whose value is not `None` |
| Serialize.MessageToDict | standardize-chat.py:654-697 | the written message is an object with no `None` member at any depth |
| Serialize.MessageDictKeys | standardize-chat.py:666-695 | its keys are `id`, `timestamp_ms`, `type`, `author`, `content`, then `superchat`, `bits`, `membership` for those present |
| Serialize.SegmentRoundTrip | standardize-chat.py:678-681 | a written segment (its `asdict` without `None`s) reads back as the segment |
| Serialize.AuthorRoundTrip | standardize-chat.py:670-675 | the cleaned author object reads back as the author, absent colour and badges included |
| Serialize.ContentRoundTrip | standardize-chat.py:676-682 | the cleaned content object reads back as the content |
| Serialize.SuperchatRoundTrip | standardize-chat.py:685-686 | the cleaned super chat object reads back as the super chat data |
| Serialize.BitsRoundTrip | standardize-chat.py:687-688 | the cleaned bits object reads back as the bits data |
| Serialize.MembershipRoundTrip | standardize-chat.py:689-695 | the cleaned membership object, with its renamed `isGift`/`giftCount` keys, reads back as the membership data |
| Serialize.MessageRoundTrip | standardize-chat.py:654-697 | nothing of a message is lost: reading the written object back gives the message |
| PyStr.TrimBoth | standardize-chat.py:240-244 | `strip`: the result is the input without its leading and trailing stripped characters, and starts and ends with a kept one |
| Json.PyIn | standardize-chat.py:121-128 | `in` is key membership on an object and fails with a `TypeError` on numbers, booleans and `null` |
| Detect.DetectLine | standardize-chat.py:120-131 | the first-line classification fails only on a scalar line and never yields TwitchDownloader |
| Detect.DetectFormat | standardize-chat.py:94-135 | precedence: a whole-file object with `FileInfo` and `comments` is TwitchDownloader; else a blank first line, or one that does not decode, is unknown; else the first line's classification decides |
| Detect.DetectChatDownloader | standardize-chat.py:121-122 | chat_downloader is detected exactly when the first line has both `client_nonce` and `message_id` |
| Detect.DetectObjectLine | standardize-chat.py:121-131 | for an object line: chat_downloader iff both of its keys; live iff `replayChatItemAction` and `isLive` or `videoOffsetTimeMsec` without the chat_downloader pair; post-hoc likewise without either marker; unknown otherwise |
| Detect.DetectOnlyKeys | standardize-chat.py:121-131 | only the key set of the first line's object matters |
| Detect.StringLineSearchedAsText | standardize-chat.py:121-122 | a first line that decodes to a string is taken for chat_downloader exactly when both chat_downloader keys occur in it as substrings, since `in` searches it as text |
| Detect.DetectFails | standardize-chat.py:110-135 | detection raises exactly when the file is not a TwitchDownloader dump and its first line decodes to a scalar |
| Detect.GetConverter | standardize-chat.py:569-582 | only the unknown format has no converter, and it raises `No converter for format: ChatFormat.UNKNOWN` |
| Detect.ConverterPerFormat | standardize-chat.py:571-576 | every known format has a converter, and only the two yt-dlp formats share one |
| Detect.DetectedHasConverter | standardize-chat.py:569-582 | a detected format has a converter exactly when it is not unknown |

## Left out

- File and JSON I/O: `open`, `json.load`/`json.loads` and the line loops of `detect_format` and of every `convert` method. Decoded values are inputs instead. A decoding error other than `JSONDecodeError` is not modelled.
- JSON `null` versus an absent key in input records: both are `None` in the model, and the model applies the `.get` default to both. In the source `.get` returns `None` for a present `null`, so these inputs behave differently there:
  - a run with `"text": null` makes `''.join(raw_parts)` raise `TypeError` (standardize-chat.py:535-536, 564);
  - an emote with `null` `locations` raises `TypeError` when its locations are iterated (standardize-chat.py:323);
  - an emoji with a `null` `emojiId` raises `TypeError` in `len(None)` (standardize-chat.py:548);
  - an emote fragment with `null` `text` raises `AttributeError` in `None.strip()` (standardize-chat.py:240);
  - a Twitch badge with a `null` `_id`, `name` or `version` is written as `None_1.png` or `x_None.png` (standardize-chat.py:187-189, 281-283);
  - a chat_downloader emote with a `null` `id` gives an emoji segment written without an `id` (standardize-chat.py:321, 344, 679).
- `convert_file`: its printing, the `ValueError` for an unknown format, `messages.sort` by timestamp (a library call), the metadata object and the archive-renaming and writing on the filesystem. These are effects on files and the console.
- The command line (`main`) and every `print` call.
- Floating point: `content_offset_seconds * 1000` and the super chat amount parsed with `float(...)`. The super chat amount is a Dafny `real`, and writing it to JSON text is not modelled.
- The rest of message assembly is not modelled, because it reads JSON fields and does float or `int()` conversions rather than string-level logic. This covers:
  - `_convert_comment`, `_convert_message` and `_convert_action` apart from their badge builders (author fields, bits detection, timestamps);
  - the `videoOffsetTimeMsec` fallback chain;
  - `_convert_membership` and `_convert_superchat`, including the `lstrip('@')` of author names.
- Location.ParseLocation: `\d` and `int()` accept only ASCII digits here. Python also accepts other Unicode decimal digits. The model also reads a digit run of any length as a number, whereas `int()` raises `ValueError` for more than 4300 digits (the default limit since Python 3.11).
- Serialize.MessageToDict: its truthiness tests on `superchat`, `bits` and `membership` are modelled as presence. A dataclass instance is always truthy.
- `BaseConverter.__init__`: it loads the channel emote list from a file, which is not modelled; the set is a parameter.
