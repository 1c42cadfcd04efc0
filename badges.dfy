/** Badge image file names: `{id}_{version}.png` for Twitch badges (TwitchDownloader and
    chat_downloader) and `yt_{sanitised tooltip}.png` for YouTube badges. */
module Badges {
  import opened Wrappers
  import PyStr

  // ---- Twitch

  /** A Twitch badge entry: its identifying key (`_id` in TwitchDownloader, `name` in chat_downloader)
      and its `version`; an absent key is `None`. */
  datatype BadgeRef = BadgeRef(key: Option<string>, version: Option<string>)

  function BadgeFileName(id: string, version: string): string {
    id + "_" + version + ".png"
  }

  /** The file name of a badge entry: a missing identifier is empty, a missing version is "1". */
  function BadgeFile(b: BadgeRef): string {
    BadgeFileName(b.key.GetOr(""), b.version.GetOr("1"))
  }

  /** The position of the last `c` in `s`, if any. */
  function LastIndexOf(s: string, c: char): (k: Option<nat>)
    ensures k.Some? ==> k.value < |s| && s[k.value] == c && c !in s[k.value + 1..]
    ensures k.Some? ==> forall j :: k.value < j < |s| ==> s[j] != c
    ensures k.None? ==> c !in s
  {
    if s == [] then None
    else if s[|s| - 1] == c then Some(|s| - 1)
    else
      var k := LastIndexOf(s[..|s| - 1], c);
      assert s == s[..|s| - 1] + [s[|s| - 1]];
      if k.Some? then
        assert s[k.value + 1..] == s[..|s| - 1][k.value + 1..] + [s[|s| - 1]];
        k
      else k
  }

  /** Reads a badge file name back into its identifier and version: the version is what follows the
      last underscore before `.png`. */
  function SplitBadgeFileName(f: string): Option<(string, string)> {
    if |f| < 4 || f[|f| - 4..] != ".png" then None
    else
      var stem := f[..|f| - 4];
      match LastIndexOf(stem, '_')
      case None => None
      case Some(k) => Some((stem[..k], stem[k + 1..]))
  }

  /** A badge file name determines its identifier and version, for versions without an underscore
      (identifiers such as `sub_gifter` may contain one). */
  lemma BadgeFileNameRoundTrip(id: string, version: string)
    requires '_' !in version
    ensures SplitBadgeFileName(BadgeFileName(id, version)) == Some((id, version))
  {
    var f := BadgeFileName(id, version);
    var stem := f[..|f| - 4];
    assert f[|f| - 4..] == ".png";
    assert stem == id + "_" + version;
    assert stem[|id|] == '_' && stem[|id| + 1..] == version;
    assert forall j :: |id| < j < |stem| ==> stem[j] == version[j - |id| - 1] && stem[j] != '_';
    var k := LastIndexOf(stem, '_');
    assert k == Some(|id|);
    assert stem[..|id|] == id;
    assert SplitBadgeFileName(f) == Some((stem[..|id|], stem[|id| + 1..]));
  }

  /** Every name that splits is the file name of the parts it splits into. */
  lemma BadgeFileNameFromSplit(f: string)
    requires SplitBadgeFileName(f).Some?
    ensures var (id, version) := SplitBadgeFileName(f).value; BadgeFileName(id, version) == f && '_' !in version
  {
    var stem := f[..|f| - 4];
    var k := LastIndexOf(stem, '_').value;
    assert stem == stem[..k] + "_" + stem[k + 1..];
    assert f == stem + ".png";
  }

  /** The badge list of an author (`_convert_comment`, `_convert_message`): one file name per entry, in
      order, and `None` instead of an empty list. */
  method BuildBadges(badges: seq<BadgeRef>) returns (r: Option<seq<string>>)
    ensures r.None? <==> badges == []
    ensures r.Some? ==> |r.value| == |badges|
    ensures r.Some? ==> forall i :: 0 <= i < |badges| ==> r.value[i] == BadgeFile(badges[i])
  {
    var files: seq<string> := [];
    for i := 0 to |badges|
      invariant |files| == i
      invariant forall k :: 0 <= k < i ==> files[k] == BadgeFile(badges[k])
    {
      var b := badges[i];
      var badgeId := b.key.GetOr("");
      var version := b.version.GetOr("1");
      files := files + [badgeId + "_" + version + ".png"];
    }
    r := if files != [] then Some(files) else None;
  }

  // ---- YouTube

  datatype YtBadgeRenderer = YtBadgeRenderer(tooltip: Option<string>)

  /** An entry of `authorBadges`: its `liveChatAuthorBadgeRenderer`, if present. */
  datatype YtBadge = YtBadge(renderer: Option<YtBadgeRenderer>)

  function Tooltip(b: YtBadge): string {
    match b.renderer
    case None => ""
    case Some(r) => r.tooltip.GetOr("")
  }

  /** The characters a sanitised tooltip is made of: lower-case ASCII letters, digits and `_`. */
  predicate IsBadgeIdChar(c: char) {
    ('a' <= c <= 'z') || ('0' <= c <= '9') || c == '_'
  }

  /** What one tooltip character becomes under `tooltip.lower()` followed by replacing every character
      outside `[a-zA-Z0-9_]` with `_`. ASCII capitals lower to letters; KELVIN SIGN lowers to `k`; CAPITAL
      I WITH DOT ABOVE lowers to `i` plus a combining dot, which is replaced; every other character that
      is not already a lower-case ASCII letter, a digit or `_` lowers to a non-ASCII character or stays
      punctuation, and is replaced. */
  function SanitizeChar(c: char): (r: string)
    ensures 1 <= |r| <= 2 && forall k :: 0 <= k < |r| ==> IsBadgeIdChar(r[k])
    ensures IsBadgeIdChar(c) ==> r == [c]
    ensures 'A' <= c <= 'Z' ==> r == [(c as int - 'A' as int + 'a' as int) as char]
    ensures |r| == 2 <==> c == '\U{130}'
  {
    if 'A' <= c <= 'Z' then [(c as int + 32) as char]
    else if IsBadgeIdChar(c) then [c]
    else if c == '\U{212a}' then "k"
    else if c == '\U{130}' then "i_"
    else "_"
  }

  /** `re.sub(r'[^a-zA-Z0-9_]', '_', tooltip.lower())`. */
  function Sanitize(t: string): (r: string)
    ensures forall k :: 0 <= k < |r| ==> IsBadgeIdChar(r[k])
    ensures '\U{130}' !in t ==> |r| == |t|
  {
    if t == [] then [] else SanitizeChar(t[0]) + Sanitize(t[1..])
  }

  /** Character by character, for a tooltip without U+0130: an ASCII capital becomes its lower-case
      letter, a badge-id character is kept, KELVIN SIGN becomes `k`, and every other character `_`. */
  lemma {:induction false} SanitizeAt(t: string, k: nat)
    requires '\U{130}' !in t && k < |t|
    ensures |Sanitize(t)| == |t|
    ensures 'A' <= t[k] <= 'Z' ==> Sanitize(t)[k] == (t[k] as int - 'A' as int + 'a' as int) as char
    ensures IsBadgeIdChar(t[k]) ==> Sanitize(t)[k] == t[k]
    ensures t[k] == '\U{212a}' ==> Sanitize(t)[k] == 'k'
    ensures !('A' <= t[k] <= 'Z') && !IsBadgeIdChar(t[k]) && t[k] != '\U{212a}' ==> Sanitize(t)[k] == '_'
    decreases k
  {
    assert Sanitize(t) == SanitizeChar(t[0]) + Sanitize(t[1..]);
    if k > 0 {
      assert t[1..][k - 1] == t[k];
      SanitizeAt(t[1..], k - 1);
    }
  }

  /** A string already made of badge-id characters is left as it is. */
  lemma {:induction false} SanitizeFixes(t: string)
    requires forall k :: 0 <= k < |t| ==> IsBadgeIdChar(t[k])
    ensures Sanitize(t) == t
  {
    if t != [] {
      SanitizeFixes(t[1..]);
    }
  }

  /** Sanitising is idempotent. */
  lemma SanitizeIdempotent(t: string)
    ensures Sanitize(Sanitize(t)) == Sanitize(t)
  {
    SanitizeFixes(Sanitize(t));
  }

  function YtBadgeFileName(tooltip: string): string {
    "yt_" + Sanitize(tooltip) + ".png"
  }

  /** The shape of every YouTube badge file name: `yt_` + `[a-z0-9_]*` + `.png`. */
  predicate IsYtBadgeFileName(f: string) {
    && |f| >= 7 && f[..3] == "yt_" && f[|f| - 4..] == ".png"
    && forall k :: 3 <= k < |f| - 4 ==> IsBadgeIdChar(f[k])
  }

  /** The badge files of a YouTube author: one per badge with a non-empty tooltip, in order. */
  function YtBadgeFiles(badges: seq<YtBadge>): seq<string> {
    if badges == [] then []
    else
      var last := badges[|badges| - 1];
      YtBadgeFiles(badges[..|badges| - 1]) + (if Tooltip(last) != "" then [YtBadgeFileName(Tooltip(last))] else [])
  }

  lemma {:induction false} YtBadgeFilesWellFormed(badges: seq<YtBadge>)
    ensures forall k :: 0 <= k < |YtBadgeFiles(badges)| ==> IsYtBadgeFileName(YtBadgeFiles(badges)[k])
  {
    if badges != [] {
      YtBadgeFilesWellFormed(badges[..|badges| - 1]);
      var t := Tooltip(badges[|badges| - 1]);
      var f := YtBadgeFileName(t);
      assert forall k :: 3 <= k < |f| - 4 ==> f[k] == Sanitize(t)[k - 3];
    }
  }

  /** How many badges have a non-empty tooltip. */
  function WithTooltip(badges: seq<YtBadge>): nat {
    if badges == [] then 0 else WithTooltip(badges[..|badges| - 1]) + (if Tooltip(badges[|badges| - 1]) != "" then 1 else 0)
  }

  lemma {:induction false} YtBadgeFilesCount(badges: seq<YtBadge>)
    ensures |YtBadgeFiles(badges)| == WithTooltip(badges)
  {
    if badges != [] {
      YtBadgeFilesCount(badges[..|badges| - 1]);
    }
  }

  /** The badge list of a YouTube author (`_convert_text_message`): `None` when no badge has a tooltip. */
  method BuildYtBadges(badges: seq<YtBadge>) returns (r: Option<seq<string>>)
    ensures r.None? <==> YtBadgeFiles(badges) == []
    ensures r.Some? ==> r.value == YtBadgeFiles(badges)
  {
    var files: seq<string> := [];
    for i := 0 to |badges|
      invariant files == YtBadgeFiles(badges[..i])
    {
      assert badges[..i + 1][..i] == badges[..i];
      var tooltip := Tooltip(badges[i]);
      if tooltip != "" {
        var badgeId := Sanitize(tooltip);
        files := files + ["yt_" + badgeId + ".png"];
      }
    }
    assert badges[..|badges|] == badges;
    r := if files != [] then Some(files) else None;
  }
}
