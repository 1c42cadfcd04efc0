/** The unified message schema every converter produces. */
module Schema {
  import opened Wrappers
  import PyStr

  /** A piece of message content: literal text, or an emote image with its display name. */
  datatype Segment = Text(value: string) | Emoji(id: string, name: string)

  datatype Author = Author(id: string, name: string, color: Option<string>, badges: Option<seq<string>>)

  datatype Content = Content(raw: string, segments: seq<Segment>)

  datatype SuperchatData = SuperchatData(amount: real, currency: string, tier: Option<int>)

  datatype BitsData = BitsData(amount: int, tier: Option<int>)

  datatype MembershipData =
    MembershipData(tier: Option<string>, months: Option<int>, isGift: bool, giftCount: Option<int>)

  /** `kind` is the source's `type` field: "chat", "superchat", "bits", "membership", ... */
  datatype UnifiedMessage = UnifiedMessage(
    id: string,
    timestampMs: int,
    kind: string,
    author: Author,
    content: Content,
    superchat: Option<SuperchatData>,
    bits: Option<BitsData>,
    membership: Option<MembershipData>)

  /** The text an emote name is shown as when no image is used: `:name:`. */
  function Placeholder(name: string): (t: string)
    ensures |t| == |name| + 2 && t[0] == ':' && t[|t| - 1] == ':' && t[1..|t| - 1] == name
  {
    ":" + name + ":"
  }

  /** What a segment contributes to a message's raw text: its text, or `:name:` for an emote. */
  function Display(s: Segment): string {
    match s
    case Text(v) => v
    case Emoji(_, name) => Placeholder(name)
  }

  /** What each segment contributes, in order. */
  function Displays(segs: seq<Segment>): (ds: seq<string>)
    ensures |ds| == |segs| && forall i :: 0 <= i < |segs| ==> ds[i] == Display(segs[i])
  {
    seq(|segs|, i requires 0 <= i < |segs| => Display(segs[i]))
  }

  /** The raw text a sequence of segments spells out. */
  function Flatten(segs: seq<Segment>): string {
    PyStr.Join(Displays(segs))
  }

  lemma FlattenAppend(a: seq<Segment>, b: seq<Segment>)
    ensures Flatten(a + b) == Flatten(a) + Flatten(b)
  {
    assert Displays(a + b) == Displays(a) + Displays(b);
    PyStr.JoinAppend(Displays(a), Displays(b));
  }
}
