/** Writing a unified message out as JSON (`_message_to_dict` and its inner `clean_dict`). */
module Serialize {
  import opened Wrappers
  import opened Json
  import opened Schema

  // ---- clean_dict

  /** The members of an object whose value is not `None`, in order. */
  function NonNull(fields: seq<(string, Json)>): (r: seq<(string, Json)>)
    ensures |r| <= |fields|
  {
    if fields == [] then []
    else (if fields[0].1.JNull? then [] else [fields[0]]) + NonNull(fields[1..])
  }

  /** Only members whose value is not `None` are kept, and nothing is added. */
  lemma {:induction false} NonNullMembers(fields: seq<(string, Json)>)
    ensures forall p :: p in NonNull(fields) ==> p in fields && !p.1.JNull?
  {
    if fields != [] {
      NonNullMembers(fields[1..]);
    }
  }

  /** `clean_dict`: every object keeps only its members whose value is not `None`, at any depth, their
      values cleaned in turn; lists keep their length (a `None` list element stays); every other value is
      returned unchanged. */
  function Clean(j: Json): (r: Json)
    ensures j.JObj? <==> r.JObj?
    ensures j.JArr? <==> r.JArr?
    ensures j.JArr? ==> |r.items| == |j.items|
    ensures !j.JObj? && !j.JArr? ==> r == j
  {
    match j
    case JObj(fields) =>
      var nn := NonNull(fields);
      NonNullMembers(fields);
      JObj(seq(|nn|, i requires 0 <= i < |nn| => (nn[i].0, Clean(nn[i].1))))
    case JArr(items) => JArr(seq(|items|, i requires 0 <= i < |items| => Clean(items[i])))
    case _ => j
  }

  /** No object anywhere inside `j` has a member whose value is `None` (list elements may be). */
  predicate NoNullMembers(j: Json)
    decreases j
  {
    match j
    case JObj(fields) => forall i :: 0 <= i < |fields| ==> !fields[i].1.JNull? && NoNullMembers(fields[i].1)
    case JArr(items) => forall i :: 0 <= i < |items| ==> NoNullMembers(items[i])
    case _ => true
  }

  lemma {:induction false} NonNullAppend(a: seq<(string, Json)>, b: seq<(string, Json)>)
    ensures NonNull(a + b) == NonNull(a) + NonNull(b)
  {
    if a == [] {
      assert a + b == b;
    } else {
      var head := if a[0].1.JNull? then [] else [a[0]];
      assert (a + b)[0] == a[0];
      assert (a + b)[1..] == a[1..] + b;
      assert NonNull(a + b) == head + NonNull(a[1..] + b);
      NonNullAppend(a[1..], b);
      assert NonNull(a) == head + NonNull(a[1..]);
    }
  }

  /** Every member whose value is not `None` is kept. */
  lemma {:induction false} NonNullKeeps(fields: seq<(string, Json)>, i: nat)
    requires i < |fields| && !fields[i].1.JNull?
    ensures fields[i] in NonNull(fields)
  {
    if i > 0 {
      NonNullKeeps(fields[1..], i - 1);
      assert fields[1..][i - 1] == fields[i];
    }
  }

  lemma {:induction false} NonNullOfNonNull(fields: seq<(string, Json)>)
    requires forall i :: 0 <= i < |fields| ==> !fields[i].1.JNull?
    ensures NonNull(fields) == fields
  {
    if fields != [] {
      NonNullOfNonNull(fields[1..]);
    }
  }

  /** Whatever `clean_dict` returns has no `None` member left anywhere. */
  lemma {:induction false} CleanLeavesNoNullMembers(j: Json)
    ensures NoNullMembers(Clean(j))
    decreases j
  {
    match j
    case JObj(fields) =>
      var nn := NonNull(fields);
      NonNullMembers(fields);
      var r := Clean(j);
      forall i | 0 <= i < |r.fields| ensures !r.fields[i].1.JNull? && NoNullMembers(r.fields[i].1) {
        assert r.fields[i] == (nn[i].0, Clean(nn[i].1));
        assert nn[i] in fields;
        CleanLeavesNoNullMembers(nn[i].1);
      }
    case JArr(items) =>
      var r := Clean(j);
      forall i | 0 <= i < |items| ensures NoNullMembers(r.items[i]) {
        CleanLeavesNoNullMembers(items[i]);
      }
    case _ =>
  }

  /** A value with no `None` member is left exactly as it is. */
  lemma {:induction false} CleanKeepsNullFree(j: Json)
    requires NoNullMembers(j)
    ensures Clean(j) == j
    decreases j
  {
    match j
    case JObj(fields) =>
      NonNullOfNonNull(fields);
      forall i | 0 <= i < |fields| ensures Clean(fields[i].1) == fields[i].1 {
        CleanKeepsNullFree(fields[i].1);
      }
      assert Clean(j).fields == fields;
    case JArr(items) =>
      forall i | 0 <= i < |items| ensures Clean(items[i]) == items[i] {
        CleanKeepsNullFree(items[i]);
      }
      assert Clean(j).items == items;
    case _ =>
  }

  /** Cleaning twice is cleaning once. */
  lemma CleanIdempotent(j: Json)
    ensures Clean(Clean(j)) == Clean(j)
  {
    CleanLeavesNoNullMembers(j);
    CleanKeepsNullFree(Clean(j));
  }

  /** A cleaned object keeps the keys of the members whose value is not `None`, in their order. */
  lemma CleanObjectKeys(fields: seq<(string, Json)>)
    ensures Keys(Clean(JObj(fields)).fields) == Keys(NonNull(fields))
  {
  }

  /** A cleaned object has the key `k` exactly when the original had a member `k` whose value is not
      `None`. */
  lemma CleanKeys(fields: seq<(string, Json)>, k: string)
    ensures HasKey(Clean(JObj(fields)), k) <==> exists i :: 0 <= i < |fields| && fields[i].0 == k && !fields[i].1.JNull?
  {
    var nn := NonNull(fields);
    NonNullMembers(fields);
    CleanObjectKeys(fields);
    if HasKey(Clean(JObj(fields)), k) {
      var m :| 0 <= m < |nn| && nn[m].0 == k;
      assert nn[m] in fields;
      var i :| 0 <= i < |fields| && fields[i] == nn[m];
      assert fields[i].0 == k && !fields[i].1.JNull?;
    }
    if exists i :: 0 <= i < |fields| && fields[i].0 == k && !fields[i].1.JNull? {
      var i :| 0 <= i < |fields| && fields[i].0 == k && !fields[i].1.JNull?;
      NonNullKeeps(fields, i);
      var m :| 0 <= m < |nn| && nn[m] == fields[i];
      assert Keys(Clean(JObj(fields)).fields)[m] == k;
    }
  }

  /** Cleaning an object works member by member. */
  lemma CleanMembersAppend(a: seq<(string, Json)>, b: seq<(string, Json)>)
    ensures Clean(JObj(a + b)).fields == Clean(JObj(a)).fields + Clean(JObj(b)).fields
  {
    NonNullAppend(a, b);
    assert Clean(JObj(a + b)).fields == CleanValues(NonNull(a) + NonNull(b));
    assert CleanValues(NonNull(a) + NonNull(b)) == CleanValues(NonNull(a)) + CleanValues(NonNull(b));
  }

  lemma CleanMember(k: string, v: Json)
    ensures Clean(JObj([(k, v)])).fields == if v.JNull? then [] else [(k, Clean(v))]
  {
    assert NonNull([(k, v)]) == (if v.JNull? then [] else [(k, v)]) + NonNull([]);
  }

  // ---- _message_to_dict

  function OptStr(o: Option<string>): Json {
    match o
    case None => JNull
    case Some(s) => JStr(s)
  }

  function OptInt(o: Option<int>): Json {
    match o
    case None => JNull
    case Some(i) => JInt(i)
  }

  function Strs(xs: seq<string>): Json {
    JArr(seq(|xs|, i requires 0 <= i < |xs| => JStr(xs[i])))
  }

  function OptStrs(o: Option<seq<string>>): Json {
    match o
    case None => JNull
    case Some(xs) => Strs(xs)
  }

  /** `asdict` of a segment: `type`, `value`, `id`, `name`, the unused ones `None`. */
  function SegmentFields(s: Segment): seq<(string, Json)> {
    match s
    case Text(v) => [("type", JStr("text")), ("value", JStr(v)), ("id", JNull), ("name", JNull)]
    case Emoji(id, name) => [("type", JStr("emoji")), ("value", JNull), ("id", JStr(id)), ("name", JStr(name))]
  }

  /** A segment as written: its `asdict` without the `None` entries. */
  function SegmentDict(s: Segment): Json {
    JObj(NonNull(SegmentFields(s)))
  }

  function AuthorFields(a: Author): seq<(string, Json)> {
    [("id", JStr(a.id)), ("name", JStr(a.name)), ("color", OptStr(a.color)), ("badges", OptStrs(a.badges))]
  }

  function ContentFields(c: Content): seq<(string, Json)> {
    [("raw", JStr(c.raw)),
     ("segments", JArr(seq(|c.segments|, i requires 0 <= i < |c.segments| => SegmentDict(c.segments[i]))))]
  }

  function SuperchatFields(sc: SuperchatData): seq<(string, Json)> {
    [("amount", JReal(sc.amount)), ("currency", JStr(sc.currency)), ("tier", OptInt(sc.tier))]
  }

  function BitsFields(b: BitsData): seq<(string, Json)> {
    [("amount", JInt(b.amount)), ("tier", OptInt(b.tier))]
  }

  function MembershipFields(ms: MembershipData): seq<(string, Json)> {
    [("tier", OptStr(ms.tier)), ("months", OptInt(ms.months)), ("isGift", JBool(ms.isGift)),
     ("giftCount", OptInt(ms.giftCount))]
  }

  /** The member `k` holding `o`'s object when `o` is present (a dataclass instance is always truthy). */
  function Section<T>(k: string, o: Option<T>, fields: T -> seq<(string, Json)>): seq<(string, Json)> {
    match o
    case None => []
    case Some(x) => [(k, JObj(fields(x)))]
  }

  /** The dict `_message_to_dict` builds before cleaning it. */
  function MessageFields(m: UnifiedMessage): seq<(string, Json)> {
    [("id", JStr(m.id)), ("timestamp_ms", JInt(m.timestampMs)), ("type", JStr(m.kind)),
     ("author", JObj(AuthorFields(m.author))), ("content", JObj(ContentFields(m.content)))]
      + Section("superchat", m.superchat, SuperchatFields)
      + Section("bits", m.bits, BitsFields)
      + Section("membership", m.membership, MembershipFields)
  }

  /** `_message_to_dict`: the message as a JSON object, with no `None` member left at any depth. */
  function MessageToDict(m: UnifiedMessage): (j: Json)
    ensures j.JObj? && NoNullMembers(j)
  {
    CleanLeavesNoNullMembers(JObj(MessageFields(m)));
    Clean(JObj(MessageFields(m)))
  }

  // ---- reading a written message back

  /** The value of the first member named `k`, if any (what `d.get(k)` gives for a dict without
      repeated keys). */
  function Get(fields: seq<(string, Json)>, k: string): Option<Json> {
    if fields == [] then None
    else if fields[0].0 == k then Some(fields[0].1)
    else Get(fields[1..], k)
  }

  /** `get` finds something exactly when the key is there. */
  lemma {:induction false} GetFinds(fields: seq<(string, Json)>, k: string)
    ensures Get(fields, k).Some? <==> k in Keys(fields)
  {
    if fields != [] {
      assert Keys(fields) == [fields[0].0] + Keys(fields[1..]);
      GetFinds(fields[1..], k);
    }
  }

  lemma {:induction false} GetAppend(a: seq<(string, Json)>, b: seq<(string, Json)>, k: string)
    ensures Get(a + b, k) == if k in Keys(a) then Get(a, k) else Get(b, k)
  {
    if a == [] {
      assert a + b == b;
    } else {
      assert (a + b)[0] == a[0];
      assert (a + b)[1..] == a[1..] + b;
      assert Keys(a) == [a[0].0] + Keys(a[1..]);
      GetAppend(a[1..], b, k);
    }
  }

  function AsStr(o: Option<Json>): Option<string> {
    match o
    case Some(JStr(s)) => Some(s)
    case _ => None
  }

  function AsInt(o: Option<Json>): Option<int> {
    match o
    case Some(JInt(i)) => Some(i)
    case _ => None
  }

  function AsReal(o: Option<Json>): Option<real> {
    match o
    case Some(JReal(r)) => Some(r)
    case _ => None
  }

  function AsBool(o: Option<Json>): Option<bool> {
    match o
    case Some(JBool(b)) => Some(b)
    case _ => None
  }

  /** An optional member: absent reads as `None`, a value of the wrong kind fails. */
  function AsOptStr(o: Option<Json>): Option<Option<string>> {
    match o
    case None => Some(None)
    case Some(JStr(s)) => Some(Some(s))
    case _ => None
  }

  function AsOptInt(o: Option<Json>): Option<Option<int>> {
    match o
    case None => Some(None)
    case Some(JInt(i)) => Some(Some(i))
    case _ => None
  }

  function AsStrs(items: seq<Json>): Option<seq<string>> {
    if items == [] then Some([])
    else match (items[0], AsStrs(items[1..]))
      case (JStr(s), Some(rest)) => Some([s] + rest)
      case _ => None
  }

  function AsOptStrs(o: Option<Json>): Option<Option<seq<string>>> {
    match o
    case None => Some(None)
    case Some(JArr(items)) => (match AsStrs(items) case Some(xs) => Some(Some(xs)) case None => None)
    case _ => None
  }

  function ReadSegment(j: Json): Option<Segment> {
    if !j.JObj? then None
    else
      var kind := AsStr(Get(j.fields, "type"));
      var value := AsStr(Get(j.fields, "value"));
      var id := AsStr(Get(j.fields, "id"));
      var name := AsStr(Get(j.fields, "name"));
      if kind == Some("text") && value.Some? then Some(Text(value.value))
      else if kind == Some("emoji") && id.Some? && name.Some? then Some(Emoji(id.value, name.value))
      else None
  }

  function ReadSegments(items: seq<Json>): Option<seq<Segment>> {
    if items == [] then Some([])
    else match (ReadSegment(items[0]), ReadSegments(items[1..]))
      case (Some(s), Some(rest)) => Some([s] + rest)
      case _ => None
  }

  function ReadAuthor(o: Option<Json>): Option<Author> {
    match o
    case Some(JObj(f)) =>
      var id := AsStr(Get(f, "id"));
      var name := AsStr(Get(f, "name"));
      var color := AsOptStr(Get(f, "color"));
      var badges := AsOptStrs(Get(f, "badges"));
      if id.Some? && name.Some? && color.Some? && badges.Some?
      then Some(Author(id.value, name.value, color.value, badges.value))
      else None
    case _ => None
  }

  function ReadContent(o: Option<Json>): Option<Content> {
    match o
    case Some(JObj(f)) =>
      var raw := AsStr(Get(f, "raw"));
      (match (raw, Get(f, "segments"))
       case (Some(r), Some(JArr(items))) =>
         (match ReadSegments(items) case Some(segs) => Some(Content(r, segs)) case None => None)
       case _ => None)
    case _ => None
  }

  function ReadSuperchat(o: Option<Json>): Option<Option<SuperchatData>> {
    match o
    case None => Some(None)
    case Some(JObj(f)) =>
      var amount := AsReal(Get(f, "amount"));
      var currency := AsStr(Get(f, "currency"));
      var tier := AsOptInt(Get(f, "tier"));
      if amount.Some? && currency.Some? && tier.Some?
      then Some(Some(SuperchatData(amount.value, currency.value, tier.value)))
      else None
    case _ => None
  }

  function ReadBits(o: Option<Json>): Option<Option<BitsData>> {
    match o
    case None => Some(None)
    case Some(JObj(f)) =>
      var amount := AsInt(Get(f, "amount"));
      var tier := AsOptInt(Get(f, "tier"));
      if amount.Some? && tier.Some? then Some(Some(BitsData(amount.value, tier.value))) else None
    case _ => None
  }

  function ReadMembership(o: Option<Json>): Option<Option<MembershipData>> {
    match o
    case None => Some(None)
    case Some(JObj(f)) =>
      var tier := AsOptStr(Get(f, "tier"));
      var months := AsOptInt(Get(f, "months"));
      var isGift := AsBool(Get(f, "isGift"));
      var giftCount := AsOptInt(Get(f, "giftCount"));
      if tier.Some? && months.Some? && isGift.Some? && giftCount.Some?
      then Some(Some(MembershipData(tier.value, months.value, isGift.value, giftCount.value)))
      else None
    case _ => None
  }

  /** Reads a written message back; fails on anything `_message_to_dict` could not have written. */
  function ReadMessage(j: Json): Option<UnifiedMessage> {
    match j
    case JObj(f) =>
      var id := AsStr(Get(f, "id"));
      var ts := AsInt(Get(f, "timestamp_ms"));
      var kind := AsStr(Get(f, "type"));
      var author := ReadAuthor(Get(f, "author"));
      var content := ReadContent(Get(f, "content"));
      var superchat := ReadSuperchat(Get(f, "superchat"));
      var bits := ReadBits(Get(f, "bits"));
      var membership := ReadMembership(Get(f, "membership"));
      if id.Some? && ts.Some? && kind.Some? && author.Some? && content.Some? && superchat.Some? && bits.Some?
         && membership.Some?
      then Some(UnifiedMessage(id.value, ts.value, kind.value, author.value, content.value, superchat.value,
                               bits.value, membership.value))
      else None
    case _ => None
  }

  // ---- round trip

  lemma NonNullOne(k: string, v: Json)
    ensures NonNull([(k, v)]) == if v.JNull? then [] else [(k, v)]
  {
    assert NonNull([(k, v)]) == (if v.JNull? then [] else [(k, v)]) + NonNull([]);
  }

  /** Cleaning an object whose member values have no `None` members of their own only drops its
      `None` members. */
  lemma CleanFlat(fields: seq<(string, Json)>)
    requires forall i :: 0 <= i < |fields| ==> NoNullMembers(fields[i].1)
    ensures Clean(JObj(fields)) == JObj(NonNull(fields))
  {
    var nn := NonNull(fields);
    NonNullMembers(fields);
    forall i | 0 <= i < |nn| ensures Clean(nn[i].1) == nn[i].1 {
      assert nn[i] in fields;
      CleanKeepsNullFree(nn[i].1);
    }
  }

  lemma StrsRoundTrip(xs: seq<string>)
    ensures NoNullMembers(Strs(xs))
    ensures AsStrs(Strs(xs).items) == Some(xs)
  {
    if xs != [] {
      StrsRoundTrip(xs[1..]);
      assert Strs(xs).items[1..] == Strs(xs[1..]).items;
      assert xs == [xs[0]] + xs[1..];
    }
  }

  /** No key occurs twice, as in a Python dict. */
  predicate DistinctKeys(fields: seq<(string, Json)>) {
    forall i, j :: 0 <= i < j < |fields| ==> fields[i].0 != fields[j].0
  }

  /** Dropping `None` members adds no key. */
  lemma NonNullKeysSub(fields: seq<(string, Json)>, k: string)
    ensures k in Keys(NonNull(fields)) ==> k in Keys(fields)
  {
    NonNullMembers(fields);
    if k in Keys(NonNull(fields)) {
      var m :| 0 <= m < |NonNull(fields)| && NonNull(fields)[m].0 == k;
      assert NonNull(fields)[m] in fields;
    }
  }

  /** In a dict, `get` of a key finds that key's value. */
  lemma {:induction false} GetAt(fields: seq<(string, Json)>, i: nat)
    requires i < |fields| && DistinctKeys(fields)
    ensures Get(fields, fields[i].0) == Some(fields[i].1)
  {
    if i > 0 {
      assert fields[1..][i - 1] == fields[i];
      GetAt(fields[1..], i - 1);
    }
  }

  /** After dropping the `None` members, `get` of a key finds its value when that is not `None`, and
      nothing otherwise. */
  lemma {:induction false} GetNonNullAt(fields: seq<(string, Json)>, i: nat)
    requires i < |fields| && DistinctKeys(fields)
    ensures Get(NonNull(fields), fields[i].0) == if fields[i].1.JNull? then None else Some(fields[i].1)
  {
    var k := fields[i].0;
    var head := if fields[0].1.JNull? then [] else [fields[0]];
    assert NonNull(fields) == head + NonNull(fields[1..]);
    GetAppend(head, NonNull(fields[1..]), k);
    if i == 0 {
      if fields[0].1.JNull? {
        assert k !in Keys(fields[1..]);
        NonNullKeysSub(fields[1..], k);
        GetFinds(NonNull(fields[1..]), k);
      }
    } else {
      assert fields[1..][i - 1] == fields[i];
      assert fields[0].0 != k;
      GetNonNullAt(fields[1..], i - 1);
    }
  }

  /** The members with their values cleaned. */
  function CleanValues(nn: seq<(string, Json)>): (r: seq<(string, Json)>)
    ensures |r| == |nn|
  {
    seq(|nn|, i requires 0 <= i < |nn| => (nn[i].0, Clean(nn[i].1)))
  }

  lemma {:induction false} GetOfCleanValues(nn: seq<(string, Json)>, k: string)
    ensures Get(CleanValues(nn), k) == (match Get(nn, k) case None => None case Some(v) => Some(Clean(v)))
  {
    if nn != [] {
      assert CleanValues(nn)[1..] == CleanValues(nn[1..]);
      GetOfCleanValues(nn[1..], k);
    }
  }

  /** `get` on a cleaned object: a member whose value was not `None` reads as that value cleaned; a
      `None` member or a missing key reads as nothing. */
  lemma GetCleanAt(fields: seq<(string, Json)>, i: nat)
    requires i < |fields| && DistinctKeys(fields)
    ensures Get(Clean(JObj(fields)).fields, fields[i].0) == if fields[i].1.JNull? then None else Some(Clean(fields[i].1))
  {
    assert Clean(JObj(fields)).fields == CleanValues(NonNull(fields));
    GetOfCleanValues(NonNull(fields), fields[i].0);
    GetNonNullAt(fields, i);
  }

  lemma GetCleanMissing(fields: seq<(string, Json)>, k: string)
    requires k !in Keys(fields)
    ensures Get(Clean(JObj(fields)).fields, k) == None
  {
    CleanKeys(fields, k);
    GetFinds(Clean(JObj(fields)).fields, k);
  }

  lemma AuthorRoundTrip(a: Author)
    ensures ReadAuthor(Some(Clean(JObj(AuthorFields(a))))) == Some(a)
  {
    var fs := AuthorFields(a);
    if a.badges.Some? {
      StrsRoundTrip(a.badges.value);
      CleanKeepsNullFree(Strs(a.badges.value));
    }
    GetCleanAt(fs, 0);
    GetCleanAt(fs, 1);
    GetCleanAt(fs, 2);
    GetCleanAt(fs, 3);
    var f := Clean(JObj(fs)).fields;
    assert Clean(JObj(fs)) == JObj(f);
    assert AsStr(Get(f, "id")) == Some(a.id);
    assert AsStr(Get(f, "name")) == Some(a.name);
    match a.color {
      case None => assert Get(f, "color") == None;
      case Some(c) => assert Get(f, "color") == Some(Clean(JStr(c))) == Some(JStr(c));
    }
    match a.badges {
      case None => assert Get(f, "badges") == None;
      case Some(xs) => assert Get(f, "badges") == Some(Strs(xs));
    }
  }

  /** An object whose members are all scalars or `None`, once its `None` members are dropped, has no
      `None` member left. */
  lemma FlatNonNullClean(fields: seq<(string, Json)>)
    requires forall i :: 0 <= i < |fields| ==> !fields[i].1.JObj? && !fields[i].1.JArr?
    ensures NoNullMembers(JObj(NonNull(fields)))
  {
    NonNullMembers(fields);
    forall i | 0 <= i < |NonNull(fields)| ensures !NonNull(fields)[i].1.JNull? && NoNullMembers(NonNull(fields)[i].1) {
      assert NonNull(fields)[i] in fields;
    }
  }

  lemma SegmentDictNullFree(s: Segment)
    ensures NoNullMembers(SegmentDict(s))
  {
    FlatNonNullClean(SegmentFields(s));
  }

  lemma SegmentRoundTrip(s: Segment)
    ensures ReadSegment(SegmentDict(s)) == Some(s)
  {
    var fs := SegmentFields(s);
    var f := NonNull(fs);
    match s {
      case Text(v) =>
        assert DistinctKeys(fs);
        assert Get(f, "type") == Some(JStr("text")) by { GetNonNullAt(fs, 0); }
        assert Get(f, "value") == Some(JStr(v)) by { GetNonNullAt(fs, 1); }
      case Emoji(id, name) =>
        assert DistinctKeys(fs);
        assert Get(f, "type") == Some(JStr("emoji")) by { GetNonNullAt(fs, 0); }
        assert Get(f, "id") == Some(JStr(id)) by { GetNonNullAt(fs, 2); }
        assert Get(f, "name") == Some(JStr(name)) by { GetNonNullAt(fs, 3); }
    }
  }

  function SegmentDicts(segs: seq<Segment>): (js: seq<Json>)
    ensures |js| == |segs|
  {
    seq(|segs|, i requires 0 <= i < |segs| => SegmentDict(segs[i]))
  }

  lemma SegmentDictsNullFree(segs: seq<Segment>)
    ensures NoNullMembers(JArr(SegmentDicts(segs)))
  {
    forall i | 0 <= i < |segs| ensures NoNullMembers(SegmentDicts(segs)[i]) {
      SegmentDictNullFree(segs[i]);
    }
  }

  lemma {:induction false} SegmentsRoundTrip(segs: seq<Segment>)
    ensures ReadSegments(SegmentDicts(segs)) == Some(segs)
  {
    if segs != [] {
      SegmentRoundTrip(segs[0]);
      SegmentsRoundTrip(segs[1..]);
      assert SegmentDicts(segs)[1..] == SegmentDicts(segs[1..]);
      assert segs == [segs[0]] + segs[1..];
    }
  }

  lemma ContentRoundTrip(c: Content)
    ensures ReadContent(Some(Clean(JObj(ContentFields(c))))) == Some(c)
  {
    var fs := ContentFields(c);
    var f := Clean(JObj(fs)).fields;
    var segs := JArr(SegmentDicts(c.segments));
    assert DistinctKeys(fs);
    assert Clean(JObj(fs)) == JObj(f);
    assert Get(f, "raw") == Some(JStr(c.raw)) by { GetCleanAt(fs, 0); }
    assert Get(f, "segments") == Some(segs) by {
      assert fs[1].1 == segs;
      SegmentDictsNullFree(c.segments);
      CleanKeepsNullFree(segs);
      GetCleanAt(fs, 1);
    }
    SegmentsRoundTrip(c.segments);
  }

  lemma SuperchatRoundTrip(sc: SuperchatData)
    ensures ReadSuperchat(Some(Clean(JObj(SuperchatFields(sc))))) == Some(Some(sc))
  {
    var fs := SuperchatFields(sc);
    GetCleanAt(fs, 0);
    GetCleanAt(fs, 1);
    GetCleanAt(fs, 2);
    var f := Clean(JObj(fs)).fields;
    assert Clean(JObj(fs)) == JObj(f);
    assert Get(f, "amount") == Some(JReal(sc.amount));
    assert Get(f, "currency") == Some(JStr(sc.currency));
    match sc.tier {
      case None => assert Get(f, "tier") == None;
      case Some(t) => assert Get(f, "tier") == Some(JInt(t));
    }
  }

  lemma BitsRoundTrip(b: BitsData)
    ensures ReadBits(Some(Clean(JObj(BitsFields(b))))) == Some(Some(b))
  {
    var fs := BitsFields(b);
    GetCleanAt(fs, 0);
    GetCleanAt(fs, 1);
    var f := Clean(JObj(fs)).fields;
    assert Clean(JObj(fs)) == JObj(f);
    assert Get(f, "amount") == Some(JInt(b.amount));
    match b.tier {
      case None => assert Get(f, "tier") == None;
      case Some(t) => assert Get(f, "tier") == Some(JInt(t));
    }
  }

  lemma MembershipRoundTrip(ms: MembershipData)
    ensures ReadMembership(Some(Clean(JObj(MembershipFields(ms))))) == Some(Some(ms))
  {
    var fs := MembershipFields(ms);
    var f := Clean(JObj(fs)).fields;
    assert DistinctKeys(fs);
    assert Clean(JObj(fs)) == JObj(f);
    assert AsOptStr(Get(f, "tier")) == Some(ms.tier) by { GetCleanAt(fs, 0); }
    assert AsOptInt(Get(f, "months")) == Some(ms.months) by { GetCleanAt(fs, 1); }
    assert AsBool(Get(f, "isGift")) == Some(ms.isGift) by { GetCleanAt(fs, 2); }
    assert AsOptInt(Get(f, "giftCount")) == Some(ms.giftCount) by { GetCleanAt(fs, 3); }
  }

  /** The top-level keys `_message_to_dict` writes, in its order. */
  function MessageKeys(m: UnifiedMessage): seq<string> {
    ["id", "timestamp_ms", "type", "author", "content"]
      + (if m.superchat.Some? then ["superchat"] else [])
      + (if m.bits.Some? then ["bits"] else [])
      + (if m.membership.Some? then ["membership"] else [])
  }

  /** No top-level key is written twice. */
  lemma MessageKeysDistinct(m: UnifiedMessage)
    ensures forall i, j :: 0 <= i < j < |MessageKeys(m)| ==> MessageKeys(m)[i] != MessageKeys(m)[j]
  {
    var base := ["id", "timestamp_ms", "type", "author", "content"];
    var opt := (if m.superchat.Some? then ["superchat"] else [])
      + (if m.bits.Some? then ["bits"] else [])
      + (if m.membership.Some? then ["membership"] else []);
    assert MessageKeys(m) == base + opt;
    assert forall i, j :: 0 <= i < j < |base| ==> base[i] != base[j];
    assert forall i, j :: 0 <= i < j < |opt| ==> opt[i] != opt[j];
    assert forall i, j :: 0 <= i < |base| && 0 <= j < |opt| ==> base[i] != opt[j];
  }

  lemma MessageFieldsKeys(m: UnifiedMessage)
    ensures Keys(MessageFields(m)) == MessageKeys(m)
    ensures DistinctKeys(MessageFields(m))
    ensures forall i :: 0 <= i < |MessageFields(m)| ==> !MessageFields(m)[i].1.JNull?
  {
    var fs := MessageFields(m);
    assert forall i :: 0 <= i < |fs| ==> fs[i].0 == MessageKeys(m)[i];
    MessageKeysDistinct(m);
  }

  /** The written message has its members in the source's order: `id`, `timestamp_ms`, `type`, `author`,
      `content`, then `superchat`, `bits` and `membership` for those the message has. */
  lemma MessageDictKeys(m: UnifiedMessage)
    ensures Keys(MessageToDict(m).fields) == MessageKeys(m)
  {
    MessageFieldsKeys(m);
    NonNullOfNonNull(MessageFields(m));
    CleanObjectKeys(MessageFields(m));
  }

  /** Where the optional sections sit among the members `_message_to_dict` builds. */
  lemma SectionsAt(m: UnifiedMessage)
    ensures var fs := MessageFields(m);
      && (m.superchat.Some? ==> fs[5] == ("superchat", JObj(SuperchatFields(m.superchat.value))))
      && (m.superchat.None? ==> "superchat" !in Keys(fs))
      && (m.bits.Some? ==> fs[5 + |OptionToSeq(m.superchat)|] == ("bits", JObj(BitsFields(m.bits.value))))
      && (m.bits.None? ==> "bits" !in Keys(fs))
      && (m.membership.Some? ==>
            fs[5 + |OptionToSeq(m.superchat)| + |OptionToSeq(m.bits)|]
              == ("membership", JObj(MembershipFields(m.membership.value))))
      && (m.membership.None? ==> "membership" !in Keys(fs))
  {
    MessageFieldsKeys(m);
  }

  lemma ReadMessageOf(f: seq<(string, Json)>, m: UnifiedMessage)
    requires Get(f, "id") == Some(JStr(m.id))
    requires Get(f, "timestamp_ms") == Some(JInt(m.timestampMs))
    requires Get(f, "type") == Some(JStr(m.kind))
    requires ReadAuthor(Get(f, "author")) == Some(m.author)
    requires ReadContent(Get(f, "content")) == Some(m.content)
    requires ReadSuperchat(Get(f, "superchat")) == Some(m.superchat)
    requires ReadBits(Get(f, "bits")) == Some(m.bits)
    requires ReadMembership(Get(f, "membership")) == Some(m.membership)
    ensures ReadMessage(JObj(f)) == Some(m)
  {
  }

  lemma MessageBaseRead(m: UnifiedMessage)
    ensures var f := MessageToDict(m).fields;
      && Get(f, "id") == Some(JStr(m.id))
      && Get(f, "timestamp_ms") == Some(JInt(m.timestampMs))
      && Get(f, "type") == Some(JStr(m.kind))
      && ReadAuthor(Get(f, "author")) == Some(m.author)
      && ReadContent(Get(f, "content")) == Some(m.content)
  {
    var fs := MessageFields(m);
    MessageFieldsKeys(m);
    GetCleanAt(fs, 0);
    GetCleanAt(fs, 1);
    GetCleanAt(fs, 2);
    GetCleanAt(fs, 3);
    AuthorRoundTrip(m.author);
    GetCleanAt(fs, 4);
    ContentRoundTrip(m.content);
  }

  lemma MessageSuperchatRead(m: UnifiedMessage)
    ensures ReadSuperchat(Get(MessageToDict(m).fields, "superchat")) == Some(m.superchat)
  {
    var fs := MessageFields(m);
    MessageFieldsKeys(m);
    SectionsAt(m);
    match m.superchat {
      case None => GetCleanMissing(fs, "superchat");
      case Some(sc) => GetCleanAt(fs, 5); SuperchatRoundTrip(sc);
    }
  }

  lemma MessageBitsRead(m: UnifiedMessage)
    ensures ReadBits(Get(MessageToDict(m).fields, "bits")) == Some(m.bits)
  {
    var fs := MessageFields(m);
    MessageFieldsKeys(m);
    SectionsAt(m);
    match m.bits {
      case None => GetCleanMissing(fs, "bits");
      case Some(b) => GetCleanAt(fs, 5 + |OptionToSeq(m.superchat)|); BitsRoundTrip(b);
    }
  }

  lemma MessageMembershipRead(m: UnifiedMessage)
    ensures ReadMembership(Get(MessageToDict(m).fields, "membership")) == Some(m.membership)
  {
    var fs := MessageFields(m);
    MessageFieldsKeys(m);
    SectionsAt(m);
    match m.membership {
      case None => GetCleanMissing(fs, "membership");
      case Some(ms) =>
        GetCleanAt(fs, 5 + |OptionToSeq(m.superchat)| + |OptionToSeq(m.bits)|);
        MembershipRoundTrip(ms);
    }
  }

  /** Nothing of a message is lost in writing it: reading the written object back gives the message. */
  lemma MessageRoundTrip(m: UnifiedMessage)
    ensures ReadMessage(MessageToDict(m)) == Some(m)
  {
    MessageBaseRead(m);
    MessageSuperchatRead(m);
    MessageBitsRead(m);
    MessageMembershipRead(m);
    ReadMessageOf(MessageToDict(m).fields, m);
  }
}
