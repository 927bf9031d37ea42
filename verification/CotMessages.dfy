/** CoT messages (pkg/cot/cotmessage.go and the messages of protobuf/). */
module CotMessages {
  import opened Wrappers
  import opened Strings
  import opened XmlNode
  import Filter

  type uint32 = x: nat | x < 0x1_0000_0000
  type uint64 = x: nat | x < 0x1_0000_0000_0000_0000

  datatype Contact = Contact(endpoint: string, callsign: string)
  datatype Group = Group(name: string, role: string)
  datatype PrecisionLocation = PrecisionLocation(altsrc: string, geopointsrc: string)
  datatype Status = Status(battery: uint32)
  datatype Takv = Takv(device: string, platform: string, os: string, version: string)

  /** In millionths. */
  datatype Track = Track(speed: int, course: int)

  /** The xmlDetail string as the inside of a parsed <detail> element; "" has neither. */
  datatype XmlText = XmlText(content: string, nodes: seq<Node>)

  datatype Detail = Detail(xml: XmlText, contact: Option<Contact>, group: Option<Group>,
                           precision: Option<PrecisionLocation>, status: Option<Status>, takv: Option<Takv>,
                           track: Option<Track>)

  datatype CotEvent = CotEvent(
    typ: string, access: string, qos: string, opex: string, caveat: string, releaseableTo: string,
    uid: string, sendTime: uint64, startTime: uint64, staleTime: uint64, how: string,
    lat: real, lon: real, hae: real, ce: real, le: real, detail: Option<Detail>)

  datatype CotMessage = CotMessage(from: string, scope: string, event: CotEvent, detail: Option<Node>)

  const LOCAL_SCOPE := "local"

  /** A time.Time, as the nanoseconds since the epoch. */
  type Time = int

  const MILLISECOND: int := 1_000_000
  const SECOND: int := 1000 * MILLISECOND
  const DAY: int := 24 * 60 * 60 * SECOND

  /** time.UnixMilli: the 64 bits read as a signed number. */
  function TimeFromMillis(ms: uint64): Time {
    (if ms < 0x8000_0000_0000_0000 then ms else ms - 0x1_0000_0000_0000_0000) * MILLISECOND
  }

  /** UnixMilli, which rounds down, as 64 bits. */
  function TimeToMillis(t: Time): uint64 {
    (t / MILLISECOND) % 0x1_0000_0000_0000_0000
  }

  /** A time that milliseconds can hold; years 0 to 9999 are well in their range. */
  predicate WholeMillis(t: Time) {
    t % MILLISECOND == 0 && -0x8000_0000_0000_0000 <= t / MILLISECOND < 0x8000_0000_0000_0000
  }

  lemma {:induction false} MillisKept(ms: uint64)
    ensures TimeToMillis(TimeFromMillis(ms)) == ms && WholeMillis(TimeFromMillis(ms))
  {
    var n := if ms < 0x8000_0000_0000_0000 then ms else ms - 0x1_0000_0000_0000_0000;
    assert TimeFromMillis(ms) == n * MILLISECOND;
    assert n * MILLISECOND / MILLISECOND == n && n * MILLISECOND % MILLISECOND == 0;
  }

  /** A time survives as milliseconds exactly if it is a whole number of them. */
  lemma {:induction false} TimeKeptExactlyWhen(t: Time)
    ensures TimeFromMillis(TimeToMillis(t)) == t <==> WholeMillis(t)
  {
    if WholeMillis(t) {
      assert t == (t / MILLISECOND) * MILLISECOND;
    }
    MillisKept(TimeToMillis(t));
  }

  /** cmp.Or on strings. */
  function Or(a: string, b: string): string {
    if a != "" then a else b
  }

  function TypedContact(m: CotMessage): Option<Contact> {
    if m.event.detail.Some? then m.event.detail.value.contact else None
  }

  function TypedGroup(m: CotMessage): Option<Group> {
    if m.event.detail.Some? then m.event.detail.value.group else None
  }

  function GetCallsign(m: CotMessage): string {
    Or(if TypedContact(m).Some? then TypedContact(m).value.callsign else "",
       GetAttr(GetFirst(m.detail, "contact"), "callsign"))
  }

  function GetEndpoint(m: CotMessage): string {
    Or(if TypedContact(m).Some? then TypedContact(m).value.endpoint else "",
       GetAttr(GetFirst(m.detail, "contact"), "endpoint"))
  }

  function GetTeam(m: CotMessage): string {
    Or(if TypedGroup(m).Some? then TypedGroup(m).value.name else "", GetAttr(GetFirst(m.detail, "__group"), "name"))
  }

  function GetRole(m: CotMessage): string {
    Or(if TypedGroup(m).Some? then TypedGroup(m).value.role else "", GetAttr(GetFirst(m.detail, "__group"), "role"))
  }

  predicate IsContact(m: CotMessage) {
    HasPrefix(m.event.typ, "a-f-") && GetEndpoint(m) != ""
  }

  predicate IsChat(m: CotMessage) {
    m.event.typ == "b-t-f"
  }

  predicate IsChatReceipt(m: CotMessage) {
    m.event.typ in {"b-t-f-d", "b-t-f-p", "b-t-f-r", "b-t-f-s", "b-t-f-u"}
  }

  predicate IsFileTransfer(m: CotMessage) {
    m.event.typ == "b-f-t-r" || m.event.typ == "b-f-t-a"
  }

  predicate IsLocal(m: CotMessage) {
    m.scope == LOCAL_SCOPE
  }

  predicate IsControl(m: CotMessage) {
    IsControlType(m.event.typ)
  }

  predicate IsControlType(typ: string) {
    Filter.MatchAnyPattern(typ, ["t-b", "t-b-a", "t-b-c", "t-b-q", "t-x-takp-q", "t-x-c-m", "t-x-c-i-e", "t-x-c-i-d"])
  }

  predicate IsMapItem(m: CotMessage) {
    || Filter.MatchAnyPattern(m.event.typ, ["a-", "u-"])
    || (!IsChat(m) && !IsChatReceipt(m) && !IsFileTransfer(m) &&
        m.event.lat != 0.0 && m.event.lon != 0.0 && Filter.MatchAnyPattern(m.event.typ, ["b-"]))
  }

  function FirstWith(links: seq<Node>, relation: string): Option<Node> {
    if links == [] then None
    else if relation == "" || Value(links[0].attrs, "relation") == relation then Some(links[0])
    else FirstWith(links[1..], relation)
  }

  function GetFirstLink(m: CotMessage, relation: string): Option<Node> {
    FirstWith(GetAll(m.detail, "link"), relation)
  }

  /** GetParent: the uid of the first link with relation "p-p". */
  function GetParent(m: CotMessage): string {
    GetAttr(GetFirstLink(m, "p-p"), "uid")
  }

  /** DetailsFromString on an xmlDetail: a text that starts with a bare <detail>
      is taken for the whole element. */
  function DetailsFromXml(x: XmlText): Node {
    var bare := x.content == "" && x.nodes != [] && x.nodes[0].name in {"detail", "Detail"} && x.nodes[0].attrs == [];
    if bare then x.nodes[0]
    else Node("detail", [], x.content, x.nodes)
  }

  /** CotFromProto. */
  function CotFromProto(event: CotEvent, from: string, scope: string): CotMessage {
    var xml := if event.detail.Some? then event.detail.value.xml else XmlText("", []);
    CotMessage(from, scope, event, Some(DetailsFromXml(xml)))
  }
}
