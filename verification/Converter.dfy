/** Translation between CotEvent messages and XML events (pkg/cot/converter.go),
    under the sender and receiver rules of protobuf/detail.proto. */
module Converter {
  import opened Wrappers
  import opened XmlNode
  import opened CotMessages
  import opened Numbers

  /** A <detail> element. */
  datatype DetailElement = DetailElement(attrs: seq<Attr>, content: string, nodes: seq<Node>) {
    function AsNode(): Node {
      Node("detail", attrs, content, nodes)
    }
  }

  datatype Event = Event(
    version: string, typ: string, access: string, qos: string, opex: string, uid: string,
    time: Time, start: Time, stale: Time, how: string,
    lat: real, lon: real, hae: real, ce: real, le: real, detail: Option<DetailElement>)

  // ---- CotToEvent ----

  /** The attributes that stand for one typed field, if it is to be written. */
  function ParamsFor(d: Detail, tag: string): Option<map<string, string>> {
    if tag == "contact" then
      if d.contact.Some? && d.contact.value.callsign != "" then
        Some(map["callsign" := d.contact.value.callsign, "endpoint" := d.contact.value.endpoint])
      else None
    else if tag == "status" then
      if d.status.Some? then Some(map["battery" := Itoa(d.status.value.battery)]) else None
    else if tag == "track" then
      if d.track.Some? then
        Some(map["course" := FormatF(d.track.value.course), "speed" := FormatF(d.track.value.speed)])
      else None
    else if tag == "takv" then
      if d.takv.Some? then
        Some(map["os" := d.takv.value.os, "version" := d.takv.value.version,
                 "device" := d.takv.value.device, "platform" := d.takv.value.platform])
      else None
    else if tag == "__group" then
      if d.group.Some? then Some(map["name" := d.group.value.name, "role" := d.group.value.role]) else None
    else if tag == "precisionlocation" then
      if d.precision.Some? then
        Some(map["altsrc" := d.precision.value.altsrc, "geopointsrc" := d.precision.value.geopointsrc])
      else None
    else None
  }

  function Typed(d: Detail, tag: string): map<string, string> {
    ParamsFor(d, tag).UnwrapOr(map[])
  }

  ghost function AddTag(nodes: seq<Node>, d: Detail, tag: string, ord: Order): seq<Node>
    requires IsOrder(ord)
  {
    match ParamsFor(d, tag)
    case None => nodes
    case Some(params) => WithChildOrAttrs(nodes, tag, params, ord)
  }

  /** The children of <detail>: those of xmlDetail, with the typed fields merged in. */
  ghost function MergedNodes(d: Detail, ord: Order): seq<Node>
    requires IsOrder(ord)
  {
    var n1 := AddTag(d.xml.nodes, d, "contact", ord);
    var n2 := AddTag(n1, d, "status", ord);
    var n3 := AddTag(n2, d, "track", ord);
    var n4 := AddTag(n3, d, "takv", ord);
    var n5 := AddTag(n4, d, "__group", ord);
    AddTag(n5, d, "precisionlocation", ord)
  }

  ghost function EventSpec(c: CotEvent, ord: Order): Event
    requires IsOrder(ord)
  {
    var detail := if c.detail.None? then DetailElement([], "", [])
                  else DetailElement([], c.detail.value.xml.content, MergedNodes(c.detail.value, ord));
    Event("2.0", c.typ, c.access, c.qos, c.opex, c.uid, TimeFromMillis(c.sendTime), TimeFromMillis(c.startTime),
          TimeFromMillis(c.staleTime), c.how, c.lat, c.lon, c.hae, c.ce, c.le, Some(detail))
  }

  method CotToEvent(c: CotEvent, ord: Order) returns (ev: Event)
    requires IsOrder(ord)
    ensures ev == EventSpec(c, ord)
  {
    var el := new Element("detail", [], "", []);
    if c.detail.Some? {
      var d := c.detail.value;
      if d.xml != XmlText("", []) {
        el.content, el.nodes := d.xml.content, d.xml.nodes;
      }
      MergeAll(el, d, ord);
    }
    ev := Event("2.0", c.typ, c.access, c.qos, c.opex, c.uid, TimeFromMillis(c.sendTime), TimeFromMillis(c.startTime),
                TimeFromMillis(c.staleTime), c.how, c.lat, c.lon, c.hae, c.ce, c.le,
                Some(DetailElement(el.attrs, el.content, el.nodes)));
  }

  method MergeAll(el: Element, d: Detail, ord: Order)
    requires IsOrder(ord) && el.nodes == d.xml.nodes
    modifies el`nodes
    ensures el.nodes == MergedNodes(d, ord)
  {
    Merge(el, d, "contact", ord);
    Merge(el, d, "status", ord);
    Merge(el, d, "track", ord);
    Merge(el, d, "takv", ord);
    Merge(el, d, "__group", ord);
    Merge(el, d, "precisionlocation", ord);
  }

  /** One of the six conditional calls of AddOrChangeChild. */
  method Merge(el: Element, d: Detail, tag: string, ord: Order)
    requires IsOrder(ord)
    modifies el`nodes
    ensures el.nodes == AddTag(old(el.nodes), d, tag, ord)
  {
    var params := ParamsFor(d, tag);
    if params.Some? {
      el.AddOrChangeChild(tag, params.value, ord);
    }
  }

  // ---- EventToProto ----

  const REMOVED: set<string> := {"__group", "precisionlocation", "status", "takv", "track"}

  /** A contact with three or more different attributes stays in xmlDetail whole. */
  predicate ExtContact(c: Option<Node>) {
    c.Some? && |AttrMap(c.value.attrs)| >= 3
  }

  function TagsToRemove(extContact: bool): set<string> {
    if extContact then REMOVED else REMOVED + {"contact"}
  }

  /** GetXMLDetails prints the element and parses it again; the text is taken for
      a whole <detail> only if the tag has no attributes. */
  function Reparsed(d: DetailElement): DetailElement {
    if d.attrs == [] then d else DetailElement([], "", [d.AsNode()])
  }

  function Residual(d: Option<DetailElement>, extContact: bool): Option<DetailElement> {
    if d.None? then None
    else
      var x := Reparsed(d.value);
      Some(DetailElement(x.attrs, "", Without(x.nodes, TagsToRemove(extContact))))
  }

  function ContactOf(c: Option<Node>): Option<Contact> {
    if c.Some? && !ExtContact(c) then Some(Contact(GetAttr(c, "endpoint"), GetAttr(c, "callsign"))) else None
  }

  function GroupOf(c: Option<Node>): Option<Group> {
    if c.Some? then Some(Group(GetAttr(c, "name"), GetAttr(c, "role"))) else None
  }

  function PrecisionOf(c: Option<Node>): Option<PrecisionLocation> {
    if c.Some? then Some(PrecisionLocation(GetAttr(c, "altsrc"), GetAttr(c, "geopointsrc"))) else None
  }

  function StatusOf(c: Option<Node>): Option<Status> {
    var n := Atoi(GetAttr(c, "battery"));
    if c.Some? && n.Some? then Some(Status(n.value % 0x1_0000_0000)) else None
  }

  function TakvOf(c: Option<Node>): Option<Takv> {
    if c.Some? then Some(Takv(GetAttr(c, "device"), GetAttr(c, "platform"), GetAttr(c, "os"), GetAttr(c, "version")))
    else None
  }

  function TrackOf(c: Option<Node>, parse: string -> Option<int>): Option<Track> {
    if c.Some? then Some(Track(GetFloat(GetAttr(c, "speed"), parse), GetFloat(GetAttr(c, "course"), parse))) else None
  }

  function DetailNode(ev: Event): Option<Node> {
    if ev.detail.Some? then Some(ev.detail.value.AsNode()) else None
  }

  function TypedFields(root: Option<Node>, xml: XmlText, parse: string -> Option<int>): Detail {
    Detail(xml, ContactOf(GetFirst(root, "contact")), GroupOf(GetFirst(root, "__group")),
           PrecisionOf(GetFirst(root, "precisionlocation")), StatusOf(GetFirst(root, "status")),
           TakvOf(GetFirst(root, "takv")), TrackOf(GetFirst(root, "track"), parse))
  }

  function ProtoSpec(ev: Event, parse: string -> Option<int>): CotMessage {
    var root := DetailNode(ev);
    var xd := Residual(ev.detail, ExtContact(GetFirst(root, "contact")));
    var xml := if xd.Some? then XmlText(xd.value.content, xd.value.nodes) else XmlText("", []);
    var event := CotEvent(ev.typ, ev.access, ev.qos, ev.opex, "", "", ev.uid,
                          TimeToMillis(ev.time), TimeToMillis(ev.start), TimeToMillis(ev.stale), ev.how,
                          ev.lat, ev.lon, ev.hae, ev.ce, ev.le, Some(TypedFields(root, xml, parse)));
    CotMessage("", "", event, if xd.Some? then Some(xd.value.AsNode()) else None)
  }

  method EventToProto(ev: Event, parse: string -> Option<int>) returns (msg: CotMessage)
    ensures msg == ProtoSpec(ev, parse)
  {
    var root := DetailNode(ev);
    var detail := TypedFields(root, XmlText("", []), parse);
    var extContact := false;
    var c := GetFirst(root, "contact");
    if c.Some? && |AttrMap(c.value.attrs)| >= 3 {
      extContact := true;
    }
    var xd := GetXMLDetails(ev.detail, extContact);
    var event := CotEvent(ev.typ, ev.access, ev.qos, ev.opex, "", "", ev.uid,
                          TimeToMillis(ev.time), TimeToMillis(ev.start), TimeToMillis(ev.stale), ev.how,
                          ev.lat, ev.lon, ev.hae, ev.ce, ev.le, None);
    if xd.Some? {
      detail := detail.(xml := XmlText(xd.value.content, xd.value.nodes));
    }
    msg := CotMessage("", "", event.(detail := Some(detail)), if xd.Some? then Some(xd.value.AsNode()) else None);
  }

  method GetXMLDetails(d: Option<DetailElement>, withContacts: bool) returns (xd: Option<DetailElement>)
    ensures xd == Residual(d, withContacts)
  {
    if d.None? { return None; }
    var x := Reparsed(d.value);
    var el := new Element("detail", x.attrs, x.content, x.nodes);
    if withContacts {
      el.RemoveTags(REMOVED);
    } else {
      el.RemoveTags(REMOVED + {"contact"});
    }
    return Some(DetailElement(el.attrs, el.content, el.nodes));
  }

  // ---- the round trip ----

  /** Converting to XML and back. */
  ghost function RoundTrip(c: CotEvent, ord: Order, parse: string -> Option<int>): CotEvent
    requires IsOrder(ord)
  {
    ProtoSpec(EventSpec(c, ord), parse).event
  }

  /** What a sender that follows the rules of detail.proto puts in a message: no
      element is both typed and in xmlDetail, and a contact is in xmlDetail only
      if it has attributes that the typed message has no place for. */
  ghost predicate NormalForm(c: CotEvent) {
    && c.caveat == "" && c.releaseableTo == ""
    && c.detail.Some?
    && var d := c.detail.value;
    && d.xml.content == ""
    && (forall n <- d.xml.nodes :: n.name !in REMOVED)
    && (d.contact.Some? ==> d.contact.value.callsign != "")
    && var inXml := First(d.xml.nodes, "contact");
    (inXml.Some? ==> d.contact.None? && ExtContact(inXml))
  }

  ghost function NewChild(tag: string, params: map<string, string>, ord: Order): Node
    requires IsOrder(ord)
  {
    Node(tag, AttrsOf(params, ord(params), false), "", [])
  }

  /** An element of xmlDetail with the attributes of its typed field added at the end. */
  ghost function WithExtra(n: Node, d: Detail, ord: Order): Node
    requires IsOrder(ord)
  {
    match ParamsFor(d, n.name)
    case None => n
    case Some(params) => n.(attrs := n.attrs + AttrsOf(params, ord(params), true))
  }

  lemma {:induction false} AddTagFirst(nodes: seq<Node>, d: Detail, tag: string, ord: Order, t: string)
    requires IsOrder(ord)
    ensures t != tag ==> First(AddTag(nodes, d, tag, ord), t) == First(nodes, t)
    ensures t == tag && First(nodes, t).None? ==>
              First(AddTag(nodes, d, tag, ord), t)
              == if ParamsFor(d, t).Some? then Some(NewChild(t, ParamsFor(d, t).value, ord)) else None
    ensures t == tag && First(nodes, t).Some? ==>
              First(AddTag(nodes, d, tag, ord), t) == Some(WithExtra(First(nodes, t).value, d, ord))
  {
    FirstIs(nodes, tag);
    if ParamsFor(d, tag).Some? {
      var params := ParamsFor(d, tag).value;
      var i := IndexOf(nodes, tag);
      if i < |nodes| {
        var changed := nodes[i].(attrs := nodes[i].attrs + AttrsOf(params, ord(params), true));
        ChangedFirst(nodes, i, changed, t);
        ChangedIsFirst(nodes, i, changed);
      } else {
        FirstConcat(nodes, [NewChild(tag, params, ord)], t);
      }
    }
  }

  /** Changing the attributes of a child does not disturb the search for others. */
  lemma {:induction false} ChangedFirst(nodes: seq<Node>, i: nat, n: Node, t: string)
    requires i < |nodes| && n.name == nodes[i].name
    ensures t != n.name ==> First(nodes[i := n], t) == First(nodes, t)
  {
    if i > 0 {
      ChangedFirst(nodes[1..], i - 1, n, t);
      assert nodes[i := n][1..] == nodes[1..][i - 1 := n];
    } else {
      assert nodes[i := n][1..] == nodes[1..];
    }
  }

  lemma {:induction false} ChangedIsFirst(nodes: seq<Node>, i: nat, n: Node)
    requires i < |nodes| && n.name == nodes[i].name && forall k :: 0 <= k < i ==> nodes[k].name != n.name
    ensures First(nodes[i := n], n.name) == Some(n)
  {
    if i > 0 {
      ChangedIsFirst(nodes[1..], i - 1, n);
      assert nodes[i := n][1..] == nodes[1..][i - 1 := n];
    }
  }

  lemma {:induction false} ChangedWithout(nodes: seq<Node>, i: nat, n: Node, tags: set<string>)
    requires i < |nodes| && n.name == nodes[i].name && n.name in tags
    ensures Without(nodes[i := n], tags) == Without(nodes, tags)
  {
    if i > 0 {
      ChangedWithout(nodes[1..], i - 1, n, tags);
      assert nodes[i := n][1..] == nodes[1..][i - 1 := n];
    } else {
      assert nodes[i := n][1..] == nodes[1..];
    }
  }

  lemma {:induction false} AddTagWithout(nodes: seq<Node>, d: Detail, tag: string, ord: Order, tags: set<string>)
    requires IsOrder(ord) && (tag in tags || ParamsFor(d, tag).None?)
    ensures Without(AddTag(nodes, d, tag, ord), tags) == Without(nodes, tags)
  {
    if ParamsFor(d, tag).Some? {
      var params := ParamsFor(d, tag).value;
      var i := IndexOf(nodes, tag);
      if i < |nodes| {
        ChangedWithout(nodes, i, nodes[i].(attrs := nodes[i].attrs + AttrsOf(params, ord(params), true)), tags);
      } else {
        WithoutConcat(nodes, [NewChild(tag, params, ord)], tags);
        assert Without([NewChild(tag, params, ord)], tags) == [];
        assert Without(nodes, tags) + [] == Without(nodes, tags);
      }
    }
  }

  /** The first child of a name after merging: the typed one, if xmlDetail has none. */
  lemma {:induction false} MergedFirst(d: Detail, ord: Order, t: string)
    requires IsOrder(ord)
    ensures First(d.xml.nodes, t).None? ==>
              First(MergedNodes(d, ord), t)
              == if ParamsFor(d, t).Some? then Some(NewChild(t, ParamsFor(d, t).value, ord)) else None
    ensures ParamsFor(d, t).None? ==> First(MergedNodes(d, ord), t) == First(d.xml.nodes, t)
    ensures First(d.xml.nodes, t).Some? && First(d.xml.nodes, t).value.name == t ==>
              First(MergedNodes(d, ord), t) == Some(WithExtra(First(d.xml.nodes, t).value, d, ord))
  {
    var n1 := AddTag(d.xml.nodes, d, "contact", ord);
    var n2 := AddTag(n1, d, "status", ord);
    var n3 := AddTag(n2, d, "track", ord);
    var n4 := AddTag(n3, d, "takv", ord);
    var n5 := AddTag(n4, d, "__group", ord);
    AddTagFirst(d.xml.nodes, d, "contact", ord, t);
    AddTagFirst(n1, d, "status", ord, t);
    AddTagFirst(n2, d, "track", ord, t);
    AddTagFirst(n3, d, "takv", ord, t);
    AddTagFirst(n4, d, "__group", ord, t);
    AddTagFirst(n5, d, "precisionlocation", ord, t);
  }

  lemma {:induction false} ValueConcat(a: seq<Attr>, b: seq<Attr>, k: string)
    ensures Value(a + b, k) == if k in AttrMap(a) then Value(a, k) else Value(b, k)
  {
    AttrMapKeys(a);
    if a == [] {
      assert a + b == b;
    } else {
      assert (a + b)[1..] == a[1..] + b;
      AttrMapKeys(a[1..]);
      ValueConcat(a[1..], b, k);
      if k in AttrMap(a) && a[0].name != k {
        var i :| 0 <= i < |a| && a[i].name == k;
        assert a[1..][i - 1].name == k;
      }
      if k in AttrMap(a[1..]) {
        var i :| 0 <= i < |a[1..]| && a[1..][i].name == k;
        assert a[i + 1].name == k;
      }
    }
  }

  // ---- receiver rule 5 ----

  /** The attributes of an element after the typed field of its name is merged in:
      its own, and then every typed one, those it has already too. */
  lemma {:induction false} MergedAttrs(d: Detail, ord: Order, t: string)
    requires IsOrder(ord) && First(d.xml.nodes, t).Some?
    ensures var own := First(d.xml.nodes, t).value;
            First(MergedNodes(d, ord), t) ==
            match ParamsFor(d, t)
            case None => Some(own)
            case Some(params) => Some(own.(attrs := own.attrs + AttrsOf(params, ord(params), true)))
  {
    FirstIs(d.xml.nodes, t);
    MergedFirst(d, ord, t);
  }

  /** Every typed field that is written has an attribute. */
  lemma {:induction false} SomeParam(d: Detail, t: string)
    requires ParamsFor(d, t).Some?
    ensures ParamsFor(d, t).value.Keys != {}
  {
    var params := ParamsFor(d, t).value;
    assert || "callsign" in params || "battery" in params || "course" in params
           || "os" in params || "name" in params || "altsrc" in params;
  }

  /** Receiver rule 5: the element of xmlDetail is left alone exactly when there is no
      typed message to be ignored. */
  lemma {:induction false} LeftAloneExactlyWhen(d: Detail, ord: Order, t: string)
    requires IsOrder(ord) && First(d.xml.nodes, t).Some?
    ensures First(MergedNodes(d, ord), t) == First(d.xml.nodes, t) <==> ParamsFor(d, t).None?
  {
    MergedAttrs(d, ord, t);
    if ParamsFor(d, t).Some? {
      var params := ParamsFor(d, t).value;
      assert Visits(ord(params), params);
      SomeParam(d, t);
      var k :| k in params;
      assert k in ord(params);
      AttrsOfAll(params, ord(params));
      var own := First(d.xml.nodes, t).value.attrs;
      assert |own + AttrsOf(params, ord(params), true)| > |own|;
    }
  }

  /** What GetAttr reads from the merged element: its own attribute first. */
  lemma {:induction false} MergedReads(d: Detail, ord: Order, t: string, k: string)
    requires IsOrder(ord) && First(d.xml.nodes, t).Some?
    ensures var own := First(d.xml.nodes, t).value.attrs;
            var typed := Typed(d, t);
            GetAttr(First(MergedNodes(d, ord), t), k)
              == if k in AttrMap(own) then Value(own, k) else if k in typed then typed[k] else ""
  {
    MergedAttrs(d, ord, t);
    var own := First(d.xml.nodes, t).value.attrs;
    match ParamsFor(d, t)
    case None =>
      ValueConcat(own, [], k);
      assert own + [] == own;
    case Some(params) =>
      assert Visits(ord(params), params);
      ValueOfAttrs(params, ord(params), true, k);
      ValueConcat(own, AttrsOf(params, ord(params), true), k);
  }

  /** GetAttr reads the same from the merged element as from that of xmlDetail exactly
      when every typed value is empty or for an attribute that the element has. */
  lemma {:induction false} ReadsSameExactlyWhen(d: Detail, ord: Order, t: string)
    requires IsOrder(ord) && First(d.xml.nodes, t).Some?
    ensures var own := First(d.xml.nodes, t);
            var typed := Typed(d, t);
            (forall k :: GetAttr(First(MergedNodes(d, ord), t), k) == GetAttr(own, k))
            <==> forall k <- typed :: typed[k] == "" || k in AttrMap(own.value.attrs)
  {
    var own := First(d.xml.nodes, t).value.attrs;
    forall k
      ensures var typed := Typed(d, t);
              GetAttr(First(MergedNodes(d, ord), t), k)
                == if k in AttrMap(own) then Value(own, k) else if k in typed then typed[k] else ""
      ensures k !in AttrMap(own) ==> Value(own, k) == ""
    {
      MergedReads(d, ord, t, k);
      ValueConcat(own, [], k);
      assert own + [] == own;
    }
  }

  /** GetAttrs, which lets the last attribute of a name win, reads the typed values. */
  lemma {:induction false} GetAttrsReadsTyped(d: Detail, ord: Order, t: string)
    requires IsOrder(ord) && First(d.xml.nodes, t).Some?
    ensures var own := First(d.xml.nodes, t).value.attrs;
            var typed := Typed(d, t);
            AttrMap(AttrsAt(First(MergedNodes(d, ord), t))) == AttrMap(own) + typed
  {
    MergedAttrs(d, ord, t);
    if ParamsFor(d, t).Some? {
      var params := ParamsFor(d, t).value;
      assert Visits(ord(params), params);
      AttrMapConcat(First(d.xml.nodes, t).value.attrs, AttrsOf(params, ord(params), true));
      AttrMapOfAll(params, ord(params));
    }
  }

  /** The merged element has no attribute twice, as XML asks for, exactly when it has
      none twice in xmlDetail and no typed one there. */
  lemma {:induction false} NoRepeatsExactlyWhen(d: Detail, ord: Order, t: string)
    requires IsOrder(ord) && First(d.xml.nodes, t).Some?
    ensures var own := First(d.xml.nodes, t).value.attrs;
            var typed := Typed(d, t);
            NoRepeats(AttrsAt(First(MergedNodes(d, ord), t)))
            <==> NoRepeats(own) && forall k <- typed :: k !in AttrMap(own)
  {
    MergedAttrs(d, ord, t);
    if ParamsFor(d, t).Some? {
      var params := ParamsFor(d, t).value;
      assert Visits(ord(params), params);
      AttrsOfAll(params, ord(params));
      RepeatsConcat(First(d.xml.nodes, t).value.attrs, AttrsOf(params, ord(params), true), ord(params));
    }
  }

  /** A message whose contact is typed and in xmlDetail too, with two callsigns: the
      event carries the attribute twice, GetAttr reads one and GetAttrs the other. */
  lemma {:induction false} TwoCallsigns(d: Detail, ord: Order, own: string, typed: string, endpoint: string)
    requires IsOrder(ord) && own != typed && typed != ""
    requires d.xml.nodes == [Node("contact", [Attr("callsign", own)], "", [])]
             && d.contact == Some(Contact(endpoint, typed))
    ensures var c := First(MergedNodes(d, ord), "contact");
            && !NoRepeats(AttrsAt(c)) && GetAttr(c, "callsign") == own
            && "callsign" in AttrMap(AttrsAt(c)) && AttrMap(AttrsAt(c))["callsign"] == typed
  {
    var attrs := [Attr("callsign", own)];
    assert First(d.xml.nodes, "contact") == Some(d.xml.nodes[0]);
    AttrMapKeys(attrs);
    assert attrs[0].name == "callsign";
    MergedReads(d, ord, "contact", "callsign");
    GetAttrsReadsTyped(d, ord, "contact");
    NoRepeatsExactlyWhen(d, ord, "contact");
    MergedAttrs(d, ord, "contact");
  }

  lemma {:induction false} MergedWithout(d: Detail, ord: Order, tags: set<string>)
    requires IsOrder(ord) && REMOVED <= tags && ("contact" in tags || ParamsFor(d, "contact").None?)
    ensures Without(MergedNodes(d, ord), tags) == Without(d.xml.nodes, tags)
  {
    var n1 := AddTag(d.xml.nodes, d, "contact", ord);
    var n2 := AddTag(n1, d, "status", ord);
    var n3 := AddTag(n2, d, "track", ord);
    var n4 := AddTag(n3, d, "takv", ord);
    var n5 := AddTag(n4, d, "__group", ord);
    AddTagWithout(d.xml.nodes, d, "contact", ord, tags);
    AddTagWithout(n1, d, "status", ord, tags);
    AddTagWithout(n2, d, "track", ord, tags);
    AddTagWithout(n3, d, "takv", ord, tags);
    AddTagWithout(n4, d, "__group", ord, tags);
    AddTagWithout(n5, d, "precisionlocation", ord, tags);
  }

  lemma {:induction false} ChildAttr(tag: string, params: map<string, string>, ord: Order, k: string)
    requires IsOrder(ord) && k in params
    ensures GetAttr(Some(NewChild(tag, params, ord)), k) == params[k]
  {
    NewChildAttr(tag, params, "", ord, k);
  }

  /** A contact written from the typed message has at most two attributes. */
  lemma {:induction false} TypedContactIsShort(params: map<string, string>, ord: Order)
    requires IsOrder(ord) && params.Keys == {"callsign", "endpoint"}
    ensures !ExtContact(Some(NewChild("contact", params, ord)))
  {
    var attrs := AttrsOf(params, ord(params), false);
    assert Visits(ord(params), params);
    AttrNames(params, ord(params), false);
    AttrMapKeys(attrs);
    assert AttrMap(attrs).Keys <= params.Keys;
    SubsetSize(AttrMap(attrs).Keys, params.Keys);
    assert |{"callsign", "endpoint"}| <= 2;
  }

  lemma {:induction false} SubsetSize(a: set<string>, b: set<string>)
    requires a <= b
    ensures |a| <= |b|
  {
    if a != {} {
      var x :| x in a;
      SubsetSize(a - {x}, b - {x});
    }
  }

  /** Each typed field is read back from the child written for it. */
  lemma {:induction false} FieldsReadBack(d: Detail, ord: Order, parse: string -> Option<int>)
    requires IsOrder(ord) && ReadsFixed(parse)
    ensures d.group.Some? ==> GroupOf(Some(NewChild("__group", ParamsFor(d, "__group").value, ord))) == d.group
    ensures d.precision.Some? ==>
              PrecisionOf(Some(NewChild("precisionlocation", ParamsFor(d, "precisionlocation").value, ord)))
                  == d.precision
    ensures d.takv.Some? ==> TakvOf(Some(NewChild("takv", ParamsFor(d, "takv").value, ord))) == d.takv
  {
    if d.group.Some? {
      var p := ParamsFor(d, "__group").value;
      ChildAttr("__group", p, ord, "name");
      ChildAttr("__group", p, ord, "role");
    }
    if d.precision.Some? {
      var p := ParamsFor(d, "precisionlocation").value;
      ChildAttr("precisionlocation", p, ord, "altsrc");
      ChildAttr("precisionlocation", p, ord, "geopointsrc");
    }
    if d.takv.Some? {
      var p := ParamsFor(d, "takv").value;
      ChildAttr("takv", p, ord, "device");
      ChildAttr("takv", p, ord, "platform");
      ChildAttr("takv", p, ord, "os");
      ChildAttr("takv", p, ord, "version");
    }
  }

  lemma {:induction false} StatusReadsBack(d: Detail, ord: Order)
    requires IsOrder(ord) && d.status.Some?
    ensures StatusOf(Some(NewChild("status", ParamsFor(d, "status").value, ord))) == d.status
  {
    ChildAttr("status", ParamsFor(d, "status").value, ord, "battery");
    AtoiItoa(d.status.value.battery);
  }

  lemma {:induction false} TrackReadsBack(d: Detail, ord: Order, parse: string -> Option<int>)
    requires IsOrder(ord) && ReadsFixed(parse) && d.track.Some?
    ensures TrackOf(Some(NewChild("track", ParamsFor(d, "track").value, ord)), parse) == d.track
  {
    var p := ParamsFor(d, "track").value;
    ChildAttr("track", p, ord, "speed");
    ChildAttr("track", p, ord, "course");
    GetFloatFormat(d.track.value.speed, parse);
    GetFloatFormat(d.track.value.course, parse);
  }

  lemma {:induction false} ContactReadsBack(d: Detail, ord: Order)
    requires IsOrder(ord) && d.contact.Some? && d.contact.value.callsign != ""
    ensures ContactOf(Some(NewChild("contact", ParamsFor(d, "contact").value, ord))) == d.contact
  {
    var p := ParamsFor(d, "contact").value;
    ChildAttr("contact", p, ord, "callsign");
    ChildAttr("contact", p, ord, "endpoint");
    TypedContactIsShort(p, ord);
  }

  /** The typed fields after the round trip, for an xmlDetail without typed tags. */
  lemma {:induction false} TypedRoundTrip(d: Detail, ord: Order, parse: string -> Option<int>)
    requires IsOrder(ord) && ReadsFixed(parse)
    requires forall n <- d.xml.nodes :: n.name !in REMOVED
    requires d.contact.Some? ==> d.contact.value.callsign != ""
    requires First(d.xml.nodes, "contact").Some? ==> d.contact.None? && ExtContact(First(d.xml.nodes, "contact"))
    ensures var root := Some(DetailElement([], "", MergedNodes(d, ord)).AsNode());
            TypedFields(root, d.xml, parse) == d
  {
    forall t | t in REMOVED ensures First(d.xml.nodes, t).None? {
      FirstIs(d.xml.nodes, t);
    }
    StringsRoundTrip(d, ord, parse);
    NumbersRoundTrip(d, ord, parse);
    MergedFirst(d, ord, "contact");
    if d.contact.Some? {
      ContactReadsBack(d, ord);
    }
  }

  lemma {:induction false} StringsRoundTrip(d: Detail, ord: Order, parse: string -> Option<int>)
    requires IsOrder(ord) && ReadsFixed(parse) && forall t <- REMOVED :: First(d.xml.nodes, t).None?
    ensures var nodes := MergedNodes(d, ord);
            && GroupOf(First(nodes, "__group")) == d.group && TakvOf(First(nodes, "takv")) == d.takv
            && PrecisionOf(First(nodes, "precisionlocation")) == d.precision
  {
    MergedFirst(d, ord, "__group");
    MergedFirst(d, ord, "precisionlocation");
    MergedFirst(d, ord, "takv");
    FieldsReadBack(d, ord, parse);
  }

  lemma {:induction false} NumbersRoundTrip(d: Detail, ord: Order, parse: string -> Option<int>)
    requires IsOrder(ord) && ReadsFixed(parse) && forall t <- REMOVED :: First(d.xml.nodes, t).None?
    ensures var nodes := MergedNodes(d, ord);
            StatusOf(First(nodes, "status")) == d.status && TrackOf(First(nodes, "track"), parse) == d.track
  {
    MergedFirst(d, ord, "status");
    MergedFirst(d, ord, "track");
    if d.status.Some? {
      StatusReadsBack(d, ord);
    }
    if d.track.Some? {
      TrackReadsBack(d, ord, parse);
    }
  }

  lemma {:induction false} NormalFormRoundTrips(c: CotEvent, ord: Order, parse: string -> Option<int>)
    requires IsOrder(ord) && ReadsFixed(parse) && NormalForm(c)
    ensures RoundTrip(c, ord, parse) == c
  {
    HeaderRoundTrips(c, ord, parse);
    DetailRoundTrips(c, ord, parse);
  }

  lemma {:induction false} HeaderRoundTrips(c: CotEvent, ord: Order, parse: string -> Option<int>)
    requires IsOrder(ord) && c.caveat == "" && c.releaseableTo == ""
    ensures RoundTrip(c, ord, parse) == c.(detail := RoundTrip(c, ord, parse).detail)
  {
    MillisKept(c.sendTime);
    MillisKept(c.startTime);
    MillisKept(c.staleTime);
  }

  lemma {:induction false} DetailRoundTrips(c: CotEvent, ord: Order, parse: string -> Option<int>)
    requires IsOrder(ord) && ReadsFixed(parse) && NormalForm(c)
    ensures RoundTrip(c, ord, parse).detail == c.detail
  {
    var d := c.detail.value;
    TypedRoundTrip(d, ord, parse);
    var nodes := MergedNodes(d, ord);
    var ext := ExtContact(First(nodes, "contact"));
    MergedFirst(d, ord, "contact");
    if d.contact.Some? {
      ContactReadsBack(d, ord);
    }
    FirstIs(d.xml.nodes, "contact");
    MergedWithout(d, ord, TagsToRemove(ext));
    WithoutNone(d.xml.nodes, TagsToRemove(ext));
    assert d.xml == XmlText("", Without(nodes, TagsToRemove(ext)));
  }

  lemma {:induction false} RoundTripIsNormalForm(c: CotEvent, ord: Order, parse: string -> Option<int>)
    requires IsOrder(ord) && RoundTrip(c, ord, parse) == c
    ensures NormalForm(c)
  {
    assert c.detail.Some?;
    var d := c.detail.value;
    var nodes := MergedNodes(d, ord);
    var ext := ExtContact(First(nodes, "contact"));
    assert d.xml == XmlText("", Without(nodes, TagsToRemove(ext)));
    WithoutNone(nodes, TagsToRemove(ext));
    MergedFirst(d, ord, "contact");
    FirstIs(d.xml.nodes, "contact");
    assert d.contact == ContactOf(First(nodes, "contact"));
  }

  /** XML and back is the identity exactly on the messages in normal form,
      whatever the order in which the attribute maps are visited. */
  lemma {:induction false} RoundTripExactlyWhen(c: CotEvent, ord: Order, parse: string -> Option<int>)
    requires IsOrder(ord) && ReadsFixed(parse)
    ensures RoundTrip(c, ord, parse) == c <==> NormalForm(c)
  {
    if NormalForm(c) {
      NormalFormRoundTrips(c, ord, parse);
    }
    if RoundTrip(c, ord, parse) == c {
      RoundTripIsNormalForm(c, ord, parse);
    }
  }

  // ---- sender rule 1 ----

  function Size(n: Node): nat {
    1 + Sizes(n.nodes)
  }

  function Sizes(nodes: seq<Node>): nat {
    if nodes == [] then 0 else Size(nodes[0]) + Sizes(nodes[1..])
  }

  lemma {:induction false} SizeOfChild(nodes: seq<Node>, n: Node)
    requires n in nodes
    ensures Size(n) <= Sizes(nodes)
  {
    if n != nodes[0] {
      SizeOfChild(nodes[1..], n);
    }
  }

  lemma {:induction false} NotItsOwnChild(n: Node)
    ensures n !in n.nodes
  {
    if n in n.nodes {
      SizeOfChild(n.nodes, n);
    }
  }

  /** The residual tree is the original children, in order, without the typed
      elements (and without the contacts, unless the first has three different
      attributes or more), exactly when the <detail> tag has no attributes. */
  lemma {:induction false} ResidualExactlyWhen(ev: Event, parse: string -> Option<int>)
    requires ev.detail.Some?
    ensures var d := ev.detail.value; var m := ProtoSpec(ev, parse);
            var kept := Without(d.nodes, TagsToRemove(ExtContact(First(d.nodes, "contact"))));
            && m.detail.Some? && m.detail.value.attrs == [] && m.detail.value.content == ""
            && m.event.detail.value.xml == XmlText("", m.detail.value.nodes)
            && (m.detail.value.nodes == kept <==> d.attrs == [])
            && (d.attrs != [] ==> m.detail.value.nodes == [d.AsNode()])
  {
    var d := ev.detail.value;
    var tags := TagsToRemove(ExtContact(First(d.nodes, "contact")));
    var whole := d.AsNode();
    WithoutNone(d.nodes, tags);
    WithoutNone([whole], tags);
    NotItsOwnChild(whole);
    assert whole !in Without(d.nodes, tags) && whole in [whole];
  }

  /** The accessors of a converted message give the attributes of the event's
      first <contact> and <__group>. The one exception: under a <detail> tag with
      attributes, a contact that was left in xmlDetail is not found there. */
  lemma {:induction false} AccessorsAgree(ev: Event, parse: string -> Option<int>)
    ensures var m := ProtoSpec(ev, parse); var root := DetailNode(ev);
            var contact := GetFirst(root, "contact"); var group := GetFirst(root, "__group");
            var lost := ev.detail.Some? && ev.detail.value.attrs != [] && ExtContact(contact);
            && GetCallsign(m) == (if lost then "" else GetAttr(contact, "callsign"))
            && GetEndpoint(m) == (if lost then "" else GetAttr(contact, "endpoint"))
            && GetTeam(m) == GetAttr(group, "name")
            && GetRole(m) == GetAttr(group, "role")
  {
    if ev.detail.Some? {
      var d := ev.detail.value;
      var tags := TagsToRemove(ExtContact(First(d.nodes, "contact")));
      FirstWithout(Reparsed(d).nodes, tags, "contact");
      FirstWithout(Reparsed(d).nodes, tags, "__group");
      if d.attrs != [] {
        FirstIs([d.AsNode()], "contact");
      }
    }
  }
}
