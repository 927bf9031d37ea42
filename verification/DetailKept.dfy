/** What the translation of an XML event to a message and back keeps of its detail
    (pkg/cot/converter.go): whole elements, or less than the element had. */
module DetailKept {
  import opened Wrappers
  import opened XmlNode
  import opened CotMessages
  import opened Converter
  import opened Numbers

  const TYPED: set<string> := REMOVED + {"contact"}

  /** The event that is sent on in XML. */
  ghost function Returned(ev: Event, ord: Order, parse: string -> Option<int>): Event
    requires IsOrder(ord)
  {
    EventSpec(ProtoSpec(ev, parse).event, ord)
  }

  /** Apart from the detail an event comes back as it was exactly if it is of version 2.0
      and its three times are whole milliseconds. */
  lemma {:induction false} HeaderKeptExactlyWhen(ev: Event, ord: Order, parse: string -> Option<int>)
    requires IsOrder(ord)
    ensures Returned(ev, ord, parse).detail.Some?
    ensures Returned(ev, ord, parse) == ev.(detail := Returned(ev, ord, parse).detail)
       <==> ev.version == "2.0" && WholeMillis(ev.time) && WholeMillis(ev.start) && WholeMillis(ev.stale)
  {
    TimeKeptExactlyWhen(ev.time);
    TimeKeptExactlyWhen(ev.start);
    TimeKeptExactlyWhen(ev.stale);
  }

  /** An event of another version, sent a microsecond after a full second, comes back as
      one of version 2.0, sent at the second. */
  lemma {:induction false} HeaderChanged(ev: Event, ord: Order, parse: string -> Option<int>)
    requires IsOrder(ord) && ev.version == "1.0" && ev.time == 1_704_067_200 * SECOND + 1000
    ensures Returned(ev, ord, parse).version == "2.0"
    ensures Returned(ev, ord, parse).time == 1_704_067_200 * SECOND
  {
  }

  /** Elements that say the same: attributes may be in another order. */
  ghost predicate SameElement(a: Node, b: Node) {
    a.name == b.name && a.content == b.content && a.nodes == b.nodes
        && forall k :: Value(a.attrs, k) == Value(b.attrs, k)
  }

  ghost predicate SameElements(a: seq<Node>, b: seq<Node>) {
    |a| == |b| && forall i :: 0 <= i < |a| ==> SameElement(a[i], b[i])
  }

  /** The detail is kept: its tag, its text, and of each name all the elements, in order. */
  ghost predicate Kept(before: DetailElement, after: DetailElement) {
    && after.attrs == before.attrs && after.content == before.content
    && forall t :: SameElements(All(before.nodes, t), All(after.nodes, t))
  }

  // ---- which details are kept ----

  /** The attributes that the typed field of a name has. */
  function Fields(tag: string): set<string> {
    if tag == "contact" then {"callsign", "endpoint"}
    else if tag == "status" then {"battery"}
    else if tag == "track" then {"course", "speed"}
    else if tag == "takv" then {"os", "version", "device", "platform"}
    else if tag == "__group" then {"name", "role"}
    else if tag == "precisionlocation" then {"altsrc", "geopointsrc"}
    else {}
  }

  /** An element that the typed field can hold whole: it has nothing but the field's
      attributes, its numbers are written as they are printed, and a contact has a
      callsign. */
  ghost predicate Holds(tag: string, n: Node, parse: string -> Option<int>) {
    && n.content == "" && n.nodes == []
    && (forall k :: k !in Fields(tag) ==> Value(n.attrs, k) == "")
    && (tag == "contact" ==> Value(n.attrs, "callsign") != "")
    && (tag == "status" ==> PrintedNumber(Value(n.attrs, "battery")))
    && (tag == "track" ==>
          PrintedFloat(Value(n.attrs, "course"), parse) && PrintedFloat(Value(n.attrs, "speed"), parse))
  }

  predicate PrintedNumber(s: string) {
    Atoi(s).Some? && Itoa(Atoi(s).value % 0x1_0000_0000) == s
  }

  predicate PrintedFloat(s: string, parse: string -> Option<int>) {
    FormatF(GetFloat(s, parse)) == s
  }

  /** A typed name has no elements, or one that its field can hold; or the elements are
      contacts that stay in xmlDetail. */
  ghost predicate TagKept(nodes: seq<Node>, tag: string, parse: string -> Option<int>) {
    var es := All(nodes, tag);
    || es == []
    || (tag == "contact" && ExtContact(First(nodes, tag)))
    || (|es| == 1 && Holds(tag, es[0], parse))
  }

  // ---- all the elements of a name ----

  lemma {:induction false} AllIs(nodes: seq<Node>, t: string)
    ensures All(nodes, t) == [] <==> First(nodes, t).None?
    ensures All(nodes, t) != [] ==> First(nodes, t) == Some(All(nodes, t)[0])
    ensures forall n <- All(nodes, t) :: n.name == t
  {
    if nodes != [] {
      AllIs(nodes[1..], t);
    }
  }

  lemma {:induction false} AllConcat(a: seq<Node>, b: seq<Node>, t: string)
    ensures All(a + b, t) == All(a, t) + All(b, t)
  {
    if a == [] {
      assert a + b == b;
    } else {
      assert (a + b)[1..] == a[1..] + b;
      AllConcat(a[1..], b, t);
    }
  }

  lemma {:induction false} AllChanged(nodes: seq<Node>, i: nat, n: Node, t: string)
    requires i < |nodes| && n.name == nodes[i].name && n.name != t
    ensures All(nodes[i := n], t) == All(nodes, t)
  {
    if i > 0 {
      AllChanged(nodes[1..], i - 1, n, t);
      assert nodes[i := n][1..] == nodes[1..][i - 1 := n];
    } else {
      assert nodes[i := n][1..] == nodes[1..];
    }
  }

  lemma {:induction false} AllWithout(nodes: seq<Node>, tags: set<string>, t: string)
    ensures All(Without(nodes, tags), t) == if t in tags then [] else All(nodes, t)
  {
    if nodes != [] {
      AllWithout(nodes[1..], tags, t);
      assert ([nodes[0]] + Without(nodes[1..], tags))[1..] == Without(nodes[1..], tags);
    }
  }

  lemma {:induction false} AllAddTag(nodes: seq<Node>, d: Detail, tag: string, ord: Order, t: string)
    requires IsOrder(ord) && (t == tag && ParamsFor(d, tag).Some? ==> All(nodes, t) == [])
    ensures All(AddTag(nodes, d, tag, ord), t)
         == if t == tag && ParamsFor(d, t).Some? then [NewChild(t, ParamsFor(d, t).value, ord)] else All(nodes, t)
  {
    if ParamsFor(d, tag).Some? {
      var params := ParamsFor(d, tag).value;
      var i := IndexOf(nodes, tag);
      FirstIs(nodes, tag);
      AllIs(nodes, tag);
      if i < |nodes| {
        AllChanged(nodes, i, nodes[i].(attrs := nodes[i].attrs + AttrsOf(params, ord(params), true)), t);
      } else {
        AllConcat(nodes, [NewChild(tag, params, ord)], t);
        assert All([NewChild(tag, params, ord)], t) == if t == tag then [NewChild(tag, params, ord)] else [];
      }
    }
  }

  /** After merging a typed name has the element of its field, if xmlDetail has none. */
  lemma {:induction false} AllMerged(d: Detail, ord: Order, t: string)
    requires IsOrder(ord) && (ParamsFor(d, t).Some? ==> All(d.xml.nodes, t) == [])
    ensures All(MergedNodes(d, ord), t)
         == if ParamsFor(d, t).Some? then [NewChild(t, ParamsFor(d, t).value, ord)] else All(d.xml.nodes, t)
  {
    var n1 := AddTag(d.xml.nodes, d, "contact", ord);
    var n2 := AddTag(n1, d, "status", ord);
    var n3 := AddTag(n2, d, "track", ord);
    var n4 := AddTag(n3, d, "takv", ord);
    var n5 := AddTag(n4, d, "__group", ord);
    AllAddTag(d.xml.nodes, d, "contact", ord, t);
    AllAddTag(n1, d, "status", ord, t);
    AllAddTag(n2, d, "track", ord, t);
    AllAddTag(n3, d, "takv", ord, t);
    AllAddTag(n4, d, "__group", ord, t);
    AllAddTag(n5, d, "precisionlocation", ord, t);
  }

  // ---- one element ----

  lemma {:induction false} SameAsNewChild(n: Node, tag: string, params: map<string, string>, ord: Order)
    requires IsOrder(ord) && n.name == tag
    ensures SameElement(n, NewChild(tag, params, ord))
       <==> n.content == "" && n.nodes == [] && forall k :: Value(n.attrs, k) == if k in params then params[k] else ""
  {
    forall k ensures Value(NewChild(tag, params, ord).attrs, k) == if k in params then params[k] else "" {
      NewChildAttr(tag, params, "", ord, k);
    }
  }

  /** The message that an event's detail makes, when its tag has no attributes. */
  ghost function DetailOf(d: DetailElement, parse: string -> Option<int>): Detail {
    var tags := TagsToRemove(ExtContact(First(d.nodes, "contact")));
    TypedFields(Some(d.AsNode()), XmlText("", Without(d.nodes, tags)), parse)
  }

  /** The values written are those of the element, but for how numbers are printed. */
  lemma {:induction false} FieldValues(d: DetailElement, parse: string -> Option<int>, tag: string, n: Node)
    requires tag in TYPED && First(d.nodes, tag) == Some(n) && ParamsFor(DetailOf(d, parse), tag).Some?
    ensures var params := ParamsFor(DetailOf(d, parse), tag).value;
            && params.Keys == Fields(tag)
            && (tag != "status" && tag != "track" ==> forall k <- params :: params[k] == Value(n.attrs, k))
            && (tag == "status" ==> Atoi(Value(n.attrs, "battery")).Some?
                                    && params["battery"] == Itoa(Atoi(Value(n.attrs, "battery")).value % 0x1_0000_0000))
            && (tag == "track" ==> forall k <- params :: params[k] == FormatF(GetFloat(Value(n.attrs, k), parse)))
  {
  }

  /** Which typed fields are written: those of elements that are there, but for contacts
      without a callsign or with many attributes, and for a status that is no number. */
  lemma {:induction false} FieldWritten(d: DetailElement, parse: string -> Option<int>, tag: string)
    requires tag in TYPED
    ensures ParamsFor(DetailOf(d, parse), tag).Some?
       <==> var n := First(d.nodes, tag);
            && n.Some?
            && (tag == "contact" ==> !ExtContact(n) && Value(n.value.attrs, "callsign") != "")
            && (tag == "status" ==> Atoi(Value(n.value.attrs, "battery")).Some?)
  {
  }

  /** An element is held by its field exactly if what is written for it says the same. */
  lemma {:induction false} FieldHolds(d: DetailElement, ord: Order, parse: string -> Option<int>, tag: string, n: Node)
    requires IsOrder(ord) && tag in TYPED && First(d.nodes, tag) == Some(n) && n.name == tag
    requires ParamsFor(DetailOf(d, parse), tag).Some?
    ensures Holds(tag, n, parse) <==> SameElement(n, NewChild(tag, ParamsFor(DetailOf(d, parse), tag).value, ord))
  {
    var params := ParamsFor(DetailOf(d, parse), tag).value;
    SameAsNewChild(n, tag, params, ord);
    FieldWritten(d, parse, tag);
    FieldValues(d, parse, tag, n);
    SameValues(tag, n, params, parse);
  }

  lemma {:induction false} SameValues(tag: string, n: Node, params: map<string, string>, parse: string -> Option<int>)
    requires params.Keys == Fields(tag) && (tag == "contact" ==> Value(n.attrs, "callsign") != "")
    requires tag != "status" && tag != "track" ==> forall k <- params :: params[k] == Value(n.attrs, k)
    requires tag == "status" ==> Atoi(Value(n.attrs, "battery")).Some?
                                 && params["battery"] == Itoa(Atoi(Value(n.attrs, "battery")).value % 0x1_0000_0000)
    requires tag == "track" ==> forall k <- params :: params[k] == FormatF(GetFloat(Value(n.attrs, k), parse))
    ensures Holds(tag, n, parse)
       <==> n.content == "" && n.nodes == [] && forall k :: Value(n.attrs, k) == if k in params then params[k] else ""
  {
    if tag == "status" {
      assert Fields(tag) == {"battery"};
    } else if tag == "track" {
      assert Fields(tag) == {"course", "speed"};
    }
  }

  /** All the elements of a name after the translation there and back. */
  lemma {:induction false} AllReturned(d: DetailElement, ord: Order, parse: string -> Option<int>, t: string)
    requires IsOrder(ord)
    ensures var m := DetailOf(d, parse);
            All(MergedNodes(m, ord), t)
            == if ParamsFor(m, t).Some? then [NewChild(t, ParamsFor(m, t).value, ord)]
               else if t in TagsToRemove(ExtContact(First(d.nodes, "contact"))) then [] else All(d.nodes, t)
  {
    var tags := TagsToRemove(ExtContact(First(d.nodes, "contact")));
    AllWithout(d.nodes, tags, t);
    if t in TYPED {
      FieldWritten(d, parse, t);
    }
    AllMerged(DetailOf(d, parse), ord, t);
  }

  /** The elements of a typed name come back the same exactly if there are none, or one
      that the field can hold, or contacts that stay in xmlDetail. */
  lemma {:induction false} TagKeptExactlyWhen(d: DetailElement, ord: Order, parse: string -> Option<int>, t: string)
    requires IsOrder(ord) && t in TYPED
    ensures SameElements(All(d.nodes, t), All(MergedNodes(DetailOf(d, parse), ord), t)) <==> TagKept(d.nodes, t, parse)
  {
    AllIs(d.nodes, t);
    AllReturned(d, ord, parse, t);
    FieldWritten(d, parse, t);
    if ParamsFor(DetailOf(d, parse), t).Some? {
      FieldHolds(d, ord, parse, t, First(d.nodes, t).value);
    }
  }

  lemma {:induction false} UntypedKept(d: DetailElement, ord: Order, parse: string -> Option<int>, t: string)
    requires IsOrder(ord) && t !in TYPED
    ensures SameElements(All(d.nodes, t), All(MergedNodes(DetailOf(d, parse), ord), t))
  {
    AllReturned(d, ord, parse, t);
  }

  /** The detail of an XML event comes back from a message exactly if its tag has no
      attributes and no text, and every typed name has one element at most, which its
      field can hold, or is that of contacts which stay in xmlDetail. */
  lemma {:induction false} KeptExactlyWhen(ev: Event, ord: Order, parse: string -> Option<int>)
    requires IsOrder(ord) && ev.detail.Some?
    ensures Returned(ev, ord, parse).detail.Some?
    ensures Kept(ev.detail.value, Returned(ev, ord, parse).detail.value)
       <==> && ev.detail.value.attrs == [] && ev.detail.value.content == ""
            && forall t <- TYPED :: TagKept(ev.detail.value.nodes, t, parse)
  {
    var d := ev.detail.value;
    var after := Returned(ev, ord, parse).detail.value;
    assert after.attrs == [] && after.content == "";
    if d.attrs == [] {
      assert after.nodes == MergedNodes(DetailOf(d, parse), ord);
      forall t
        ensures SameElements(All(d.nodes, t), All(after.nodes, t)) <==> t in TYPED ==> TagKept(d.nodes, t, parse)
      {
        if t in TYPED {
          TagKeptExactlyWhen(d, ord, parse, t);
        } else {
          UntypedKept(d, ord, parse, t);
        }
      }
    }
  }

  /** And the children of other names stay as they were, in order. */
  lemma {:induction false} OthersKept(ev: Event, ord: Order, parse: string -> Option<int>)
    requires IsOrder(ord) && ev.detail.Some? && ev.detail.value.attrs == []
    ensures Returned(ev, ord, parse).detail.Some?
    ensures Without(Returned(ev, ord, parse).detail.value.nodes, TYPED) == Without(ev.detail.value.nodes, TYPED)
  {
    var d := ev.detail.value;
    var tags := TagsToRemove(ExtContact(First(d.nodes, "contact")));
    MergedWithout(DetailOf(d, parse), ord, TYPED);
    WithoutTwice(d.nodes, tags, TYPED);
  }

  lemma {:induction false} WithoutTwice(nodes: seq<Node>, some: set<string>, all: set<string>)
    requires some <= all
    ensures Without(Without(nodes, some), all) == Without(nodes, all)
  {
    if nodes != [] {
      WithoutTwice(nodes[1..], some, all);
      assert ([nodes[0]] + Without(nodes[1..], some))[1..] == Without(nodes[1..], some);
    }
  }
}
