/** The frames of version 1 connections (pkg/cot/protoreader.go), down to
    bytes. A payload is the marshalled TakMessage. */
module ProtoFraming {
  import opened Wrappers
  import opened ByteStream

  const MAGIC: byte := 0xbf

  // ---- varints ----

  /** The unsigned varint of protocol buffers: 7 bits at a time, lowest first. */
  function Uvarint(x: nat): (v: seq<byte>)
    ensures 1 <= |v| <= x + 1
  {
    if x < 128 then [x as byte] else [(128 + x % 128) as byte] + Uvarint(x / 128)
  }

  lemma {:induction false} UvarintLength(x: nat)
    ensures |Uvarint(x)| <= 3 <==> x < 0x20_0000
    ensures |Uvarint(x)| <= 4 <==> x < 0x1000_0000
  {
    var y := x / 128;
    var z := y / 128;
    var w := z / 128;
    assert x >= 128 ==> |Uvarint(x)| == 1 + |Uvarint(y)|;
    assert y >= 128 ==> |Uvarint(y)| == 1 + |Uvarint(z)|;
    assert z >= 128 ==> |Uvarint(z)| == 1 + |Uvarint(w)|;
    assert w >= 128 ==> |Uvarint(w)| == 1 + |Uvarint(w / 128)|;
  }

  datatype VarintResult = Value(x: int) | VarintEof | VarintOverflow

  /** binary.ReadUvarint, after i of its bytes: the value of the remaining
      7-bit groups, and where the input is left. At most ten bytes; a tenth
      byte above 1 would not fit in 64 bits. */
  function UvarintSpec(s: seq<byte>, pos: nat, i: nat): (VarintResult, nat)
    requires pos <= |s|
    decreases |s| - pos
  {
    if i >= 10 then (VarintOverflow, pos)
    else if pos == |s| then (VarintEof, pos)
    else
      var b := s[pos] as int;
      if b < 128 then (if i == 9 && b > 1 then VarintOverflow else Value(b), pos + 1)
      else
        var (r, next) := UvarintSpec(s, pos + 1, i + 1);
        (if r.Value? then Value(b - 128 + 128 * r.x) else r, next)
  }

  function Pow128(i: nat): nat {
    if i == 0 then 1 else 128 * Pow128(i - 1)
  }

  /** The result for the whole varint, from x for its first i bytes and r for the rest. */
  function Shifted(x: int, i: nat, r: VarintResult): VarintResult {
    if r.Value? then Value(x + Pow128(i) * r.x) else r
  }

  lemma {:induction false} ShiftStep(x: int, i: nat, b: int, r: VarintResult)
    ensures Shifted(x, i, if r.Value? then Value(b + 128 * r.x) else r) == Shifted(x + Pow128(i) * b, i + 1, r)
  {
    if r.Value? {
      var p, y := Pow128(i), r.x;
      assert p * (b + 128 * y) == p * b + (128 * p) * y;
    }
  }

  method ReadUvarint(r: Reader<byte>) returns (res: VarintResult)
    requires r.Valid()
    modifies r
    ensures r.Valid()
    ensures (res, r.pos) == UvarintSpec(r.data, old(r.pos), 0)
  {
    var x: int, i, scale := 0, 0, 1;
    while i < 10
      invariant r.Valid() && i <= 10 && scale == Pow128(i)
      invariant var (rest, next) := UvarintSpec(r.data, r.pos, i);
                UvarintSpec(r.data, old(r.pos), 0) == (Shifted(x, i, rest), next)
    {
      var b := r.ReadByte();
      if b.None? { return VarintEof; }
      var n := b.value as int;
      if n < 128 {
        if i == 9 && n > 1 { return VarintOverflow; }
        return Value(x + scale * n);
      }
      ShiftStep(x, i, n - 128, UvarintSpec(r.data, r.pos, i + 1).0);
      x := x + scale * (n - 128);
      scale := 128 * scale;
      i := i + 1;
    }
    return VarintOverflow;
  }

  /** binary.PutUvarint(buf[at:], x). */
  method PutUvarint(buf: array<byte>, at: nat, x: nat) returns (n: nat)
    requires at + |Uvarint(x)| <= buf.Length
    modifies buf
    ensures n == |Uvarint(x)| && buf[at..at + n] == Uvarint(x)
    ensures forall k :: 0 <= k < at || at + n <= k < buf.Length ==> buf[k] == old(buf[k])
  {
    ghost var v := Uvarint(x);
    var y := x;
    n := 0;
    while y >= 128
      invariant n + |Uvarint(y)| == |v| && v[n..] == Uvarint(y)
      invariant forall k :: 0 <= k < n ==> buf[at + k] == v[k]
      invariant forall k :: 0 <= k < at || at + n <= k < buf.Length ==> buf[k] == old(buf[k])
    {
      assert v[n] == v[n..][0] && v[n + 1..] == v[n..][1..];
      buf[at + n] := (128 + y % 128) as byte;
      y := y / 128;
      n := n + 1;
    }
    assert v[n] == v[n..][0];
    buf[at + n] := y as byte;
    n := n + 1;
    assert buf[at..at + n] == v;
  }

  // ---- packets ----

  function Frame(payload: seq<byte>): seq<byte> {
    [MAGIC] + Uvarint(|payload|) + payload
  }

  /** What MakeProtoPacket returns: a frame and one zero byte more. */
  function Packet(payload: seq<byte>): seq<byte> {
    Frame(payload) + [0]
  }

  /** None is the panic of the final slice, which is past the capacity of the
      buffer for varints of four bytes and more. */
  method MakeProtoPacket(payload: seq<byte>) returns (res: Option<seq<byte>>)
    ensures res == if |payload| < 0x20_0000 then Some(Packet(payload)) else None
  {
    UvarintLength(|payload|);
    var buf := new byte[|payload| + 5](_ => 0);
    buf[0] := MAGIC;
    var n := PutUvarint(buf, 1, |payload|);
    assert buf[..1 + n] == [MAGIC] + Uvarint(|payload|) by {
      assert buf[..1 + n] == [buf[0]] + buf[1..1 + n];
    }
    ghost var head := buf[..1 + n];
    var i := Copy(buf, 1 + n, payload);
    assert buf[..1 + n] == head;
    if 1 + n + |payload| + 1 > buf.Length { return None; }
    assert buf[..1 + n + |payload| + 1] == buf[..1 + n] + buf[1 + n..1 + n + i] + [buf[1 + n + i]];
    assert payload[..i] == payload;
    return Some(buf[..1 + n + |payload| + 1]);
  }

  /** copy(buf[at:], data). */
  method Copy(buf: array<byte>, at: nat, data: seq<byte>) returns (n: nat)
    requires at <= buf.Length
    modifies buf
    ensures n == (if |data| <= buf.Length - at then |data| else buf.Length - at)
    ensures buf[at..at + n] == data[..n]
    ensures forall k :: 0 <= k < at || at + n <= k < buf.Length ==> buf[k] == old(buf[k])
  {
    n := 0;
    while n < |data| && at + n < buf.Length
      invariant n <= |data| && at + n <= buf.Length
      invariant forall k :: 0 <= k < n ==> buf[at + k] == data[k]
      invariant forall k :: 0 <= k < at || at + n <= k < buf.Length ==> buf[k] == old(buf[k])
    {
      buf[at + n] := data[n];
      n := n + 1;
    }
  }

  datatype ReadResult = Payload(data: seq<byte>) | NoMagic | BadLength(error: VarintResult) | ShortPayload
                      | AllocPanic // make of a declared length that cannot be allocated

  ghost predicate IsNextMagic(s: seq<byte>, i: nat, j: nat) {
    i <= j <= |s| && (j < |s| ==> s[j] == MAGIC) && forall k :: i <= k < j ==> s[k] != MAGIC
  }

  lemma {:induction false} NextMagicExists(s: seq<byte>, i: nat)
    requires i <= |s|
    ensures exists j :: IsNextMagic(s, i, j)
    decreases |s| - i
  {
    if i == |s| || s[i] == MAGIC {
      assert IsNextMagic(s, i, i);
    } else {
      NextMagicExists(s, i + 1);
      var j :| IsNextMagic(s, i + 1, j);
      assert IsNextMagic(s, i, j);
    }
  }

  ghost function NextMagic(s: seq<byte>, i: nat): (j: nat)
    requires i <= |s|
    ensures IsNextMagic(s, i, j)
  {
    NextMagicExists(s, i);
    var j :| IsNextMagic(s, i, j);
    j
  }

  lemma {:induction false} UvarintSpecMoves(s: seq<byte>, pos: nat, i: nat)
    requires pos <= |s|
    ensures var (r, next) := UvarintSpec(s, pos, i); pos <= next <= |s| && (r.Value? ==> r.x >= 0)
    decreases |s| - pos
  {
    if i < 10 && pos < |s| && s[pos] as int >= 128 {
      UvarintSpecMoves(s, pos + 1, i + 1);
    }
  }

  /** What one ReadProto at position `from` returns, and where it leaves the input. The
      buffer is made before the payload is read; `limit` is the longest that can be. */
  ghost function ReadSpec(s: seq<byte>, from: nat, limit: nat): (r: (ReadResult, nat))
    requires from <= |s|
    ensures from <= r.1 <= |s| && (r.0.Payload? ==> from < r.1)
  {
    var m := NextMagic(s, from);
    if m == |s| then (NoMagic, |s|)
    else
      UvarintSpecMoves(s, m + 1, 0);
      var (size, q) := UvarintSpec(s, m + 1, 0);
      if !size.Value? then (BadLength(size), q)
      else if size.x > limit then (AllocPanic, q)
      else if q + size.x > |s| then (ShortPayload, |s|)
      else (Payload(s[q..q + size.x]), q + size.x)
  }

  method ReadProto(r: Reader<byte>, limit: nat) returns (res: ReadResult)
    requires r.Valid()
    modifies r
    ensures r.Valid()
    ensures (res, r.pos) == ReadSpec(r.data, old(r.pos), limit)
  {
    while true
      invariant r.Valid() && old(r.pos) <= r.pos
      invariant forall k :: old(r.pos) <= k < r.pos ==> r.data[k] != MAGIC
      decreases |r.data| - r.pos
    {
      var b := r.ReadByte();
      if b.None? { return NoMagic; }
      if b.value == MAGIC { break; }
    }
    assert NextMagic(r.data, old(r.pos)) == r.pos - 1;
    UvarintSpecMoves(r.data, r.pos, 0);
    var size := ReadUvarint(r);
    if !size.Value? { return BadLength(size); }
    if size.x > limit { return AllocPanic; }
    var buf := r.ReadFull(size.x);
    if !buf.Full? { return ShortPayload; }
    return Payload(buf.bytes);
  }

  // ---- streams and their prefixes ----

  /** A varint reads back; cut short, it reads as the end of the input. */
  lemma {:induction false} UvarintReads(s: seq<byte>, pos: nat, i: nat, x: nat)
    requires pos <= |s| && i + |Uvarint(x)| <= 9 && Agrees(s, pos, Uvarint(x))
    ensures if pos + |Uvarint(x)| <= |s| then UvarintSpec(s, pos, i) == (Value(x), pos + |Uvarint(x)|)
            else UvarintSpec(s, pos, i).0 == VarintEof
    decreases x
  {
    if pos < |s| {
      assert s[pos + 0] == Uvarint(x)[0];
      if x >= 128 {
        AgreesConcat(s, pos, [(128 + x % 128) as byte], Uvarint(x / 128));
        UvarintReads(s, pos + 1, i + 1, x / 128);
      }
    }
  }

  /** ReadProto returns this payload and stops at `next`. */
  ghost predicate Returns(s: seq<byte>, from: nat, limit: nat, payload: seq<byte>, next: nat) {
    from <= |s| &&
    var r := ReadSpec(s, from, limit);
    r.0.Payload? && r.0.data == payload && r.1 == next
  }

  /** A frame after bytes that are not the magic byte is returned if all of it
      is there, and an error otherwise. */
  lemma {:induction false} FrameReads(s: seq<byte>, from: nat, limit: nat, gap: seq<byte>, payload: seq<byte>)
    requires from <= |s| && MAGIC !in gap && |payload| < 0x20_0000 && |payload| <= limit
    requires Agrees(s, from, gap) && Agrees(s, from + |gap|, Frame(payload))
    ensures var next := from + |gap| + |Frame(payload)|;
            if next <= |s| then Returns(s, from, limit, payload, next) else !ReadSpec(s, from, limit).0.Payload?
  {
    var m, v := from + |gap|, Uvarint(|payload|);
    UvarintLength(|payload|);
    forall k | from <= k < m && k < |s| ensures s[k] != MAGIC {
      assert s[from + (k - from)] == gap[k - from];
    }
    if m < |s| {
      AgreesConcat(s, m, [MAGIC] + v, payload);
      AgreesConcat(s, m, [MAGIC], v);
      assert s[m + 0] == [MAGIC][0];
      assert NextMagic(s, from) == m;
      UvarintReads(s, m + 1, 0, |payload|);
      var q := m + 1 + |v|;
      if q + |payload| <= |s| {
        assert s[q..q + |payload|] == payload;
      }
    } else {
      assert NextMagic(s, from) == |s|;
    }
  }

  /** A payload on a stream, after some bytes that are not the magic byte. */
  datatype Item = Item(gap: seq<byte>, payload: seq<byte>)

  ghost predicate Sendable(items: seq<Item>) {
    forall i :: 0 <= i < |items| ==> MAGIC !in items[i].gap && |items[i].payload| < 0x20_0000
  }

  function StreamOf(items: seq<Item>): seq<byte> {
    if items == [] then [] else items[0].gap + Packet(items[0].payload) + StreamOf(items[1..])
  }

  /** The number of frames that lie wholly in the first n bytes of the stream. */
  function Complete(items: seq<Item>, n: int): (k: nat)
    ensures k <= |items|
    decreases |items|
  {
    if items == [] then 0
    else
      var end := |items[0].gap| + |Frame(items[0].payload)|;
      if n < end then 0 else 1 + Complete(items[1..], n - end - 1)
  }

  /** Where frame i ends, as an offset into the stream. */
  function FrameEnd(items: seq<Item>, i: nat): nat
    requires i < |items|
  {
    |StreamOf(items[..i])| + |items[i].gap| + |Frame(items[i].payload)|
  }

  /** Complete counts exactly the frames that end within the first n bytes. */
  lemma {:induction false} CompleteExactly(items: seq<Item>, n: int, i: nat)
    requires i < |items|
    ensures i < Complete(items, n) <==> FrameEnd(items, i) <= n
    decreases i
  {
    var rest, m := items[1..], n - |items[0].gap| - |Packet(items[0].payload)|;
    if i > 0 {
      CompleteExactly(rest, m, i - 1);
      assert items[..i][1..] == rest[..i - 1];
      assert FrameEnd(items, i) == |items[0].gap| + |Packet(items[0].payload)| + FrameEnd(rest, i - 1);
    }
  }

  /** Calling ReadProto again and again from `from` returns the first k payloads
      of the items, in order, and then an error. */
  ghost predicate Yields(s: seq<byte>, from: nat, limit: nat, items: seq<Item>, k: nat)
    requires k <= |items|
    decreases k
  {
    if k == 0 then from <= |s| && !ReadSpec(s, from, limit).0.Payload?
    else exists next :: Returns(s, from, limit, items[0].payload, next) && Yields(s, next, limit, items[1..], k - 1)
  }

  lemma {:induction false} TextParts(s: seq<byte>, from: nat, lead: seq<byte>, item: Item, rest: seq<byte>)
    requires Agrees(s, from, lead + (item.gap + Packet(item.payload) + rest))
    ensures Agrees(s, from, lead + item.gap) && Agrees(s, from + |lead + item.gap|, Frame(item.payload))
    ensures Agrees(s, from + |lead + item.gap| + |Frame(item.payload)|, [0] + rest)
  {
    var f := Frame(item.payload);
    assert lead + (item.gap + Packet(item.payload) + rest) == (lead + item.gap) + (f + ([0] + rest));
    AgreesConcat(s, from, lead + item.gap, f + ([0] + rest));
    AgreesConcat(s, from + |lead + item.gap|, f, [0] + rest);
  }

  lemma {:induction false} PrefixYields(s: seq<byte>, from: nat, limit: nat, lead: seq<byte>, items: seq<Item>)
    requires limit >= 0x20_0000 && Sendable(items) && MAGIC !in lead && from <= |s|
    requires Agrees(s, from, lead + StreamOf(items)) && |s| <= from + |lead| + |StreamOf(items)|
    ensures Yields(s, from, limit, items, Complete(items, |s| - from - |lead|))
    decreases |items|
  {
    if items == [] {
      assert lead + StreamOf(items) == lead;
      NothingReads(s, from, limit, lead);
    } else {
      var item, rest := items[0], items[1..];
      assert lead + StreamOf(items) == lead + (item.gap + Packet(item.payload) + StreamOf(rest));
      var next := from + |lead + item.gap| + |Frame(item.payload)|;
      FirstReads(s, from, limit, lead, item, StreamOf(rest));
      if next <= |s| {
        PrefixYields(s, next, limit, [0], rest);
        assert Returns(s, from, limit, items[0].payload, next);
      }
    }
  }

  lemma {:induction false} NothingReads(s: seq<byte>, from: nat, limit: nat, lead: seq<byte>)
    requires MAGIC !in lead && from <= |s| <= from + |lead| && Agrees(s, from, lead)
    ensures !ReadSpec(s, from, limit).0.Payload?
  {
    forall j | from <= j < |s| ensures s[j] != MAGIC {
      assert s[from + (j - from)] == lead[j - from];
    }
    assert NextMagic(s, from) == |s|;
  }

  /** The first frame of a stream is read exactly if it is there to its end, and what
      follows it is at the place where it ends. */
  lemma {:induction false} FirstReads(s: seq<byte>, from: nat, limit: nat, lead: seq<byte>, item: Item, rest: seq<byte>)
    requires limit >= 0x20_0000 && MAGIC !in item.gap && |item.payload| < 0x20_0000 && MAGIC !in lead && from <= |s|
    requires Agrees(s, from, lead + (item.gap + Packet(item.payload) + rest))
    ensures var next := from + |lead + item.gap| + |Frame(item.payload)|;
            && (if next <= |s| then Returns(s, from, limit, item.payload, next)
                else !ReadSpec(s, from, limit).0.Payload?)
            && Agrees(s, next, [0] + rest)
  {
    TextParts(s, from, lead, item, rest);
    FrameReads(s, from, limit, lead + item.gap, item.payload);
  }

  lemma {:induction false} PrefixAgrees(s: seq<byte>, t: seq<byte>)
    requires s <= t
    ensures Agrees(s, 0, [] + t) && |[] + t| == |t|
  {
    assert [] + t == t;
    assert forall k :: 0 <= k < |s| ==> s[k] == t[k];
  }

  /** Any prefix of a stream yields exactly the payloads whose frames are wholly
      inside it, in order, and then an error. */
  lemma {:induction false} EveryPrefixYieldsItsFrames(items: seq<Item>, s: seq<byte>, limit: nat)
    requires limit >= 0x20_0000 && Sendable(items) && s <= StreamOf(items)
    ensures Yields(s, 0, limit, items, Complete(items, |s|))
  {
    var lead: seq<byte> := [];
    PrefixAgrees(s, StreamOf(items));
    PrefixYields(s, 0, limit, lead, items);
    assert |s| - 0 - |lead| == |s|;
  }

  lemma {:induction false} AllComplete(items: seq<Item>)
    ensures Complete(items, |StreamOf(items)|) == |items|
  {
    if items != [] {
      AllComplete(items[1..]);
    }
  }

  /** The whole stream yields every payload: what MakeProtoPacket wrote,
      ReadProto reads, on any machine that can allocate two megabytes. */
  lemma {:induction false} StreamYieldsAll(items: seq<Item>, limit: nat)
    requires limit >= 0x20_0000 && Sendable(items)
    ensures Yields(StreamOf(items), 0, limit, items, |items|)
  {
    AllComplete(items);
    EveryPrefixYieldsItsFrames(items, StreamOf(items), limit);
  }
}
