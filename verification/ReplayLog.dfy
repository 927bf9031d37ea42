/** The message log: records appended by the server (logMessage in
    cmd/goatak_server/processors.go) and read by cmd/takreplay/main.go. */
module ReplayLog {
  import opened Wrappers
  import opened ByteStream
  import Filter

  /** What readFile looks at in a decoded TakMessage; `xmlOk` says whether its
      xmlDetail parses. */
  datatype Msg = Msg(uid: string, typ: string, xmlOk: bool, id: nat)

  /** proto.Unmarshal and the Process method of the chosen dumper. */
  datatype Env = Env(decode: seq<byte> -> Option<Msg>, accepts: Msg -> bool)

  /** The error readFile returns; EndOfFile is io.EOF. */
  datatype Outcome = EndOfFile | Truncated | BadProto | BadXml | DumperError

  /** A record: two length bytes, lowest first, and the data. byte(l / 256)
      keeps the low eight bits only. */
  function Record(d: seq<byte>): seq<byte> {
    var l := |d| % 0x1_0000_0000;
    [(l % 256) as byte, (l / 256 % 256) as byte] + d
  }

  /** The length that readFile takes from the two length bytes. */
  function LengthOf(lo: byte, hi: byte): nat {
    lo as int + hi as int * 256
  }

  /** readFile finds the length that was written exactly for data under 65536 bytes. */
  lemma {:induction false} LengthExactlyWhen(d: seq<byte>)
    ensures LengthOf(Record(d)[0], Record(d)[1]) == |d| % 0x1_0000
    ensures LengthOf(Record(d)[0], Record(d)[1]) == |d| <==> |d| < 0x1_0000
  {
    var l, n := |d| % 0x1_0000_0000, |d| / 0x1_0000_0000;
    var q, r := l / 256, l % 256;
    var a, b := q / 256, q % 256;
    assert l == 65536 * a + (256 * b + r);
    Remainder(|d|, a + 65536 * n, 256 * b + r);
  }

  lemma {:induction false} Remainder(x: nat, a: nat, r: nat)
    requires x == 65536 * a + r && r < 65536
    ensures x % 65536 == r && (x == r <==> x < 65536)
  {
  }

  class LogFile {
    var contents: seq<byte>

    constructor ()
      ensures contents == []
    {
      contents := [];
    }

    method LogMessage(d: seq<byte>)
      modifies this
      ensures contents == old(contents) + Record(d)
    {
      var l := |d| % 0x1_0000_0000;
      contents := contents + [(l % 256) as byte, (l / 256 % 256) as byte];
      contents := contents + d;
    }
  }

  predicate Passes(m: Msg, uid: string, typ: string) {
    (uid == "" || m.uid == uid) && (typ == "" || Filter.MatchPattern(m.typ, typ))
  }

  datatype RecordRead = Data(bytes: seq<byte>, next: nat) | Stop(out: Outcome)

  /** The record at position `from`, or the error that ends the file there. */
  function RecordSpec(s: seq<byte>, from: nat): (r: RecordRead)
    requires from <= |s|
    ensures r.Data? ==> from < r.next <= |s|
  {
    if from == |s| then Stop(EndOfFile)
    else if from + 2 > |s| then Stop(Truncated)
    else
      var end := from + 2 + LengthOf(s[from], s[from + 1]);
      if end <= |s| then Data(s[from + 2..end], end)
      else Stop(if from + 2 == |s| then EndOfFile else Truncated)
  }

  /** What readFile hands to the dumper from position `from` on, and how it ends. */
  function ReadFileSpec(s: seq<byte>, from: nat, uid: string, typ: string, env: Env): (seq<Msg>, Outcome)
    requires from <= |s|
    decreases |s| - from
  {
    var rec := RecordSpec(s, from);
    if rec.Stop? then ([], rec.out)
    else
      var m := env.decode(rec.bytes);
      if m.None? then ([], BadProto)
      else if !Passes(m.value, uid, typ) then ReadFileSpec(s, rec.next, uid, typ, env)
      else if !m.value.xmlOk then ([], BadXml)
      else if !env.accepts(m.value) then ([m.value], DumperError)
      else
        var (rest, out) := ReadFileSpec(s, rec.next, uid, typ, env);
        ([m.value] + rest, out)
  }

  class Dumper {
    var processed: seq<Msg>

    constructor ()
      ensures processed == []
    {
      processed := [];
    }

    method Process(m: Msg, env: Env) returns (ok: bool)
      modifies this
      ensures processed == old(processed) + [m] && ok == env.accepts(m)
    {
      processed := processed + [m];
      ok := env.accepts(m);
    }
  }

  method ReadRecord(f: Reader<byte>) returns (res: RecordRead)
    requires f.Valid()
    modifies f
    ensures f.Valid() && res == RecordSpec(f.data, old(f.pos))
    ensures res.Data? ==> f.pos == res.next
  {
    var lenBuf := f.ReadFull(2);
    if lenBuf.NothingLeft? { return Stop(EndOfFile); }
    if lenBuf.TooLittle? { return Stop(Truncated); }
    var n := LengthOf(lenBuf.bytes[0], lenBuf.bytes[1]);
    var buf := f.ReadFull(n);
    if buf.NothingLeft? { return Stop(EndOfFile); }
    if buf.TooLittle? { return Stop(Truncated); }
    return Data(buf.bytes, f.pos);
  }

  method ReadFile(f: Reader<byte>, uid: string, typ: string, dmp: Dumper, env: Env) returns (out: Outcome)
    requires f.Valid()
    modifies f, dmp
    ensures f.Valid()
    ensures var (msgs, end) := ReadFileSpec(f.data, old(f.pos), uid, typ, env);
            dmp.processed == old(dmp.processed) + msgs && out == end
  {
    while true
      invariant f.Valid()
      invariant old(dmp.processed) + ReadFileSpec(f.data, old(f.pos), uid, typ, env).0
             == dmp.processed + ReadFileSpec(f.data, f.pos, uid, typ, env).0
      invariant ReadFileSpec(f.data, old(f.pos), uid, typ, env).1 == ReadFileSpec(f.data, f.pos, uid, typ, env).1
      decreases |f.data| - f.pos
    {
      var rec := ReadRecord(f);
      if rec.Stop? { return rec.out; }
      var m := env.decode(rec.bytes);
      if m.None? { return BadProto; }
      if uid != "" && m.value.uid != uid { continue; }
      if typ != "" && !Filter.MatchPattern(m.value.typ, typ) { continue; }
      if !m.value.xmlOk { return BadXml; }
      ghost var before := dmp.processed;
      var ok := dmp.Process(m.value, env);
      if !ok { return DumperError; }
      Regroup(before, m.value, ReadFileSpec(f.data, f.pos, uid, typ, env).0);
    }
  }

  lemma {:induction false} Regroup(a: seq<Msg>, m: Msg, b: seq<Msg>)
    ensures a + ([m] + b) == (a + [m]) + b
  {
  }

  // ---- reading back what was logged ----

  /** A message with the bytes it was marshalled to. */
  datatype Entry = Entry(m: Msg, d: seq<byte>)

  function LogOf(entries: seq<Entry>): seq<byte> {
    if entries == [] then [] else Record(entries[0].d) + LogOf(entries[1..])
  }

  /** Those of the first k entries that pass the filters, in order. */
  function Passing(entries: seq<Entry>, k: nat, uid: string, typ: string): seq<Msg>
    requires k <= |entries|
  {
    if k == 0 then []
    else IfPasses(entries[0].m, uid, typ) + Passing(entries[1..], k - 1, uid, typ)
  }

  /** The number of records wholly in the first n bytes of the log. */
  function Complete(entries: seq<Entry>, n: nat): (k: nat)
    ensures k <= |entries|
  {
    if entries == [] || n < |Record(entries[0].d)| then 0
    else 1 + Complete(entries[1..], n - |Record(entries[0].d)|)
  }

  /** How reading the first n bytes of the log ends. A record cut right after its
      length bytes is reported as a plain end of file, like a clean end. */
  function EndAfter(entries: seq<Entry>, n: nat): Outcome {
    if entries == [] || n == 0 then EndOfFile
    else if n >= |Record(entries[0].d)| then EndAfter(entries[1..], n - |Record(entries[0].d)|)
    else if n == 2 then EndOfFile
    else Truncated
  }

  /** Every record is under 65536 bytes and decodes to its message; those that
      pass the filters parse and suit the dumper. */
  ghost predicate Readable(entries: seq<Entry>, uid: string, typ: string, env: Env) {
    entries == [] || (ReadableEntry(entries[0], uid, typ, env) && Readable(entries[1..], uid, typ, env))
  }

  ghost predicate ReadableEntry(e: Entry, uid: string, typ: string, env: Env) {
    |e.d| < 0x1_0000 && env.decode(e.d) == Some(e.m) && (Passes(e.m, uid, typ) ==> e.m.xmlOk && env.accepts(e.m))
  }

  /** One whole record at position `from`. */
  lemma {:induction false} RecordReads(s: seq<byte>, from: nat, d: seq<byte>)
    requires from <= |s| && |d| < 0x1_0000 && Agrees(s, from, Record(d)) && from + |Record(d)| <= |s|
    ensures from + 2 + LengthOf(s[from], s[from + 1]) == from + |Record(d)|
    ensures s[from + 2..from + |Record(d)|] == d
  {
    LengthExactlyWhen(d);
    assert s[from + 0] == Record(d)[0] && s[from + 1] == Record(d)[1];
    forall k | 0 <= k < |d| ensures s[from + 2 + k] == d[k] {
      assert Record(d)[2 + k] == d[k];
      assert s[from + (2 + k)] == Record(d)[2 + k];
    }
  }

  /** A record cut short ends the file, with no message. */
  lemma {:induction false} PartialRecordReads(s: seq<byte>, from: nat, d: seq<byte>, uid: string, typ: string, env: Env)
    requires from <= |s| && |d| < 0x1_0000 && Agrees(s, from, Record(d)) && from + |Record(d)| > |s|
    ensures ReadFileSpec(s, from, uid, typ, env).0 == []
    ensures ReadFileSpec(s, from, uid, typ, env).1
         == if |s| - from == 0 || |s| - from == 2 then EndOfFile else Truncated
  {
    LengthExactlyWhen(d);
    if from + 2 <= |s| {
      assert s[from + 0] == Record(d)[0] && s[from + 1] == Record(d)[1];
    }
  }

  lemma {:induction false} ReadStep(s: seq<byte>, from: nat, next: nat, e: Entry, uid: string, typ: string, env: Env)
    requires ReadableEntry(e, uid, typ, env)
    requires Agrees(s, from, Record(e.d)) && next == from + |Record(e.d)| <= |s|
    ensures ReadFileSpec(s, from, uid, typ, env).0 == IfPasses(e.m, uid, typ) + ReadFileSpec(s, next, uid, typ, env).0
    ensures ReadFileSpec(s, from, uid, typ, env).1 == ReadFileSpec(s, next, uid, typ, env).1
  {
    RecordReads(s, from, e.d);
  }

  /** The messages of the records wholly in the first n bytes that pass the filters. */
  function WholeRecords(entries: seq<Entry>, n: nat, uid: string, typ: string): seq<Msg> {
    if entries == [] || n < |Record(entries[0].d)| then []
    else IfPasses(entries[0].m, uid, typ) + WholeRecords(entries[1..], n - |Record(entries[0].d)|, uid, typ)
  }

  lemma {:induction false} LogReads(s: seq<byte>, from: nat, entries: seq<Entry>, uid: string, typ: string, env: Env)
    requires Readable(entries, uid, typ, env) && from <= |s|
    requires Agrees(s, from, LogOf(entries)) && |s| <= from + |LogOf(entries)|
    ensures ReadFileSpec(s, from, uid, typ, env).0 == WholeRecords(entries, |s| - from, uid, typ)
    ensures ReadFileSpec(s, from, uid, typ, env).1 == EndAfter(entries, |s| - from)
    decreases |entries|
  {
    if entries == [] {
      assert from == |s|;
    } else {
      var next := from + |Record(entries[0].d)|;
      if next <= |s| {
        assert ReadFileSpec(s, from, uid, typ, env).0
               == IfPasses(entries[0].m, uid, typ) + ReadFileSpec(s, next, uid, typ, env).0
            && ReadFileSpec(s, from, uid, typ, env).1 == ReadFileSpec(s, next, uid, typ, env).1 by {
          LogParts(s, from, entries);
          ReadStep(s, from, next, entries[0], uid, typ, env);
        }
        assert ReadFileSpec(s, next, uid, typ, env).0 == WholeRecords(entries[1..], |s| - next, uid, typ)
            && ReadFileSpec(s, next, uid, typ, env).1 == EndAfter(entries[1..], |s| - next) by {
          LogParts(s, from, entries);
          LogReads(s, next, entries[1..], uid, typ, env);
        }
        MoreRecords(entries, |s| - from, |s| - next, uid, typ);
      } else {
        LogParts(s, from, entries);
        PartialRecordReads(s, from, entries[0].d, uid, typ, env);
      }
    }
  }

  lemma {:induction false} MoreRecords(entries: seq<Entry>, n: nat, m: nat, uid: string, typ: string)
    requires entries != [] && n == |Record(entries[0].d)| + m
    ensures WholeRecords(entries, n, uid, typ)
            == IfPasses(entries[0].m, uid, typ) + WholeRecords(entries[1..], m, uid, typ)
    ensures EndAfter(entries, n) == EndAfter(entries[1..], m)
  {
  }

  lemma {:induction false} WholeRecordsPass(entries: seq<Entry>, n: nat, uid: string, typ: string)
    ensures WholeRecords(entries, n, uid, typ) == Passing(entries, Complete(entries, n), uid, typ)
  {
    if entries != [] && n >= |Record(entries[0].d)| {
      WholeRecordsPass(entries[1..], n - |Record(entries[0].d)|, uid, typ);
    }
  }

  lemma {:induction false} LogParts(s: seq<byte>, from: nat, entries: seq<Entry>)
    requires entries != [] && Agrees(s, from, LogOf(entries))
    ensures Agrees(s, from, Record(entries[0].d)) && Agrees(s, from + |Record(entries[0].d)|, LogOf(entries[1..]))
    ensures |LogOf(entries)| == |Record(entries[0].d)| + |LogOf(entries[1..])|
  {
    AgreesConcat(s, from, Record(entries[0].d), LogOf(entries[1..]));
  }

  function IfPasses(m: Msg, uid: string, typ: string): seq<Msg> {
    if Passes(m, uid, typ) then [m] else []
  }

  /** Replaying a log processes exactly the records that pass the filters, in
      order; a truncated log yields its complete records first. */
  lemma {:induction false} ReplayReadsBack(s: seq<byte>, entries: seq<Entry>, uid: string, typ: string, env: Env)
    requires Readable(entries, uid, typ, env) && s <= LogOf(entries)
    ensures ReadFileSpec(s, 0, uid, typ, env).0 == Passing(entries, Complete(entries, |s|), uid, typ)
    ensures ReadFileSpec(s, 0, uid, typ, env).1 == EndAfter(entries, |s|)
  {
    assert forall k :: 0 <= k < |s| ==> s[k] == LogOf(entries)[k];
    LogReads(s, 0, entries, uid, typ, env);
    WholeRecordsPass(entries, |s|, uid, typ);
  }

  lemma {:induction false} AllComplete(entries: seq<Entry>)
    ensures Complete(entries, |LogOf(entries)|) == |entries| && EndAfter(entries, |LogOf(entries)|) == EndOfFile
  {
    if entries != [] {
      AllComplete(entries[1..]);
    }
  }

  /** The whole log is replayed to a clean end of file. */
  lemma {:induction false} WholeLogReadsBack(entries: seq<Entry>, uid: string, typ: string, env: Env)
    requires Readable(entries, uid, typ, env)
    ensures ReadFileSpec(LogOf(entries), 0, uid, typ, env).0 == Passing(entries, |entries|, uid, typ)
    ensures ReadFileSpec(LogOf(entries), 0, uid, typ, env).1 == EndOfFile
  {
    ReplayReadsBack(LogOf(entries), entries, uid, typ, env);
    AllComplete(entries);
  }
}
