/** The XML reader of version 0 connections (pkg/cot/tagreader.go). A byte is a
    char below 256. */
module TagReader {
  import opened Wrappers
  import opened Strings
  import opened ByteStream

  const MAX_BUF_LEN: nat := 2048

  datatype Outcome =
    | Tag(name: string, data: string)
    | Eof
    | EofInBody(name: string, data: string)
    | BadXml
    | TooLong
    | ClosedTag
    | IndexPanic // tag[0] of an empty name

  predicate InCutset(c: char) {
    c == '<' || c == '>' || c == '/'
  }

  function TrimLeft(s: string): string {
    if s != "" && InCutset(s[0]) then TrimLeft(s[1..]) else s
  }

  function TrimTail(s: string): string {
    if s != "" && InCutset(s[|s| - 1]) then TrimTail(s[..|s| - 1]) else s
  }

  /** strings.Trim(s, "<>/"). */
  function Trim(s: string): string {
    TrimTail(TrimLeft(s))
  }

  function FirstWord(s: string): string {
    if s == "" || s[0] == ' ' then "" else [s[0]] + FirstWord(s[1..])
  }

  /** The tag name ReadTag takes from the text between '<' and '>'. */
  function NameOf(open: string): string {
    FirstWord(Trim(open))
  }

  function CloseOf(name: string): (close: string)
    ensures |close| == |name| + 3
  {
    "</" + name + ">"
  }

  // ---- naive search, and ReadTag in terms of it ----

  predicate OccursAt(s: string, pat: string, i: int) {
    0 <= i && i + |pat| <= |s| && s[i..i + |pat|] == pat
  }

  ghost predicate IsFirstAt(s: string, pat: string, from: nat, r: Option<nat>) {
    match r
    case Some(at) => at >= from && OccursAt(s, pat, at) && forall i :: from <= i < at ==> !OccursAt(s, pat, i)
    case None => forall i :: from <= i ==> !OccursAt(s, pat, i)
  }

  lemma {:induction false} FirstExists(s: string, pat: string, from: nat)
    requires from <= |s|
    ensures exists r :: IsFirstAt(s, pat, from, r)
    decreases |s| - from
  {
    if OccursAt(s, pat, from) {
      assert IsFirstAt(s, pat, from, Some(from));
    } else if from == |s| {
      assert IsFirstAt(s, pat, from, None);
    } else {
      FirstExists(s, pat, from + 1);
      var r :| IsFirstAt(s, pat, from + 1, r);
      assert IsFirstAt(s, pat, from, r);
    }
  }

  /** The first occurrence of pat at or after `from`. */
  ghost function Find(s: string, pat: string, from: nat): (r: Option<nat>)
    requires from <= |s|
    ensures IsFirstAt(s, pat, from, r)
  {
    FirstExists(s, pat, from);
    var r :| IsFirstAt(s, pat, from, r);
    r
  }

  ghost predicate IsNext(s: string, cs: set<char>, i: nat, j: nat) {
    i <= j <= |s| && (j < |s| ==> s[j] in cs) && forall k :: i <= k < j ==> s[k] !in cs
  }

  lemma {:induction false} NextExists(s: string, cs: set<char>, i: nat)
    requires i <= |s|
    ensures exists j :: IsNext(s, cs, i, j)
    decreases |s| - i
  {
    if i == |s| || s[i] in cs {
      assert IsNext(s, cs, i, i);
    } else {
      NextExists(s, cs, i + 1);
      var j :| IsNext(s, cs, i + 1, j);
      assert IsNext(s, cs, i, j);
    }
  }

  /** The first position at or after i that holds one of the chars, or the end. */
  ghost function Next(s: string, cs: set<char>, i: nat): (j: nat)
    requires i <= |s|
    ensures IsNext(s, cs, i, j)
  {
    NextExists(s, cs, i);
    var j :| IsNext(s, cs, i, j);
    j
  }

  ghost predicate IsNextOther(s: string, i: nat, j: nat) {
    i <= j <= |s| && (j < |s| ==> s[j] != '<') && forall k :: i <= k < j ==> s[k] == '<'
  }

  lemma {:induction false} NextOtherExists(s: string, i: nat)
    requires i <= |s|
    ensures exists j :: IsNextOther(s, i, j)
    decreases |s| - i
  {
    if i == |s| || s[i] != '<' {
      assert IsNextOther(s, i, i);
    } else {
      NextOtherExists(s, i + 1);
      var j :| IsNextOther(s, i + 1, j);
      assert IsNextOther(s, i, j);
    }
  }

  /** The first position at or after i that does not hold '<', or the end. */
  ghost function NextOther(s: string, i: nat): (j: nat)
    requires i <= |s|
    ensures IsNextOther(s, i, j)
  {
    NextOtherExists(s, i);
    var j :| IsNextOther(s, i, j);
    j
  }

  /** What one ReadTag at position `from` of the input returns, and where it
      leaves the input. p is the first '<', j the end of the opening tag. */
  ghost function ReadSpec(s: string, from: nat): (r: (Outcome, nat))
    requires from <= |s|
    ensures from <= r.1 <= |s| && (r.0.Tag? ==> from < r.1)
  {
    var p := Next(s, {'<'}, from);
    if p == |s| then (Eof, |s|)
    else
      var j := Next(s, {'<', '>'}, p + 1);
      if j - p > MAX_BUF_LEN then (TooLong, p + MAX_BUF_LEN + 1)
      else if j == |s| then (Eof, |s|)
      else if s[j] == '<' then (BadXml, j + 1)
      else AfterOpenSpec(s, p, j + 1)
  }

  /** What follows from the opening tag s[p..body]. */
  ghost function AfterOpenSpec(s: string, p: nat, body: nat): (r: (Outcome, nat))
    requires p < body <= |s|
    ensures body <= r.1 <= |s|
  {
    var open := s[p..body];
    var name := NameOf(open);
    if HasPrefix(open, "</") then (ClosedTag, body)
    else if name == "" then (IndexPanic, body)
    else if name[0] == '?' || HasSuffix(open, "/>") then (Tag(name, open), body)
    else BodySpec(s, p, body, name)
  }

  /** The rest of an ordinary element: everything through the first later
      closing tag, if that is at most MAX_BUF_LEN + 1 bytes in all. */
  ghost function BodySpec(s: string, p: nat, body: nat, name: string): (r: (Outcome, nat))
    requires p < body <= |s|
    ensures body <= r.1 <= |s|
  {
    var e := Find(s, CloseOf(name), body);
    if e.Some? && e.value + |name| + 3 - p <= MAX_BUF_LEN + 1 then
      (Tag(name, s[p..e.value + |name| + 3]), e.value + |name| + 3)
    else
      var start := if body >= p + MAX_BUF_LEN then body else p + MAX_BUF_LEN;
      if start < |s| && NextOther(s, start) < |s| then (TooLong, NextOther(s, start) + 1)
      else (EofInBody(name, s[p..]), |s|)
  }

  // ---- the delimiter automaton ----

  /** What `buf` holds after the body bytes t: the bytes since the last '<'
      (kept) or '>' (dropped). */
  function Tail(t: string): string
    decreases |t|
  {
    if t == "" then ""
    else
      var c := t[|t| - 1];
      if c == '<' then "<" else if c == '>' then "" else Tail(t[..|t| - 1]) + [c]
  }

  predicate NoAngles(s: string) {
    '<' !in s && '>' !in s
  }

  /** A closing tag without its '>'. */
  ghost predicate IsStem(stem: string) {
    && stem != ""
    && (forall i :: 0 <= i < |stem| ==> stem[i] != '>')
    && (forall i :: 0 <= i < |stem| ==> (stem[i] == '<' <==> i == 0))
  }

  /** The buffer equals the stem exactly when the body read so far ends in it. */
  lemma {:induction false} TailMatches(t: string, stem: string)
    requires IsStem(stem)
    ensures Tail(t) == stem <==> HasSuffix(t, stem)
    decreases |t|
  {
    if t != "" {
      var u, c, init := t[..|t| - 1], t[|t| - 1], stem[..|stem| - 1];
      assert stem == init + [stem[|stem| - 1]];
      assert HasSuffix(t, stem) <==> c == stem[|stem| - 1] && HasSuffix(u, init) by {
        if |stem| <= |t| {
          assert t[|t| - |stem|..] == u[|u| - |init|..] + [c];
        }
      }
      if |stem| > 1 {
        assert IsStem(init);
        TailMatches(u, init);
      }
    }
  }

  lemma {:induction false} StemOf(name: string)
    requires NoAngles(name)
    ensures IsStem("</" + name) && CloseOf(name) == ("</" + name) + ">"
  {
    var stem := "</" + name;
    forall i | 0 <= i < |stem| ensures stem[i] != '>' && (stem[i] == '<' <==> i == 0) {
      if i >= 2 {
        assert stem[i] == name[i - 2];
      }
    }
  }

  lemma {:induction false} FirstWordChars(s: string)
    ensures forall c | c in FirstWord(s) :: c in s
  {
    if s != "" && s[0] != ' ' {
      FirstWordChars(s[1..]);
    }
  }

  lemma {:induction false} TrimTailPrefix(s: string)
    ensures TrimTail(s) <= s
    ensures TrimTail(s) != "" ==> !InCutset(TrimTail(s)[|TrimTail(s)| - 1])
  {
    if s != "" && InCutset(s[|s| - 1]) {
      TrimTailPrefix(s[..|s| - 1]);
    }
  }

  lemma {:induction false} TrimLeftSuffix(s: string)
    ensures HasSuffix(s, TrimLeft(s))
    ensures TrimLeft(s) != "" ==> !InCutset(TrimLeft(s)[0])
  {
    if s != "" && InCutset(s[0]) {
      TrimLeftSuffix(s[1..]);
      var t := TrimLeft(s[1..]);
      assert s[|s| - |t|..] == s[1..][|s| - 1 - |t|..];
    }
  }

  /** Names of tags have no angle brackets. */
  lemma {:induction false} NameHasNoAngles(open: string)
    requires |open| >= 2 && open[0] == '<' && open[|open| - 1] == '>'
    requires NoAngles(open[1..|open| - 1])
    ensures NoAngles(NameOf(open))
  {
    var l := TrimLeft(open);
    var t := TrimTail(l);
    TrimLeftSuffix(open);
    TrimTailPrefix(l);
    FirstWordChars(t);
    forall i | 0 <= i < |t| ensures t[i] != '<' && t[i] != '>' {
      var k := |open| - |l| + i;
      assert t[i] == l[i] == open[k];
      assert 0 < k < |open| - 1 ==> open[k] == open[1..|open| - 1][k - 1];
    }
  }

  /** The first loop: skips to '<'. */
  method SkipText(r: Reader<char>) returns (found: bool)
    requires r.Valid()
    modifies r
    ensures r.Valid()
    ensures var p := Next(r.data, {'<'}, old(r.pos));
            found == (p < |r.data|) && r.pos == if found then p + 1 else p
  {
    while true
      invariant r.Valid() && old(r.pos) <= r.pos
      invariant forall k :: old(r.pos) <= k < r.pos ==> r.data[k] != '<'
      decreases |r.data| - r.pos
    {
      var b := r.ReadByte();
      if b.None? { return false; }
      if b.value == '<' { return true; }
    }
  }

  /** The second loop: the opening tag, or why there is none. */
  method ReadOpen(r: Reader<char>) returns (res: Outcome, buf: string)
    requires r.Valid() && r.pos > 0 && r.data[r.pos - 1] == '<'
    modifies r
    ensures r.Valid()
    ensures var s, p := r.data, old(r.pos) - 1;
            var j := Next(s, {'<', '>'}, p + 1);
            if j - p > MAX_BUF_LEN then res == TooLong && r.pos == p + MAX_BUF_LEN + 1
            else if j == |s| then res == Eof && r.pos == |s|
            else if s[j] == '<' then res == BadXml && r.pos == j + 1
            else res.Tag? && r.pos == j + 1 && buf == s[p..j + 1] && NoAngles(NameOf(buf))
  {
    ghost var s, p := r.data, r.pos - 1;
    buf := "<";
    assert s[p..p + 1] == [s[p]];
    while true
      invariant r.Valid() && p < r.pos
      invariant buf == s[p..r.pos]
      invariant forall k :: p + 1 <= k < r.pos ==> s[k] != '<' && s[k] != '>'
      invariant r.pos - p <= MAX_BUF_LEN
      decreases |s| - r.pos
    {
      var b := r.ReadByte();
      if b.None? { return Eof, buf; }
      buf := buf + [b.value];
      if b.value == '>' {
        NameHasNoAngles(buf);
        return Tag("", ""), buf;
      }
      if b.value == '<' { return BadXml, buf; }
      if |buf| > MAX_BUF_LEN { return TooLong, buf; }
    }
  }

  /** ReadTag refines the naive search. */
  method ReadTag(r: Reader<char>) returns (out: Outcome)
    requires r.Valid()
    modifies r
    ensures r.Valid()
    ensures (out, r.pos) == ReadSpec(r.data, old(r.pos))
  {
    ghost var s := r.data;
    var found := SkipText(r);
    if !found { return Eof; }
    ghost var p := r.pos - 1;
    var res, buf := ReadOpen(r);
    if !res.Tag? { return res; }
    out := AfterOpen(r, p, buf);
  }

  method AfterOpen(r: Reader<char>, ghost p: nat, buf: string) returns (out: Outcome)
    requires r.Valid() && p < r.pos && buf == r.data[p..r.pos] && NoAngles(NameOf(buf))
    modifies r
    ensures r.Valid()
    ensures (out, r.pos) == AfterOpenSpec(r.data, p, old(r.pos))
  {
    var tag := buf;
    var selfClosed := HasSuffix(tag, "/>");
    if HasPrefix(tag, "</") { return ClosedTag; }
    tag := FirstWord(Trim(tag));
    if tag == "" { return IndexPanic; }
    if tag[0] == '?' { return Tag(tag, buf); }
    if selfClosed { return Tag(tag, buf); }
    out := ReadBody(r, p, tag, buf);
  }

  /** Nothing in the body up to position i has ended the third loop. */
  ghost predicate Scanned(s: string, p: nat, body: nat, i: nat, tag: string) {
    && p < body <= i <= |s|
    && (forall e :: body <= e && e + |tag| + 3 <= i ==> !OccursAt(s, CloseOf(tag), e))
    && (forall k :: body <= k < i && k >= p + MAX_BUF_LEN ==> s[k] == '<')
  }

  /** The third loop, that looks for the end tag. */
  method ReadBody(r: Reader<char>, ghost p: nat, tag: string, open: string) returns (out: Outcome)
    requires r.Valid() && p < r.pos && open == r.data[p..r.pos]
    requires NoAngles(tag) && tag != ""
    modifies r
    ensures r.Valid()
    ensures (out, r.pos) == BodySpec(r.data, p, old(r.pos), tag)
  {
    ghost var s := r.data;
    ghost var body := r.pos;
    var saved, buf := open, "";
    while true
      invariant r.Valid() && Scanned(s, p, body, r.pos, tag)
      invariant saved == s[p..r.pos] && buf == Tail(s[body..r.pos])
      decreases |s| - r.pos
    {
      ghost var i := r.pos;
      var b := r.ReadByte();
      if b.None? {
        AtEof(s, p, body, tag);
        assert s[p..|s|] == s[p..];
        return EofInBody(tag, saved);
      }
      saved := saved + [b.value];
      buf := buf + [b.value];
      BodyStep(s, p, body, i, tag);
      if b.value == '<' {
        buf := "<";
        continue;
      }
      if b.value == '>' {
        if buf == CloseOf(tag) { return Tag(tag, saved); }
        buf := "";
      }
      if |saved| > MAX_BUF_LEN { return TooLong; }
    }
  }

  /** One byte of the body: it completes the first closing tag, or it is over
      the limit, or the scan goes on. */
  lemma {:induction false} BodyStep(s: string, p: nat, body: nat, i: nat, tag: string)
    requires Scanned(s, p, body, i, tag) && i < |s| && NoAngles(tag) && tag != ""
    ensures s[p..i + 1] == s[p..i] + [s[i]]
    ensures var buf := Tail(s[body..i]) + [s[i]];
            && Tail(s[body..i + 1]) == (if s[i] == '<' then "<" else if s[i] == '>' then "" else buf)
            && (if s[i] == '>' && buf == CloseOf(tag) then
                  BodySpec(s, p, body, tag) == (Tag(tag, s[p..i + 1]), i + 1)
                else if s[i] != '<' && i >= p + MAX_BUF_LEN then
                  BodySpec(s, p, body, tag) == (TooLong, i + 1)
                else Scanned(s, p, body, i + 1, tag))
  {
    assert s[body..i + 1] == s[body..i] + [s[i]];
    assert s[body..i + 1][..i - body] == s[body..i];
    ClosesHere(s, body, i, tag);
    var e := i - |tag| - 2;
    if e >= body && OccursAt(s, CloseOf(tag), e) {
      ClosedHere(s, p, body, i, tag);
    } else if s[i] != '<' && i >= p + MAX_BUF_LEN {
      TooLongHere(s, p, body, i, tag);
    }
  }

  /** A closing tag ends at position i exactly when s[i] is '>' and the buffer spells it. */
  lemma {:induction false} ClosesHere(s: string, body: nat, i: nat, tag: string)
    requires body <= i < |s| && NoAngles(tag)
    ensures var e := i - |tag| - 2;
            e >= body && OccursAt(s, CloseOf(tag), e) <==> s[i] == '>' && Tail(s[body..i]) + ['>'] == CloseOf(tag)
  {
    var t, e, stem := s[body..i], i - |tag| - 2, "</" + tag;
    StemOf(tag);
    TailMatches(t, stem);
    assert Tail(t) + ['>'] == CloseOf(tag) <==> Tail(t) == stem by {
      assert (Tail(t) + ['>'])[..|Tail(t)|] == Tail(t);
      assert CloseOf(tag)[..|stem|] == stem;
    }
    if e >= body {
      assert s[e..i] == t[e - body..];
      assert s[e..i + 1] == s[e..i] + [s[i]];
      assert s[e..i + 1] == CloseOf(tag) ==> s[e..i] == stem && s[i] == '>' by {
        assert s[e..i + 1][..|stem|] == s[e..i] && CloseOf(tag)[..|stem|] == stem;
        assert s[e..i + 1][|stem|] == s[i] && CloseOf(tag)[|stem|] == '>';
      }
    }
  }

  lemma {:induction false} ClosedHere(s: string, p: nat, body: nat, i: nat, tag: string)
    requires p < body <= i - |tag| - 2 && i < |s|
    requires OccursAt(s, CloseOf(tag), i - |tag| - 2) && NoAngles(tag) && tag != ""
    requires forall e :: body <= e && e + |tag| + 3 <= i ==> !OccursAt(s, CloseOf(tag), e)
    requires forall k :: body <= k < i && k >= p + MAX_BUF_LEN ==> s[k] == '<'
    ensures BodySpec(s, p, body, tag) == (Tag(tag, s[p..i + 1]), i + 1)
  {
    var e := i - |tag| - 2;
    assert Find(s, CloseOf(tag), body) == Some(e);
    assert s[i - 1] == s[e..i + 1][|tag| + 1] == CloseOf(tag)[|tag| + 1] == tag[|tag| - 1];
  }

  lemma {:induction false} AtEof(s: string, p: nat, body: nat, tag: string)
    requires Scanned(s, p, body, |s|, tag)
    ensures BodySpec(s, p, body, tag) == (EofInBody(tag, s[p..]), |s|)
  {
  }

  lemma {:induction false} TooLongHere(s: string, p: nat, body: nat, i: nat, tag: string)
    requires p < body <= i < |s| && i >= p + MAX_BUF_LEN && s[i] != '<'
    requires forall e :: body <= e && e + |tag| + 3 <= i + 1 ==> !OccursAt(s, CloseOf(tag), e)
    requires forall k :: body <= k < i && k >= p + MAX_BUF_LEN ==> s[k] == '<'
    ensures BodySpec(s, p, body, tag) == (TooLong, i + 1)
  {
    var start := if body >= p + MAX_BUF_LEN then body else p + MAX_BUF_LEN;
    assert NextOther(s, start) == i;
  }

  // ---- streams of documents ----

  /** An element with its own end tag, or a header or self-closed tag; `inner`
      is the text between the angle brackets of the (opening) tag. */
  datatype Doc = Short(inner: string) | Element(inner: string, body: string) {
    function Open(): string {
      "<" + inner + ">"
    }

    function Name(): string {
      NameOf(Open())
    }

    function Text(): string {
      match this
      case Short(_) => Open()
      case Element(_, body) => Open() + body + CloseOf(Name())
    }

    /** The first end tag of an element is the one at its end. */
    ghost predicate WellFormed() {
      && NoAngles(inner) && (inner == "" || inner[0] != '/') && Name() != ""
      && (Short? <==> Name()[0] == '?' || HasSuffix(inner, "/"))
      && (Element? ==> Find(body + CloseOf(Name()), CloseOf(Name()), 0) == Some(|body|))
    }
  }

  /** t stands at position i of s. */
  ghost predicate At(s: string, i: nat, t: string) {
    i + |t| <= |s| && forall k :: 0 <= k < |t| ==> s[i + k] == t[k]
  }

  lemma {:induction false} AtSlice(s: string, i: nat, t: string)
    ensures At(s, i, t) <==> OccursAt(s, t, i)
  {
    if At(s, i, t) {
      assert s[i..i + |t|] == t;
    }
    if OccursAt(s, t, i) {
      forall k | 0 <= k < |t| ensures s[i + k] == t[k] {
        assert s[i..i + |t|][k] == t[k];
      }
    }
  }

  lemma {:induction false} AtConcat(s: string, i: nat, a: string, b: string)
    ensures At(s, i, a + b) <==> At(s, i, a) && At(s, i + |a|, b)
  {
    if At(s, i, a + b) {
      forall k | 0 <= k < |a| ensures s[i + k] == a[k] {
        assert (a + b)[k] == a[k];
      }
      forall k | 0 <= k < |b| ensures s[i + |a| + k] == b[k] {
        assert (a + b)[|a| + k] == b[k];
      }
    }
  }

  lemma {:induction false} OpenChars(d: Doc)
    requires d.WellFormed()
    ensures |d.Open()| == |d.inner| + 2 && d.Open()[0] == '<' && d.Open()[|d.inner| + 1] == '>'
    ensures forall i :: 1 <= i <= |d.inner| ==> d.Open()[i] != '<' && d.Open()[i] != '>'
    ensures !HasPrefix(d.Open(), "</") && (HasSuffix(d.Open(), "/>") <==> HasSuffix(d.inner, "/"))
    ensures NoAngles(d.Name())
  {
    var open, inner := d.Open(), d.inner;
    assert forall i :: 1 <= i <= |inner| ==> open[i] == inner[i - 1];
    assert open[1] != '/' && "</"[1] == '/';
    assert inner != "" ==> open[|inner|..] == inner[|inner| - 1..] + ">";
    assert inner != "" && HasSuffix(open, "/>") ==> open[|inner|..][0] == '/';
    assert inner == "" ==> open == "<>";
    assert open[1..|open| - 1] == inner;
    NameHasNoAngles(open);
  }

  lemma {:induction false} NameIsClean(d: Doc)
    requires d.WellFormed()
    ensures NoAngles(d.Name()) && d.Name() != ""
  {
    OpenChars(d);
  }

  /** Looking for the end tag of an element in the stream finds its own. */
  lemma {:induction false} EndTagFound(s: string, at: nat, d: Doc)
    requires d.Element? && d.WellFormed() && At(s, at, d.body + CloseOf(d.Name()))
    ensures Find(s, CloseOf(d.Name()), at) == Some(at + |d.body|)
  {
    var close := CloseOf(d.Name());
    var t := d.body + close;
    forall i: nat | i <= |d.body| ensures OccursAt(s, close, at + i) <==> OccursAt(t, close, i) {
      AtSlice(s, at + i, close);
      AtSlice(t, i, close);
      SameAt(s, at, t, i, close);
    }
    forall e | at <= e < at + |d.body| ensures !OccursAt(s, close, e) {
      assert OccursAt(s, close, at + (e - at)) <==> OccursAt(t, close, e - at);
    }
    assert OccursAt(s, close, at + |d.body|);
  }

  lemma {:induction false} SameAt(s: string, at: nat, t: string, i: nat, close: string)
    requires At(s, at, t) && i + |close| <= |t|
    ensures At(s, at + i, close) <==> At(t, i, close)
  {
    forall k | i <= k < i + |close| ensures t[k] == s[at + k] {
    }
    if At(t, i, close) {
      forall k | 0 <= k < |close| ensures s[at + i + k] == close[k] {
        assert t[i + k] == s[at + (i + k)];
      }
    }
    if At(s, at + i, close) {
      forall k | 0 <= k < |close| ensures t[i + k] == close[k] {
        assert s[at + i + k] == close[k];
      }
    }
  }

  /** The first two loops stop at the two ends of an opening tag. */
  lemma {:induction false} OpenTagFound(s: string, from: nat, p: nat, open: string)
    requires from <= p && (forall k :: from <= k < p && k < |s| ==> s[k] != '<')
    requires |open| >= 2 && open[0] == '<' && open[|open| - 1] == '>' && At(s, p, open)
    requires forall i :: 1 <= i < |open| - 1 ==> open[i] != '<' && open[i] != '>'
    ensures Next(s, {'<'}, from) == p
    ensures Next(s, {'<', '>'}, p + 1) == p + |open| - 1
    ensures s[p + |open| - 1] == '>' && s[p..p + |open|] == open
  {
    AtSlice(s, p, open);
    assert s[p + 0] == open[0] && s[p + (|open| - 1)] == open[|open| - 1];
    forall k | p + 1 <= k < p + |open| - 1 ensures s[k] != '<' && s[k] != '>' {
      assert s[p + (k - p)] == open[k - p];
    }
  }

  /** ReadTag returns a document whole iff it is at most MAX_BUF_LEN + 1 bytes
      long, and reports "too long tag" otherwise. */
  lemma {:induction false} ReadsDocument(s: string, from: nat, p: nat, d: Doc)
    requires from <= p && (forall k :: from <= k < p && k < |s| ==> s[k] != '<')
    requires d.WellFormed() && At(s, p, d.Text())
    ensures if |d.Text()| <= MAX_BUF_LEN + 1
            then Returns(s, from, d.Name(), d.Text(), p + |d.Text()|)
            else ReadSpec(s, from).0 == TooLong
  {
    var open, body := d.Open(), p + |d.Open()|;
    OpenChars(d);
    TextParts(s, p, d);
    OpenTagFound(s, from, p, open);
    AfterOpenIs(s, from, p, open);
    if d.Element? && |open| <= MAX_BUF_LEN + 1 {
      ReadsBody(s, p, d);
    }
  }

  /** ReadTag at `from` returns a tag with this name and text and stops at `next`. */
  ghost predicate Returns(s: string, from: nat, name: string, data: string, next: nat) {
    from <= |s| &&
    var r := ReadSpec(s, from);
    r.0.Tag? && r.0.name == name && r.0.data == data && r.1 == next
  }

  lemma {:induction false} AfterOpenIs(s: string, from: nat, p: nat, open: string)
    requires from <= p && |open| >= 2 && p + |open| <= |s|
    requires Next(s, {'<'}, from) == p && Next(s, {'<', '>'}, p + 1) == p + |open| - 1
    requires s[p + |open| - 1] == '>' && s[p..p + |open|] == open
    requires !HasPrefix(open, "</") && NameOf(open) != ""
    ensures |open| > MAX_BUF_LEN + 1 ==> ReadSpec(s, from).0 == TooLong
    ensures |open| <= MAX_BUF_LEN + 1 ==>
              ReadSpec(s, from)
              == if NameOf(open)[0] == '?' || HasSuffix(open, "/>") then (Tag(NameOf(open), open), p + |open|)
                                   else BodySpec(s, p, p + |open|, NameOf(open))
  {
  }

  lemma {:induction false} TextParts(s: string, p: nat, d: Doc)
    requires At(s, p, d.Text())
    ensures At(s, p, d.Open()) && |d.Open()| <= |d.Text()|
    ensures s[p..p + |d.Text()|] == d.Text()
    ensures d.Element? ==> At(s, p + |d.Open()|, d.body + CloseOf(d.Name())) &&
                           |d.Text()| == |d.Open()| + |d.body| + |d.Name()| + 3
  {
    AtSlice(s, p, d.Text());
    if d.Element? {
      assert d.Text() == d.Open() + (d.body + CloseOf(d.Name()));
      AtConcat(s, p, d.Open(), d.body + CloseOf(d.Name()));
    }
  }

  lemma {:induction false} ReadsBody(s: string, p: nat, d: Doc)
    requires d.Element? && d.WellFormed() && At(s, p, d.Text())
    ensures if |d.Text()| <= MAX_BUF_LEN + 1
            then BodySpec(s, p, p + |d.Open()|, d.Name()) == (Tag(d.Name(), d.Text()), p + |d.Text()|)
            else BodySpec(s, p, p + |d.Open()|, d.Name()).0 == TooLong
  {
    TextParts(s, p, d);
    EndTagFound(s, p + |d.Open()|, d);
    NameIsClean(d);
    BodyResult(s, p, p + |d.Open()|, d.Name(), p + |d.Open()| + |d.body|, d.Text());
  }

  /** An end tag at e decides the outcome by its distance from the opening '<'. */
  lemma {:induction false} BodyResult(s: string, p: nat, body: nat, name: string, e: nat, text: string)
    requires p < body <= |s| && Find(s, CloseOf(name), body) == Some(e)
    requires name != "" && NoAngles(name)
    requires p + |text| == e + |name| + 3 && s[p..p + |text|] == text
    ensures if |text| <= MAX_BUF_LEN + 1 then BodySpec(s, p, body, name) == (Tag(name, text), p + |text|)
            else BodySpec(s, p, body, name).0 == TooLong
  {
    AtSlice(s, e, CloseOf(name));
    assert s[e + (|name| + 1)] == CloseOf(name)[|name| + 1] == name[|name| - 1];
  }

  /** Reading tags until one fails: what was read, and how it ended. */
  ghost function ReadAll(s: string, from: nat): (seq<(string, string)>, Outcome)
    requires from <= |s|
    decreases |s| - from
  {
    var (out, next) := ReadSpec(s, from);
    if out.Tag? then
      var (rest, end) := ReadAll(s, next);
      ([(out.name, out.data)] + rest, end)
    else ([], out)
  }

  /** A document that fits the buffer, with its tag name. */
  ghost predicate IsDocument(name: string, text: string) {
    |text| <= MAX_BUF_LEN + 1 && exists d: Doc :: d.WellFormed() && d.Name() == name && d.Text() == text
  }

  lemma {:induction false} ReadsWhole(s: string, from: nat, p: nat, name: string, text: string)
    requires from <= p && (forall k :: from <= k < p && k < |s| ==> s[k] != '<')
    requires IsDocument(name, text) && At(s, p, text)
    ensures Returns(s, from, name, text, p + |text|)
  {
    var d: Doc :| d.WellFormed() && d.Name() == name && d.Text() == text;
    ReadsDocument(s, from, p, d);
  }

  /** A document on a stream, after some text that opens no tag. */
  datatype Item = Item(gap: string, name: string, text: string)

  ghost predicate AllDocuments(items: seq<Item>) {
    items == [] || ('<' !in items[0].gap && IsDocument(items[0].name, items[0].text) && AllDocuments(items[1..]))
  }

  function StreamOf(items: seq<Item>, trail: string): string {
    if items == [] then trail
    else items[0].gap + items[0].text + StreamOf(items[1..], trail)
  }

  function NamesAndTexts(items: seq<Item>): seq<(string, string)> {
    if items == [] then [] else [(items[0].name, items[0].text)] + NamesAndTexts(items[1..])
  }

  /** Calling ReadTag again and again from `from` returns these documents and then `end`. */
  ghost predicate Yields(s: string, from: nat, items: seq<Item>, end: Outcome)
    decreases |items|
  {
    if items == [] then from <= |s| && ReadSpec(s, from).0 == end && !end.Tag?
    else exists next :: Returns(s, from, items[0].name, items[0].text, next) && Yields(s, next, items[1..], end)
  }

  lemma {:induction false} YieldsAll(s: string, from: nat, items: seq<Item>, end: Outcome)
    requires Yields(s, from, items, end)
    ensures from <= |s| && ReadAll(s, from).0 == NamesAndTexts(items) && ReadAll(s, from).1 == end
    decreases |items|
  {
    if items != [] {
      var next :| Returns(s, from, items[0].name, items[0].text, next) && Yields(s, next, items[1..], end);
      YieldsAll(s, next, items[1..], end);
      var r := ReadSpec(s, from).0;
      assert ReadAll(s, from).0 == [(r.name, r.data)] + ReadAll(s, next).0;
      assert (r.name, r.data) == (items[0].name, items[0].text);
    }
  }

  lemma {:induction false} StreamHead(s: string, from: nat, gap: string, text: string, rest: string)
    requires '<' !in gap && At(s, from, gap + text + rest)
    ensures forall k :: from <= k < from + |gap| ==> s[k] != '<'
    ensures At(s, from + |gap|, text) && At(s, from + |gap| + |text|, rest)
  {
    AtConcat(s, from, gap + text, rest);
    AtConcat(s, from, gap, text);
    forall k | from <= k < from + |gap| ensures s[k] != '<' {
      assert s[from + (k - from)] == gap[k - from];
    }
  }

  lemma {:induction false} TrailIsEof(s: string, from: nat, trail: string)
    requires At(s, from, trail) && |s| == from + |trail| && '<' !in trail
    ensures Yields(s, from, [], Eof)
  {
    StreamHead(s, from, trail, "", "");
    assert trail + "" + "" == trail;
    assert Next(s, {'<'}, from) == |s|;
  }

  lemma {:induction false} StreamYields(s: string, from: nat, items: seq<Item>, trail: string)
    requires AllDocuments(items) && '<' !in trail
    requires At(s, from, StreamOf(items, trail)) && |s| == from + |StreamOf(items, trail)|
    ensures Yields(s, from, items, Eof)
    decreases |items|
  {
    if items == [] {
      TrailIsEof(s, from, trail);
    } else {
      var Item(gap, name, text) := items[0];
      StreamHead(s, from, gap, text, StreamOf(items[1..], trail));
      ReadsWhole(s, from, from + |gap|, name, text);
      var next := from + |gap| + |text|;
      StreamYields(s, next, items[1..], trail);
      assert Returns(s, from, items[0].name, items[0].text, next);
    }
  }

  /** Any sequence of documents reads back exactly, in order, and then the end. */
  lemma {:induction false} StreamReadsBack(items: seq<Item>, trail: string)
    requires AllDocuments(items) && '<' !in trail
    ensures ReadAll(StreamOf(items, trail), 0) == (NamesAndTexts(items), Eof)
  {
    StreamYields(StreamOf(items, trail), 0, items, trail);
    YieldsAll(StreamOf(items, trail), 0, items, Eof);
  }
}
