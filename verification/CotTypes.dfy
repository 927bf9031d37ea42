/** The forest of CoT type codes (pkg/cot/types.go). */
module CotTypes {
  import opened Wrappers
  import opened Strings

  /** p is a proper prefix of c that ends at one of c's dashes. */
  predicate DashPrefix(p: string, c: string) {
    HasPrefix(c, p + "-")
  }

  /** The search of the second loop of init: the dash-prefixes of a code from
      the longest to the shortest, until one is in the table. */
  function FindParent(codes: set<string>, n: seq<string>, i: nat): Option<string>
    requires i <= |n|
  {
    if i == 0 then None
    else
      var t := Join(n[..i], '-');
      if t in codes then Some(t) else FindParent(codes, n, i - 1)
  }

  /** The owner of the Next list that lists c; None is Root. */
  function Parent(codes: set<string>, c: string): Option<string> {
    var n := Split(c, '-');
    FindParent(codes, n, |n| - 1)
  }

  function Level(code: string): nat {
    Count(code, '-') + 1
  }

  ghost predicate StrictlySorted(s: seq<string>) {
    forall i, j :: 0 <= i < j < |s| ==> Less(s[i], s[j])
  }

  /** What the Next list of `owner` must hold once init is done. */
  ghost predicate IsNextList(list: seq<string>, codes: set<string>, owner: Option<string>) {
    && StrictlySorted(list)
    && forall c :: c in list <==> c in codes && Parent(codes, c) == owner
  }

  class CotType {
    const code: string
    const name: string
    var next: seq<CotType>

    constructor (code: string, name: string)
      ensures this.code == code && this.name == name && next == []
    {
      this.code, this.name, next := code, name, [];
    }
  }

  function Codes(cts: seq<CotType>): (s: seq<string>)
    ensures |s| == |cts| && forall i :: 0 <= i < |s| ==> s[i] == cts[i].code
  {
    seq(|cts|, i requires 0 <= i < |cts| => cts[i].code)
  }

  const WHITESPACE: set<char> := {' ', '\n', '\r', '\t'}

  /** A line of the embedded table; on one without a semicolon init panics. */
  datatype Line = Blank | Line(code: string, name: string) | NoName

  function ParseLine(s: string): Line {
    var ss := Trim(s, WHITESPACE);
    if ss == "" then Blank
    else
      var n := Split(ss, ';');
      if |n| < 2 then NoName else Line(n[0], n[1])
  }

  /** The codes and names of the lines, unless init panics on one of them. */
  function ParseLines(lines: seq<string>): Option<seq<(string, string)>> {
    if lines == [] then Some([])
    else
      var before, l := ParseLines(lines[..|lines| - 1]), ParseLine(lines[|lines| - 1]);
      if before.None? || l.NoName? then None
      else if l.Blank? then before
      else Some(before.value + [(l.code, l.name)])
  }

  /** The codes of a table; a later line for a code replaces an earlier one. */
  function TableOf(entries: seq<(string, string)>): map<string, string> {
    if entries == [] then map[]
    else TableOf(entries[..|entries| - 1])[entries[|entries| - 1].0 := entries[|entries| - 1].1]
  }

  /** The package variables `types` and `Root`. */
  class Registry {
    var types: map<string, CotType>
    const root: CotType

    constructor ()
      ensures types == map[] && root.next == [] && fresh(root)
    {
      types := map[];
      root := new CotType("", "");
    }

    ghost predicate Valid()
      reads this
    {
      forall c <- types :: types[c].code == c && types[c] != root
    }

    ghost function NextOf(owner: Option<string>): seq<string>
      requires owner.Some? ==> owner.value in types
      reads this, types.Values, root
    {
      match owner
      case None => Codes(root.next)
      case Some(p) => Codes(types[p].next)
    }

    /** Every owner's list holds exactly its children among the codes in `done`, each once. */
    ghost predicate Linked(done: set<string>)
      reads this, types.Values, root
    {
      forall owner: Option<string> :: (owner.Some? ==> owner.value in types) ==>
        && NoDuplicates(NextOf(owner))
        && forall c :: c in NextOf(owner) <==> c in done && Parent(types.Keys, c) == owner
    }

    ghost predicate IsForest()
      reads this, types.Values, root
    {
      forall owner: Option<string> :: (owner.Some? ==> owner.value in types) ==>
        IsNextList(NextOf(owner), types.Keys, owner)
    }

    /** The first loop of init; false is its panic. */
    method Load(strTypes: string) returns (ok: bool)
      requires types == map[] && root.next == []
      modifies this
      ensures ok <==> ParseLines(Split(strTypes, '\n')).Some?
      ensures Valid() && forall c <- types :: fresh(types[c])
      ensures ok ==>
                var entries := ParseLines(Split(strTypes, '\n')).value;
                && types.Keys == TableOf(entries).Keys
                && forall c <- types :: types[c].name == TableOf(entries)[c] && types[c].next == []
    {
      var lines := Split(strTypes, '\n');
      var i := 0;
      while i < |lines|
        invariant i <= |lines| && ParseLines(lines[..i]).Some?
        invariant Valid() && forall c <- types :: fresh(types[c])
        invariant types.Keys == TableOf(ParseLines(lines[..i]).value).Keys
        invariant forall c <- types :: types[c].name == TableOf(ParseLines(lines[..i]).value)[c] && types[c].next == []
      {
        assert lines[..i + 1][..i] == lines[..i];
        match ParseLine(lines[i]) {
          case NoName =>
            StillNone(lines, i + 1);
            return false;
          case Blank =>
          case Line(code, name) =>
            Put(code, name);
            ghost var before := ParseLines(lines[..i]).value;
            assert (before + [(code, name)])[..|before|] == before;
        }
        i := i + 1;
      }
      assert lines[..i] == lines;
      return true;
    }

    method Put(code: string, name: string)
      requires Valid()
      modifies this`types
      ensures Valid() && code in types && fresh(types[code]) && types == old(types)[code := types[code]]
      ensures types[code].name == name && types[code].next == []
    {
      var ct := new CotType(code, name);
      types := types[code := ct];
    }

    /** Appends one code to the list of its owner. */
    method Link(c: string, ghost done: set<string>)
      requires Valid() && c in types && c !in done && Linked(done)
      modifies types.Values, root
      ensures Linked(done + {c})
    {
      var n := Split(c, '-');
      ghost var owner := Parent(types.Keys, c);
      var ct := types[c];
      var i := |n| - 1;
      while i > 0 && Join(n[..i], '-') !in types
        invariant 0 <= i <= |n| - 1
        invariant Parent(types.Keys, c) == FindParent(types.Keys, n, i)
      {
        i := i - 1;
      }
      if i > 0 {
        var ct1 := types[Join(n[..i], '-')];
        ct1.next := ct1.next + [ct];
      } else {
        root.next := root.next + [ct];
      }
      forall o: Option<string> | o.Some? ==> o.value in types
        ensures NextOf(o) == old(NextOf(o)) + if o == owner then [c] else []
      {
        if o.Some? && o != owner && owner.Some? {
          assert types[o.value].code != types[owner.value].code;
        }
      }
    }

    /** Sorts one list by code, as sort.SliceStable does. */
    method SortNext(owner: Option<string>)
      requires Valid() && (owner.Some? ==> owner.value in types)
      requires Linked(types.Keys)
      modifies types.Values, root
      ensures Linked(types.Keys) && Sorted(NextOf(owner))
      ensures forall o: Option<string> :: o != owner && (o.Some? ==> o.value in types) ==> NextOf(o) == old(NextOf(o))
    {
      var ct := if owner.Some? then types[owner.value] else root;
      SortCodes(ct.next);
      ct.next := SortByCode(ct.next);
      forall o: Option<string> | o != owner && (o.Some? ==> o.value in types)
        ensures NextOf(o) == old(NextOf(o))
      {
        if o.Some? && owner.Some? {
          assert types[o.value].code != types[owner.value].code;
        }
      }
      SameElements(old(NextOf(owner)), NextOf(owner));
    }

    /** The second loop of init, in any order of the map. */
    method LinkAll()
      requires Valid() && Linked({})
      modifies types.Values, root
      ensures Linked(types.Keys)
    {
      var todo := types.Keys;
      assert types.Keys - todo == {};
      while todo != {}
        invariant todo <= types.Keys
        invariant Linked(types.Keys - todo)
        decreases |todo|
      {
        var c :| c in todo;
        Link(c, types.Keys - todo);
        assert types.Keys - (todo - {c}) == (types.Keys - todo) + {c};
        todo := todo - {c};
      }
      assert types.Keys - todo == types.Keys;
    }

    ghost predicate SortedFor(done: set<string>)
      reads this, types.Values
    {
      forall c :: c in types && c in done ==> Sorted(Codes(types[c].next))
    }

    /** The third loop of init, again in any order of the map. */
    method SortEach()
      requires Valid() && Linked(types.Keys)
      modifies types.Values, root
      ensures Linked(types.Keys) && SortedFor(types.Keys)
    {
      var todo := types.Keys;
      while todo != {}
        invariant todo <= types.Keys
        invariant Linked(types.Keys) && SortedFor(types.Keys - todo)
        decreases |todo|
      {
        var c :| c in todo;
        label before:
        SortNext(Some(c));
        forall d | d in types && d in types.Keys - (todo - {c}) ensures Sorted(Codes(types[d].next)) {
          assert d != c ==> NextOf(Some(d)) == old@before(NextOf(Some(d)));
          assert NextOf(Some(d)) == Codes(types[d].next);
        }
        todo := todo - {c};
      }
    }

    method SortAll()
      requires Valid() && Linked(types.Keys)
      modifies types.Values, root
      ensures IsForest()
    {
      SortEach();
      label before:
      SortNext(None);
      forall o: Option<string> | o.Some? ==> o.value in types
        ensures Sorted(NextOf(o))
      {
        if o.Some? {
          assert NextOf(o) == old@before(NextOf(o)) == old@before(Codes(types[o.value].next));
        }
      }
      SortedLinksAreForest();
    }

    lemma {:induction false} SortedLinksAreForest()
      requires Linked(types.Keys)
      requires forall owner: Option<string> :: (owner.Some? ==> owner.value in types) ==> Sorted(NextOf(owner))
      ensures IsForest()
    {
      forall o: Option<string> | o.Some? ==> o.value in types
        ensures IsNextList(NextOf(o), types.Keys, o)
      {
        SortedDistinct(NextOf(o));
      }
    }

    /** init of pkg/cot/types.go. */
    method Init(strTypes: string) returns (ok: bool)
      requires types == map[] && root.next == []
      modifies this, root
      ensures ok <==> ParseLines(Split(strTypes, '\n')).Some?
      ensures ok ==>
                var table := TableOf(ParseLines(Split(strTypes, '\n')).value);
                && Valid() && IsForest() && types.Keys == table.Keys
                && forall c <- types :: types[c].name == table[c]
    {
      ok := Load(strTypes);
      if ok {
        LinkAll();
        SortAll();
      }
    }
  }

  lemma {:induction false} StillNone(lines: seq<string>, i: nat)
    requires i <= |lines| && ParseLines(lines[..i]).None?
    ensures ParseLines(lines).None?
    decreases |lines| - i
  {
    if i < |lines| {
      assert lines[..i + 1][..i] == lines[..i];
      StillNone(lines, i + 1);
    } else {
      assert lines[..i] == lines;
    }
  }

  // ---- the text of the table ----

  function LineOf(e: (string, string)): string {
    e.0 + [';'] + e.1
  }

  function LinesOf(entries: seq<(string, string)>): (lines: seq<string>)
    ensures |lines| == |entries| && forall i :: 0 <= i < |lines| ==> lines[i] == LineOf(entries[i])
  {
    seq(|entries|, i requires 0 <= i < |entries| => LineOf(entries[i]))
  }

  /** A code and a name that can stand on a line. */
  predicate Writable(e: (string, string)) {
    && (forall c :: c == ';' || c == '\n' ==> c !in e.0 && c !in e.1)
    && (e.0 != "" ==> e.0[0] !in WHITESPACE) && (e.1 != "" ==> e.1[|e.1| - 1] !in WHITESPACE)
  }

  /** A table written as lines is read back whole. */
  lemma {:induction false} TableReadsBack(entries: seq<(string, string)>)
    requires forall e <- entries :: Writable(e)
    ensures ParseLines(Split(Join(LinesOf(entries), '\n'), '\n')) == Some(entries)
  {
    var lines := LinesOf(entries);
    if entries == [] {
      assert lines == [] && Split("", '\n')[..0] == [];
      assert ParseLine("") == Blank;
    } else {
      forall l | l in lines ensures '\n' !in l {
        var i :| 0 <= i < |lines| && lines[i] == l;
        assert Writable(entries[i]);
        }
      SplitJoin(lines, '\n');
      LinesReadBack(entries);
    }
  }

  lemma {:induction false} LinesReadBack(entries: seq<(string, string)>)
    requires forall e <- entries :: Writable(e)
    ensures ParseLines(LinesOf(entries)) == Some(entries)
  {
    if entries != [] {
      var init, e := entries[..|entries| - 1], entries[|entries| - 1];
      LinesReadBack(init);
      assert LinesOf(entries)[..|init|] == LinesOf(init);
      LineReadsBack(e);
      assert entries == init + [e];
    }
  }

  lemma {:induction false} LineReadsBack(e: (string, string))
    requires Writable(e)
    ensures ParseLine(LineOf(e)) == Line(e.0, e.1)
  {
    var l := LineOf(e);
    assert l == Join([e.0, e.1], ';') by {
      assert [e.0, e.1][1..] == [e.1];
    }
    assert Trim(l, WHITESPACE) == l by {
      assert l[0] == (if e.0 != "" then e.0[0] else ';');
      assert l[|l| - 1] == (if e.1 != "" then e.1[|e.1| - 1] else ';');
    }
    SplitJoin([e.0, e.1], ';');
  }

  ghost predicate NoDuplicates(s: seq<string>) {
    forall i, j :: 0 <= i < j < |s| ==> s[i] != s[j]
  }

  ghost predicate Sorted(s: seq<string>) {
    forall i, j :: 0 <= i < j < |s| ==> !Less(s[j], s[i])
  }

  lemma {:induction false} NoDuplicatesMultiset(s: seq<string>)
    ensures NoDuplicates(s) <==> forall c :: multiset(s)[c] <= 1
  {
    if s != [] {
      var h, t := s[0], s[1..];
      NoDuplicatesMultiset(t);
      assert s == [h] + t;
      assert multiset(s) == multiset{h} + multiset(t);
      if NoDuplicates(s) {
        forall c ensures multiset(s)[c] <= 1 {
          assert h !in t;
        }
      }
      if forall c :: multiset(s)[c] <= 1 {
        forall c ensures multiset(t)[c] <= 1 {
          assert multiset(s)[c] <= 1;
        }
        assert multiset(s)[h] <= 1;
        assert h !in multiset(t);
        forall i, j | 0 <= i < j < |s| ensures s[i] != s[j] {
          assert s[j] == t[j - 1] && s[j] in multiset(t);
        }
      }
    }
  }

  lemma {:induction false} SameElements(a: seq<string>, b: seq<string>)
    requires multiset(a) == multiset(b)
    ensures NoDuplicates(a) <==> NoDuplicates(b)
    ensures forall c :: c in a <==> c in b
  {
    NoDuplicatesMultiset(a);
    NoDuplicatesMultiset(b);
    forall c ensures c in a <==> c in b {
      assert c in a <==> c in multiset(a);
    }
  }

  lemma {:induction false} SortedDistinct(s: seq<string>)
    requires Sorted(s) && NoDuplicates(s)
    ensures StrictlySorted(s)
  {
    forall i, j | 0 <= i < j < |s| ensures Less(s[i], s[j]) {
      LessTotal(s[i], s[j]);
    }
  }

  function InsertByCode(ct: CotType, s: seq<CotType>): seq<CotType> {
    if s == [] || !Less(s[0].code, ct.code) then [ct] + s
    else [s[0]] + InsertByCode(ct, s[1..])
  }

  function SortByCode(s: seq<CotType>): seq<CotType> {
    if s == [] then [] else InsertByCode(s[0], SortByCode(s[1..]))
  }

  lemma {:induction false} NotLessTransitive(a: string, b: string, c: string)
    requires !Less(b, a) && !Less(c, b)
    ensures !Less(c, a)
  {
    LessTotal(a, b);
    LessTotal(b, c);
    LessTotal(a, c);
    if a != b && b != c {
      LessTransitive(a, b, c);
    }
  }

  lemma {:induction false} SortedCons(h: string, t: seq<string>)
    requires Sorted(t) && (t != [] ==> !Less(t[0], h))
    ensures Sorted([h] + t)
  {
    forall j | 0 <= j < |t| ensures !Less(t[j], h) {
      if j > 0 {
        NotLessTransitive(h, t[0], t[j]);
      }
    }
  }

  lemma {:induction false} CodesCons(ct: CotType, s: seq<CotType>)
    ensures Codes([ct] + s) == [ct.code] + Codes(s)
    ensures multiset(Codes([ct] + s)) == multiset{ct.code} + multiset(Codes(s))
  {
    assert Codes([ct] + s) == [ct.code] + Codes(s);
  }

  lemma {:induction false} InsertCodes(ct: CotType, s: seq<CotType>)
    requires Sorted(Codes(s))
    ensures Sorted(Codes(InsertByCode(ct, s)))
    ensures multiset(Codes(InsertByCode(ct, s))) == multiset(Codes(s)) + multiset{ct.code}
  {
    InsertMultiset(ct, s);
    InsertSorted(ct, s);
  }

  lemma {:induction false} InsertMultiset(ct: CotType, s: seq<CotType>)
    ensures multiset(Codes(InsertByCode(ct, s))) == multiset(Codes(s)) + multiset{ct.code}
  {
    if s == [] || !Less(s[0].code, ct.code) {
      CodesCons(ct, s);
    } else {
      assert s == [s[0]] + s[1..];
      CodesCons(s[0], s[1..]);
      CodesCons(s[0], InsertByCode(ct, s[1..]));
      InsertMultiset(ct, s[1..]);
    }
  }

  lemma {:induction false} InsertSorted(ct: CotType, s: seq<CotType>)
    requires Sorted(Codes(s))
    ensures Sorted(Codes(InsertByCode(ct, s)))
  {
    if s == [] || !Less(s[0].code, ct.code) {
      CodesCons(ct, s);
      SortedCons(ct.code, Codes(s));
    } else {
      var rest, t := s[1..], InsertByCode(ct, s[1..]);
      assert s == [s[0]] + rest;
      CodesCons(s[0], rest);
      SortedTail(s[0].code, Codes(rest));
      InsertSorted(ct, rest);
      InsertHead(ct, rest, s[0].code);
      CodesCons(s[0], t);
      SortedCons(s[0].code, Codes(t));
    }
  }

  lemma {:induction false} InsertHead(ct: CotType, s: seq<CotType>, h: string)
    requires Less(h, ct.code) && (s != [] ==> !Less(s[0].code, h))
    ensures InsertByCode(ct, s) != [] && !Less(InsertByCode(ct, s)[0].code, h)
  {
    LessTotal(h, ct.code);
  }

  lemma {:induction false} SortedTail(h: string, t: seq<string>)
    requires Sorted([h] + t)
    ensures Sorted(t) && (t != [] ==> !Less(t[0], h))
  {
    var s := [h] + t;
    assert t != [] ==> s[1] == t[0] && s[0] == h;
    forall i, j | 0 <= i < j < |t| ensures !Less(t[j], t[i]) {
      assert s[i + 1] == t[i] && s[j + 1] == t[j];
    }
  }

  lemma {:induction false} SortCodes(s: seq<CotType>)
    ensures Sorted(Codes(SortByCode(s)))
    ensures multiset(Codes(SortByCode(s))) == multiset(Codes(s))
  {
    if s != [] {
      SortCodes(s[1..]);
      InsertCodes(s[0], SortByCode(s[1..]));
      CodesCons(s[0], s[1..]);
      assert s == [s[0]] + s[1..];
    }
  }

  // ---- what the forest is ----

  /** The number of leading segments of the prefix that FindParent finds, 0 for none. */
  lemma {:induction false} FindParentIs(codes: set<string>, n: seq<string>, i: nat) returns (j: nat)
    requires i <= |n|
    ensures j <= i && forall k :: j < k <= i ==> Join(n[..k], '-') !in codes
    ensures if j == 0 then FindParent(codes, n, i) == None
            else Join(n[..j], '-') in codes && FindParent(codes, n, i) == Some(Join(n[..j], '-'))
  {
    j := i;
    if i > 0 && Join(n[..i], '-') !in codes {
      j := FindParentIs(codes, n, i - 1);
    }
  }

  /** The dash-prefixes of a code are the joins of its leading segments. */
  lemma {:induction false} DashPrefixIsJoin(q: string, c: string)
    requires DashPrefix(q, c)
    ensures var k := |Split(q, '-')|; 1 <= k < |Split(c, '-')| && q == Join(Split(c, '-')[..k], '-')
  {
    assert c == q + ['-'] + c[|q| + 1..];
    SplitConcat(q, c[|q| + 1..], '-');
    JoinSplit(q, '-');
    assert Split(c, '-')[..|Split(q, '-')|] == Split(q, '-');
  }

  lemma {:induction false} JoinIsDashPrefix(n: seq<string>, k: nat, j: nat)
    requires 1 <= k < j <= |n|
    ensures DashPrefix(Join(n[..k], '-'), Join(n[..j], '-'))
  {
    assert n[..j] == n[..k] + n[k..j];
    JoinConcat(n[..k], n[k..j], '-');
  }

  /** A code hangs under the longest of its proper dash-prefixes that is in the
      table, and under Root iff none is. */
  lemma {:induction false} ParentIsLongestPrefix(codes: set<string>, c: string)
    ensures match Parent(codes, c)
            case None => forall q :: q in codes ==> !DashPrefix(q, c)
            case Some(p) => p in codes && DashPrefix(p, c) &&
                            forall q :: q in codes && DashPrefix(q, c) ==> |q| <= |p|
  {
    var n := Split(c, '-');
    var j := FindParentIs(codes, n, |n| - 1);
    JoinSplit(c, '-');
    assert n[..|n|] == n;
    if j > 0 {
      JoinIsDashPrefix(n, j, |n|);
    }
    forall q | q in codes && DashPrefix(q, c)
      ensures j > 0 && |q| <= |Join(n[..j], '-')|
    {
      DashPrefixIsJoin(q, c);
      var k := |Split(q, '-')|;
      if k < j {
        JoinIsDashPrefix(n, k, j);
      }
    }
  }

  lemma {:induction false} LevelGrows(p: string, c: string)
    requires DashPrefix(p, c)
    ensures Level(p) < Level(c)
  {
    assert c == p + ("-" + c[|p| + 1..]);
    CountConcat(p, "-" + c[|p| + 1..], '-');
  }

  /** Whatever the two iteration orders were, the lists come out the same. */
  lemma {:induction false} NextListUnique(a: seq<string>, b: seq<string>, codes: set<string>, owner: Option<string>)
    requires IsNextList(a, codes, owner) && IsNextList(b, codes, owner)
    ensures a == b
  {
    SortedSetUnique(a, b);
  }

  lemma {:induction false} SortedSetUnique(a: seq<string>, b: seq<string>)
    requires StrictlySorted(a) && StrictlySorted(b)
    requires forall c :: c in a <==> c in b
    ensures a == b
  {
    assert |a| > 0 ==> a[0] in b;
    assert |b| > 0 ==> b[0] in a;
    if a != [] && b != [] {
      LessTotal(a[0], b[0]);
      assert a[0] == b[0];
      forall c ensures c in a[1..] <==> c in b[1..] {
        if c in a[1..] {
          var i :| 0 < i < |a| && a[i] == c;
          LessTotal(a[0], c);
          assert c in b;
          var j :| 0 <= j < |b| && b[j] == c;
          assert c == b[1..][j - 1];
        }
        if c in b[1..] {
          var i :| 0 < i < |b| && b[i] == c;
          LessTotal(b[0], c);
          assert c in a;
          var j :| 0 <= j < |a| && a[j] == c;
          assert c == a[1..][j - 1];
        }
      }
      SortedSetUnique(a[1..], b[1..]);
    }
  }

  /** Every code is in exactly one of the lists of a forest, once. */
  lemma {:induction false} ListedExactlyOnce(codes: set<string>, lists: map<Option<string>, seq<string>>, c: string)
    requires c in codes
    requires lists.Keys == {None} + (set p <- codes :: Some(p))
    requires forall o <- lists :: IsNextList(lists[o], codes, o)
    ensures Parent(codes, c) in lists
    ensures forall o <- lists :: c in lists[o] <==> o == Parent(codes, c)
    ensures multiset(lists[Parent(codes, c)])[c] == 1
  {
    ParentIsLongestPrefix(codes, c);
    var o := Parent(codes, c);
    assert c in lists[o];
    forall i, j | 0 <= i < j < |lists[o]| ensures lists[o][i] != lists[o][j] {
      LessTotal(lists[o][i], lists[o][j]);
    }
    NoDuplicatesMultiset(lists[o]);
  }

  /** The way down from Root to a code. */
  function PathTo(codes: set<string>, c: string): (path: seq<string>)
    decreases |c|
  {
    ParentIsLongestPrefix(codes, c);
    match Parent(codes, c)
    case None => [c]
    case Some(p) => PathTo(codes, p) + [c]
  }

  /** Every code is reached from Root by following the lists. */
  lemma {:induction false} Reachable(codes: set<string>, c: string)
    requires c in codes
    ensures var path := PathTo(codes, c);
            && |path| >= 1 && path[|path| - 1] == c && Parent(codes, path[0]) == None
            && (forall i :: 0 <= i < |path| ==> path[i] in codes)
            && (forall i :: 0 < i < |path| ==> Parent(codes, path[i]) == Some(path[i - 1]))
            && |path| <= Level(c)
    decreases |c|
  {
    ParentIsLongestPrefix(codes, c);
    if Parent(codes, c).Some? {
      Reachable(codes, Parent(codes, c).value);
      LevelGrows(Parent(codes, c).value, c);
    }
  }

  /** Levels strictly grow along every chain of the forest, so no chain comes back. */
  lemma {:induction false} NoCycles(codes: set<string>, chain: seq<string>, i: nat, j: nat)
    requires forall k :: 0 < k < |chain| ==> Parent(codes, chain[k]) == Some(chain[k - 1])
    requires i < j < |chain|
    ensures Level(chain[i]) < Level(chain[j]) && chain[i] != chain[j]
    decreases j
  {
    ParentIsLongestPrefix(codes, chain[j]);
    LevelGrows(chain[j - 1], chain[j]);
    if i < j - 1 {
      NoCycles(codes, chain, i, j - 1);
    }
  }
}
