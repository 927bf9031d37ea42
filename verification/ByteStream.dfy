/** A finite input read front to back: io.ByteReader and io.ReadFull over a
    connection or a file. The only read error is the end of the input. */
module ByteStream {
  import opened Wrappers

  newtype byte = x: int | 0 <= x < 256

  class Reader<T> {
    const data: seq<T>
    var pos: nat

    constructor (data: seq<T>)
      ensures this.data == data && pos == 0
    {
      this.data, pos := data, 0;
    }

    ghost predicate Valid()
      reads this
    {
      pos <= |data|
    }

    method ReadByte() returns (b: Option<T>)
      requires Valid()
      modifies this
      ensures Valid()
      ensures if old(pos) < |data| then b == Some(data[old(pos)]) && pos == old(pos) + 1
              else b == None && pos == old(pos)
    {
      if pos < |data| {
        b := Some(data[pos]);
        pos := pos + 1;
      } else {
        b := None;
      }
    }

    /** io.ReadFull: io.EOF if nothing was left, io.ErrUnexpectedEOF if too little was. */
    method ReadFull(n: nat) returns (res: FullRead<T>)
      requires Valid()
      modifies this
      ensures Valid()
      ensures if old(pos) + n <= |data|
              then res == Full(data[old(pos)..old(pos) + n]) && pos == old(pos) + n
              else pos == |data| && res == if old(pos) == |data| then NothingLeft else TooLittle
    {
      if pos + n <= |data| {
        res := Full(data[pos..pos + n]);
        pos := pos + n;
      } else {
        res := if pos == |data| then NothingLeft else TooLittle;
        pos := |data|;
      }
    }
  }

  datatype FullRead<T> = Full(bytes: seq<T>) | NothingLeft | TooLittle

  /** As far as s goes, t stands at position i of it. */
  ghost predicate Agrees(s: seq<byte>, i: nat, t: seq<byte>) {
    forall k :: 0 <= k < |t| && i + k < |s| ==> s[i + k] == t[k]
  }

  lemma {:induction false} AgreesConcat(s: seq<byte>, i: nat, a: seq<byte>, b: seq<byte>)
    requires Agrees(s, i, a + b)
    ensures Agrees(s, i, a) && Agrees(s, i + |a|, b)
  {
    forall k | 0 <= k < |a| && i + k < |s| ensures s[i + k] == a[k] {
      assert (a + b)[k] == a[k];
    }
    forall k | 0 <= k < |b| && i + |a| + k < |s| ensures s[i + |a| + k] == b[k] {
      assert (a + b)[|a| + k] == b[k];
      assert s[i + (|a| + k)] == b[k];
    }
  }
}
