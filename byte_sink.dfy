/** The output file of the index builder, as a byte buffer with a write cursor
    (`write`, `tellp` and `seekp` of an `ofstream`). */
module OutputFile {
  import opened Bytes

  /** `b` with `data` written over it from position `p` on, growing it where
      `data` runs past its end. */
  function Overwrite(b: seq<byte>, p: nat, data: seq<byte>): (r: seq<byte>)
    requires p <= |b|
    ensures |r| == if p + |data| <= |b| then |b| else p + |data|
  {
    b[..p] + data + (if p + |data| < |b| then b[p + |data|..] else [])
  }

  /** What an overwrite keeps and what it replaces: the bytes before `p`
      stay, `data` follows, and the tail past it stays. */
  lemma {:induction false} OverwriteParts(b: seq<byte>, p: nat, data: seq<byte>)
    requires p <= |b|
    ensures var r := Overwrite(b, p, data);
      && r[..p] == b[..p] && r[p..p + |data|] == data
      && (p + |data| < |b| ==> r[p + |data|..] == b[p + |data|..])
  {
    var r := Overwrite(b, p, data);
    var tail := if p + |data| < |b| then b[p + |data|..] else [];
    assert r == b[..p] + (data + tail);
    assert r[p..] == data + tail;
  }

  /** Writing at the end of the bytes appends. */
  lemma {:induction false} OverwriteAtEnd(b: seq<byte>, data: seq<byte>)
    ensures Overwrite(b, |b|, data) == b + data
  {
  }

  /** Writing over a prefix of the same length replaces exactly that prefix. */
  lemma {:induction false} OverwritePrefix(head: seq<byte>, rest: seq<byte>, data: seq<byte>)
    requires |data| == |head|
    ensures Overwrite(head + rest, 0, data) == data + rest
  {
    var r := Overwrite(head + rest, 0, data);
    if rest != [] {
      assert (head + rest)[|data|..] == rest;
    }
    assert r[..|data|] == data;
  }

  class ByteSink {
    var bytes: seq<byte>
    var position: nat

    predicate Valid()
      reads this
    {
      position <= |bytes|
    }

    /** A freshly opened (truncated) file. */
    constructor ()
      ensures Valid() && bytes == [] && position == 0
    {
      bytes, position := [], 0;
    }

    method Write(data: seq<byte>)
      requires Valid()
      modifies this
      ensures Valid()
      ensures old(position) == |old(bytes)| ==> bytes == old(bytes) + data
      ensures old(position) < |old(bytes)| ==> bytes == Overwrite(old(bytes), old(position), data)
      ensures position == old(position) + |data|
    {
      if position == |bytes| {
        OverwriteAtEnd(bytes, data);
      }
      bytes := Overwrite(bytes, position, data);
      position := position + |data|;
    }

    /** `tellp()`. */
    method Tell() returns (p: nat)
      ensures p == position
    {
      p := position;
    }

    /** `seekp(p)` to a position inside the file. */
    method Seek(p: nat)
      requires p <= |bytes|
      modifies this
      ensures Valid() && position == p && bytes == old(bytes)
    {
      position := p;
    }
  }
}
