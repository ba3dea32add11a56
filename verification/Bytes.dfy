/** Byte strings, and byte strings cut into chunks. */
module Bytes {

  type Byte = x: int | 0 <= x < 256

  /** At most `n` leading bytes. */
  function Take(s: seq<Byte>, n: nat): seq<Byte> {
    if n < |s| then s[..n] else s
  }

  /** What `Take` leaves. */
  function Drop(s: seq<Byte>, n: nat): seq<Byte> {
    if n < |s| then s[n..] else []
  }

  function Flatten(chunks: seq<seq<Byte>>): seq<Byte> {
    if chunks == [] then [] else chunks[0] + Flatten(chunks[1..])
  }

  lemma FlattenCons(c: seq<Byte>, rest: seq<seq<Byte>>)
    ensures Flatten([c] + rest) == c + Flatten(rest)
  {
    assert ([c] + rest)[1..] == rest;
  }

  lemma {:induction false} FlattenConcat(a: seq<seq<Byte>>, b: seq<seq<Byte>>)
    ensures Flatten(a + b) == Flatten(a) + Flatten(b)
  {
    if a == [] {
      assert a + b == b;
    } else {
      var c, t := a[0], a[1..];
      FlattenConcat(t, b);
      FlattenCons(c, t + b);
      FlattenCons(c, t);
      assert a == [c] + t && a + b == [c] + (t + b);
      Associate(c, Flatten(t), Flatten(b));
    }
  }

  lemma Associate(x: seq<Byte>, y: seq<Byte>, z: seq<Byte>)
    ensures x + (y + z) == x + y + z
  {
  }

  lemma FlattenOne(c: seq<Byte>)
    ensures Flatten([c]) == c
  {
    assert [c][1..] == [];
  }

  lemma FlattenSnoc(a: seq<seq<Byte>>, c: seq<Byte>)
    ensures Flatten(a + [c]) == Flatten(a) + c
  {
    FlattenConcat(a, [c]);
    FlattenOne(c);
  }

  lemma TakeDrop(s: seq<Byte>, n: nat)
    ensures s == Take(s, n) + Drop(s, n)
  {
  }
}
