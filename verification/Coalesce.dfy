/** The byte coalescing generator of `packages/common/src/streams.ts`, on views into shared
    buffers, so that writing into a chunk already yielded would show. */
module Coalesce {
  import opened Bytes

  /** A `Uint8Array`: some bytes of a buffer. */
  datatype View = View(buf: array<Byte>, from: nat, to: nat) {
    predicate Valid() {
      from <= to <= buf.Length
    }

    ghost function Content(): seq<Byte>
      requires Valid()
      reads buf
    {
      buf[from..to]
    }
  }

  ghost predicate AllValid(views: seq<View>) {
    forall i :: 0 <= i < |views| ==> views[i].Valid()
  }

  ghost function Buffers(views: seq<View>): set<array<Byte>> {
    set i | 0 <= i < |views| :: views[i].buf
  }

  /** What the views hold in the current state. */
  ghost function Contents(views: seq<View>): (c: seq<seq<Byte>>)
    requires AllValid(views)
    reads Buffers(views)
    ensures |c| == |views| && forall i :: 0 <= i < |views| ==> c[i] == views[i].Content()
  {
    if views == [] then [] else Contents(views[..|views| - 1]) + [views[|views| - 1].Content()]
  }

  /** All chunks are of some length, and all but perhaps the last at least `min` long. */
  ghost predicate Coalesced(chunks: seq<seq<Byte>>, min: nat) {
    && (forall k :: 0 <= k < |chunks| ==> |chunks[k]| > 0)
    && (forall k :: 0 <= k < |chunks| - 1 ==> |chunks[k]| >= min)
  }

  method Set(buffer: array<Byte>, chunk: View, from: nat, to: nat, offset: nat)
    requires chunk.Valid() && from <= to <= chunk.to - chunk.from && offset + (to - from) <= buffer.Length
    requires chunk.buf != buffer
    modifies buffer
    ensures buffer[..offset + (to - from)] == old(buffer[..offset]) + chunk.Content()[from..to]
  {
    forall k | 0 <= k < to - from {
      buffer[offset + k] := chunk.buf[chunk.from + from + k];
    }
    ghost var end := offset + (to - from);
    assert buffer[..offset] == old(buffer[..offset]);
    assert buffer[offset..end] == chunk.Content()[from..to];
    assert buffer[..end] == buffer[..offset] + buffer[offset..end];
  }

  ghost predicate Holding(views: seq<View>, contents: seq<seq<Byte>>)
    requires AllValid(views)
    reads Buffers(views)
  {
    |contents| == |views| && forall k :: 0 <= k < |views| ==> views[k].Content() == contents[k]
  }

  ghost predicate AllLong(chunks: seq<seq<Byte>>, min: nat) {
    forall k :: 0 <= k < |chunks| ==> |chunks[k]| >= min
  }

  lemma FlattenTwo(a: seq<Byte>, b: seq<Byte>)
    ensures Flatten([a, b]) == a + b
  {
    FlattenOne(b);
    assert [a, b][1..] == [b];
  }

  /** The last branch of the loop: the buffer is filled up and yielded, and what remains of
      the chunk is yielded as it is or starts a new buffer. */
  method FillUp(chunk: View, buffer: array<Byte>, offset: nat)
    returns (next: array<Byte>, filled: nat, chunks: seq<View>, ghost given: seq<seq<Byte>>)
    requires chunk.Valid() && chunk.buf != buffer && offset <= buffer.Length && buffer.Length >= 1
    requires buffer.Length - offset <= chunk.to - chunk.from
    modifies buffer
    ensures fresh(next) && next.Length == buffer.Length && filled <= next.Length
    ensures AllValid(chunks) && Holding(chunks, given) && AllLong(given, buffer.Length)
    ensures forall k :: 0 <= k < |chunks| ==> chunks[k].buf in {buffer, chunk.buf}
    ensures Flatten(given) + next[..filled] == old(buffer[..offset]) + chunk.Content()
  {
    var length, freeSpace := chunk.to - chunk.from, buffer.Length - offset;
    ghost var before, bytes := buffer[..offset], chunk.Content();
    Set(buffer, chunk, 0, freeSpace, offset);
    ghost var full := buffer[..];
    assert full == buffer[..offset + freeSpace];
    chunks, given := [View(buffer, 0, buffer.Length)], [full];
    FlattenOne(full);
    next := new Byte[buffer.Length](_ => 0);
    filled := 0;
    var remaining := length - freeSpace;
    assert before + bytes == full + bytes[freeSpace..];
    if remaining > buffer.Length {
      FlattenTwo(full, bytes[freeSpace..]);
      chunks, given := chunks + [View(chunk.buf, chunk.from + freeSpace, chunk.to)], [full, bytes[freeSpace..]];
      assert full + bytes[freeSpace..] + next[..0] == before + bytes;
    } else if remaining > 0 {
      Set(next, chunk, freeSpace, length, 0);
      assert chunk.Content() == bytes && bytes[freeSpace..length] == bytes[freeSpace..];
      assert next[..remaining] == [] + bytes[freeSpace..] == bytes[freeSpace..];
      filled := remaining;
    }
  }

  /** What the loop does with one chunk: what it yields, and the buffer it goes on with. A
      buffer that has been yielded is not gone on with. */
  method Absorb(chunk: View, buffer: array<Byte>, offset: nat)
    returns (next: array<Byte>, filled: nat, chunks: seq<View>, ghost given: seq<seq<Byte>>)
    requires chunk.Valid() && chunk.buf != buffer && offset <= buffer.Length && buffer.Length >= 1
    modifies buffer
    ensures next == buffer || fresh(next)
    ensures next.Length == buffer.Length && filled <= next.Length
    ensures AllValid(chunks) && Holding(chunks, given) && AllLong(given, buffer.Length)
    ensures forall k :: 0 <= k < |chunks| ==> chunks[k].buf != next && chunks[k].buf in {buffer, chunk.buf}
    ensures Flatten(given) + next[..filled] == old(buffer[..offset]) + chunk.Content()
  {
    var length, freeSpace := chunk.to - chunk.from, buffer.Length - offset;
    ghost var before, bytes := buffer[..offset], chunk.Content();
    next, filled, chunks, given := buffer, offset, [], [];
    if freeSpace > length {
      Set(buffer, chunk, 0, length, offset);
      assert bytes[0..length] == bytes;
      filled := offset + length;
    } else if offset == 0 && length >= buffer.Length {
      FlattenOne(bytes);
      chunks, given := [chunk], [bytes];
      assert bytes + next[..0] == before + bytes;
    } else {
      next, filled, chunks, given := FillUp(chunk, buffer, offset);
    }
  }

  lemma Carry(yielded: seq<seq<Byte>>, given: seq<seq<Byte>>, before: seq<Byte>, after: seq<Byte>, input: seq<Byte>)
    requires Flatten(given) + after == before + input
    ensures Flatten(yielded + given) + after == Flatten(yielded) + before + input
  {
    FlattenConcat(yielded, given);
    var y, g := Flatten(yielded), Flatten(given);
    assert y + g + after == y + (g + after);
    assert y + before + input == y + (before + input);
  }

  lemma FlattenPrefix(inputs: seq<seq<Byte>>, i: nat)
    requires i < |inputs|
    ensures Flatten(inputs[..i + 1]) == Flatten(inputs[..i]) + inputs[i]
  {
    assert inputs[..i + 1] == inputs[..i] + [inputs[i]];
    FlattenSnoc(inputs[..i], inputs[i]);
  }

  lemma HoldingConcat(a: seq<View>, ca: seq<seq<Byte>>, b: seq<View>, cb: seq<seq<Byte>>)
    requires AllValid(a) && AllValid(b) && Holding(a, ca) && Holding(b, cb)
    ensures AllValid(a + b) && Holding(a + b, ca + cb)
  {
  }

  lemma AllLongConcat(a: seq<seq<Byte>>, b: seq<seq<Byte>>, min: nat)
    requires AllLong(a, min) && AllLong(b, min)
    ensures AllLong(a + b, min)
  {
  }

  lemma HoldingContents(views: seq<View>, contents: seq<seq<Byte>>)
    requires AllValid(views) && Holding(views, contents)
    ensures Contents(views) == contents
  {
  }

  /** The loop over the incoming chunks: what it yields, and the buffer it ends with. */
  method AbsorbAll(iter: seq<View>, minChunkSize: nat)
    returns (out: seq<View>, buffer: array<Byte>, offset: nat, ghost yielded: seq<seq<Byte>>)
    requires minChunkSize >= 1 && AllValid(iter)
    ensures fresh(buffer) && buffer.Length == minChunkSize && offset <= minChunkSize
    ensures AllValid(out) && Holding(out, yielded) && AllLong(yielded, minChunkSize)
    ensures Flatten(yielded) + buffer[..offset] == Flatten(Contents(iter))
  {
    buffer := new Byte[minChunkSize](_ => 0);
    offset, out, yielded := 0, [], [];
    ghost var inputs := Contents(iter);
    for i := 0 to |iter|
      invariant fresh(buffer) && buffer.Length == minChunkSize && offset <= minChunkSize
      invariant AllValid(out) && Holding(out, yielded) && AllLong(yielded, minChunkSize)
      invariant forall k :: 0 <= k < |out| ==> out[k].buf != buffer
      invariant Holding(iter, inputs)
      invariant Flatten(yielded) + buffer[..offset] == Flatten(inputs[..i])
    {
      ghost var before := buffer[..offset];
      var chunks;
      ghost var given;
      buffer, offset, chunks, given := Absorb(iter[i], buffer, offset);
      assert iter[i].Content() == inputs[i];
      Carry(yielded, given, before, buffer[..offset], inputs[i]);
      FlattenPrefix(inputs, i);
      AllLongConcat(yielded, given, minChunkSize);
      HoldingConcat(out, yielded, chunks, given);
      out, yielded := out + chunks, yielded + given;
    }
    assert inputs[..|iter|] == inputs;
    HoldingContents(iter, inputs);
  }

  /** The generator, pulled to its end. In the end the chunks yielded hold exactly the input,
      although buffers were being filled all the while: none is written once yielded. */
  method CoalesceByteStream(iter: seq<View>, minChunkSize: nat) returns (out: seq<View>)
    requires minChunkSize >= 1 && AllValid(iter)
    ensures AllValid(out)
    ensures Flatten(Contents(out)) == Flatten(Contents(iter))
    ensures Coalesced(Contents(out), minChunkSize)
  {
    var buffer, offset;
    ghost var yielded;
    out, buffer, offset, yielded := AbsorbAll(iter, minChunkSize);
    if offset > 0 {
      FlattenSnoc(yielded, buffer[..offset]);
      out, yielded := out + [View(buffer, 0, offset)], yielded + [buffer[..offset]];
    }
    HoldingContents(out, yielded);
  }
}
