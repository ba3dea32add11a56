/** What a CAR file that was cut off reads as: the blocks that are whole, and then an error. */
module Truncation {
  import opened Wrappers
  import opened Bytes
  import opened Car

  /** Where the first `i` block frames of a written file end. */
  function FrameEnd(codec: Codec, root: Option<Cid>, blocks: seq<Block>, i: nat): nat
    requires i <= |blocks|
  {
    |File(codec, root, blocks[..i])|
  }

  function Body(b: Block): seq<Byte> {
    b.cid.bytes + b.bytes
  }

  /** Too few bytes of a block to make a CID, or not the contents of the CID that they make. */
  predicate Unreadable(codec: Codec, part: seq<Byte>) {
    var cid := codec.decodeCid(Take(part, CID_LENGTH));
    cid.None? || !codec.isCidForBytes(cid.value, Drop(part, CID_LENGTH))
  }

  /** No shorter part of the block reads as a block of its own. */
  predicate OnlyWhole(codec: Codec, b: Block) {
    forall k :: 0 <= k < |Body(b)| ==> Unreadable(codec, Body(b)[..k])
  }

  /** The error of a frame of which only `m` bytes are there: one of the length, the CID, or the
      contents. */
  function CutError(codec: Codec, b: Block, m: nat): Error
    requires 0 < m < |Frame(Body(b))|
  {
    var prefix := |Leb128(|Body(b)|)|;
    if m < prefix then BadVarint
    else if codec.decodeCid(Take(Body(b)[..m - prefix], CID_LENGTH)).None? then BadCid
    else CidMismatch
  }

  lemma FramesCons(b: Block, rest: seq<Block>)
    ensures Frames([b] + rest) == Frame(Body(b)) + Frames(rest)
  {
    assert ([b] + rest)[1..] == rest;
  }

  lemma {:induction false} FramesConcat(a: seq<Block>, b: seq<Block>)
    ensures Frames(a + b) == Frames(a) + Frames(b)
  {
    if a == [] {
      assert a + b == b;
    } else {
      var h, t := a[0], a[1..];
      FramesConcat(t, b);
      FramesCons(h, t + b);
      FramesCons(h, t);
      assert a == [h] + t && a + b == [h] + (t + b);
      Associate(Frame(Body(h)), Frames(t), Frames(b));
    }
  }

  lemma CutVarint(body: seq<Byte>, m: nat)
    requires m < |Leb128(|body|)|
    ensures ParseVarint(Frame(body)[..m]) == if m == 0 then NoMore else Truncated
  {
    var leb := Leb128(|body|);
    LebRoundTrip(|body|);
    assert Frame(body)[..m] == leb[..m];
    GroupNone(leb[..m]);
  }

  lemma CutBody(body: seq<Byte>, m: nat)
    requires |Leb128(|body|)| <= m < |Frame(body)|
    ensures var prefix := |Leb128(|body|)|; var s := Frame(body)[..m];
      && ParseVarint(s) == Varint(|body|, prefix)
      && Take(s[prefix..], |body|) == body[..m - prefix]
  {
    var leb := Leb128(|body|);
    var part := body[..m - |leb|];
    assert Frame(body)[..m] == leb + part;
    VarintRoundTrip(|body|, part);
  }

  /** Parsing a frame of which something is missing. */
  lemma CutFrame(codec: Codec, b: Block, m: nat)
    requires m < |Frame(Body(b))| && OnlyWhole(codec, b)
    ensures ParseBlocks(codec, true, Frame(Body(b))[..m]) ==
      Stream([], if m == 0 then None else Some(CutError(codec, b, m)))
  {
    var body := Body(b);
    if m < |Leb128(|body|)| {
      CutVarint(body, m);
    } else {
      CutBody(body, m);
      assert Unreadable(codec, body[..m - |Leb128(|body|)|]);
    }
  }

  lemma ParseWhole(codec: Codec, b: Block, tail: seq<Byte>)
    requires Inverse(codec) && Proper(codec, b)
    ensures ParseBlocks(codec, true, Frame(Body(b)) + tail) == Yield(b, ParseBlocks(codec, true, tail))
  {
    NextReadable(codec, true, b, tail);
  }

  lemma YieldAfter(b: Block, more: seq<Block>, s: Stream)
    ensures Yield(b, After(more, s)) == After([b] + more, s)
  {
    assert [b] + (more + s.blocks) == [b] + more + s.blocks;
  }

  lemma WholeStep(codec: Codec, b: Block, more: seq<Block>, rest: seq<Byte>)
    requires Inverse(codec) && Proper(codec, b)
    requires ParseBlocks(codec, true, Frames(more) + rest) == After(more, ParseBlocks(codec, true, rest))
    ensures ParseBlocks(codec, true, Frames([b] + more) + rest) == After([b] + more, ParseBlocks(codec, true, rest))
  {
    var lead, tail := Frame(Body(b)), Frames(more) + rest;
    assert Frames([b] + more) + rest == lead + tail by {
      FramesCons(b, more);
      Associate(lead, Frames(more), rest);
    }
    assert ParseBlocks(codec, true, lead + tail) == Yield(b, ParseBlocks(codec, true, tail)) by { ParseWhole(codec, b, tail); }
    YieldAfter(b, more, ParseBlocks(codec, true, rest));
  }

  /** Whole blocks in front of anything. */
  lemma {:induction false} WholeFirst(codec: Codec, blocks: seq<Block>, rest: seq<Byte>)
    requires Inverse(codec) && forall i :: 0 <= i < |blocks| ==> Proper(codec, blocks[i])
    ensures ParseBlocks(codec, true, Frames(blocks) + rest) == After(blocks, ParseBlocks(codec, true, rest))
  {
    if blocks == [] {
      assert Frames(blocks) + rest == rest;
      assert [] + ParseBlocks(codec, true, rest).blocks == ParseBlocks(codec, true, rest).blocks;
    } else {
      WholeFirst(codec, blocks[1..], rest);
      WholeStep(codec, blocks[0], blocks[1..], rest);
      assert blocks == [blocks[0]] + blocks[1..];
    }
  }

  lemma CutBlocks(codec: Codec, blocks: seq<Block>, i: nat, m: nat)
    requires Inverse(codec) && forall k :: 0 <= k < |blocks| ==> Proper(codec, blocks[k])
    requires i < |blocks| && m < |Frame(Body(blocks[i]))| && OnlyWhole(codec, blocks[i])
    ensures ParseBlocks(codec, true, Frames(blocks[..i]) + Frame(Body(blocks[i]))[..m]) ==
      Stream(blocks[..i], if m == 0 then None else Some(CutError(codec, blocks[i], m)))
  {
    WholeFirst(codec, blocks[..i], Frame(Body(blocks[i]))[..m]);
    CutFrame(codec, blocks[i], m);
    assert blocks[..i] + [] == blocks[..i];
  }

  lemma CutParts(header: seq<Byte>, before: seq<Byte>, frame: seq<Byte>, after: seq<Byte>, m: nat)
    requires m <= |frame|
    ensures (header + (before + (frame + after)))[..|header + before| + m] == header + (before + frame[..m])
  {
  }

  lemma FramesAround(before: seq<Block>, b: Block, after: seq<Block>)
    ensures Frames(before + ([b] + after)) == Frames(before) + (Frame(Body(b)) + Frames(after))
  {
    FramesConcat(before, [b] + after);
    FramesCons(b, after);
  }

  lemma CutBytes(codec: Codec, root: Option<Cid>, blocks: seq<Block>, i: nat, m: nat)
    requires i < |blocks| && m <= |Frame(Body(blocks[i]))|
    ensures var n := FrameEnd(codec, root, blocks, i) + m;
      && n <= |File(codec, root, blocks)|
      && File(codec, root, blocks)[..n] ==
           Frame(codec.encodeHeader(Roots(root))) + (Frames(blocks[..i]) + Frame(Body(blocks[i]))[..m])
  {
    FramesAround(blocks[..i], blocks[i], blocks[i + 1..]);
    assert blocks[..i] + ([blocks[i]] + blocks[i + 1..]) == blocks;
    CutParts(Frame(codec.encodeHeader(Roots(root))), Frames(blocks[..i]), Frame(Body(blocks[i])), Frames(blocks[i + 1..]), m);
  }

  lemma EndsGrow(codec: Codec, root: Option<Cid>, blocks: seq<Block>, i: nat)
    requires i < |blocks|
    ensures FrameEnd(codec, root, blocks, i + 1) == FrameEnd(codec, root, blocks, i) + |Frame(Body(blocks[i]))|
    ensures FrameEnd(codec, root, blocks, i + 1) <= |File(codec, root, blocks)|
  {
    FramesConcat(blocks[..i], [blocks[i]]);
    assert blocks[..i + 1] == blocks[..i] + [blocks[i]];
    assert Frames([blocks[i]]) == Frame(Body(blocks[i])) + Frames([]);
    CutBytes(codec, root, blocks, i, |Frame(Body(blocks[i]))|);
  }

  lemma HeaderFirst(codec: Codec, roots: seq<Cid>, rest: seq<Byte>)
    requires Inverse(codec)
    ensures ParseCar(codec, true, Frame(codec.encodeHeader(roots)) + rest) == Ok(Car(roots, ParseBlocks(codec, true, rest)))
  {
    ParseFrame(codec.encodeHeader(roots), rest);
  }

  lemma CutFile(codec: Codec, root: Option<Cid>, blocks: seq<Block>, i: nat, n: nat)
    requires Inverse(codec) && forall k :: 0 <= k < |blocks| ==> Proper(codec, blocks[k])
    requires i < |blocks| && OnlyWhole(codec, blocks[i])
    requires FrameEnd(codec, root, blocks, i) <= n < FrameEnd(codec, root, blocks, i + 1) <= |File(codec, root, blocks)|
    requires FrameEnd(codec, root, blocks, i + 1) == FrameEnd(codec, root, blocks, i) + |Frame(Body(blocks[i]))|
    ensures var m := n - FrameEnd(codec, root, blocks, i);
      ParseCar(codec, true, File(codec, root, blocks)[..n]) ==
        Ok(Car(Roots(root), Stream(blocks[..i], if m == 0 then None else Some(CutError(codec, blocks[i], m)))))
  {
    var m := n - FrameEnd(codec, root, blocks, i);
    var rest := Frames(blocks[..i]) + Frame(Body(blocks[i]))[..m];
    assert File(codec, root, blocks)[..n] == Frame(codec.encodeHeader(Roots(root))) + rest by { CutBytes(codec, root, blocks, i, m); }
    HeaderFirst(codec, Roots(root), rest);
    CutBlocks(codec, blocks, i, m);
  }

  /** A written file of which only the first `n` bytes are there, however these are cut into
      chunks, gives exactly the blocks whose frames are whole, and then an error that says
      what was cut; only a cut between two frames goes unnoticed. */
  method ReadCutFile(codec: Codec, root: Option<Cid>, blocks: seq<Block>, i: nat, n: nat, chunks: seq<seq<Byte>>)
    returns (streamed: Result<Car, Error>, whole: Result<BlocksRead, Error>)
    requires Inverse(codec) && forall k :: 0 <= k < |blocks| ==> Proper(codec, blocks[k])
    requires i < |blocks| && OnlyWhole(codec, blocks[i])
    requires FrameEnd(codec, root, blocks, i) <= n < FrameEnd(codec, root, blocks, i + 1)
    requires n <= |File(codec, root, blocks)| && Flatten(chunks) == File(codec, root, blocks)[..n]
    ensures streamed.Ok? && streamed.value.roots == (if root.Some? then [root.value] else []) && streamed.value.blocks.blocks == blocks[..i]
    ensures n == FrameEnd(codec, root, blocks, i) ==>
      streamed.value.blocks.thrown == None && whole == Ok(BlocksRead(if root.Some? then [root.value] else [], Collect(blocks[..i])))
    ensures n > FrameEnd(codec, root, blocks, i) ==>
      && n - FrameEnd(codec, root, blocks, i) < |Frame(Body(blocks[i]))|
      && var e := CutError(codec, blocks[i], n - FrameEnd(codec, root, blocks, i));
        streamed.value.blocks.thrown == Some(e) && whole == Err(e)
  {
    EndsGrow(codec, root, blocks, i);
    CutFile(codec, root, blocks, i, n);
    streamed := ReadCarStream(chunks, codec, true);
    whole := ReadCar(Flatten(chunks), codec, true);
  }

  /** A file cut within its header is not read at all. */
  method ReadCutHeader(codec: Codec, root: Option<Cid>, blocks: seq<Block>, n: nat, chunks: seq<seq<Byte>>)
    returns (streamed: Result<Car, Error>, whole: Result<BlocksRead, Error>)
    requires var header := codec.encodeHeader(Roots(root));
      n < |Frame(header)| && forall k :: 0 <= k < |header| ==> codec.decodeHeader(header[..k]).None?
    requires n <= |File(codec, root, blocks)| && Flatten(chunks) == File(codec, root, blocks)[..n]
    ensures streamed == Err(if n == 0 then NoHeader
                            else if n < |Leb128(|codec.encodeHeader(Roots(root))|)| then BadVarint
                            else BadHeader)
    ensures whole == Err(streamed.error)
  {
    var header := codec.encodeHeader(Roots(root));
    assert Flatten(chunks) == Frame(header)[..n];
    if n < |Leb128(|header|)| {
      CutVarint(header, n);
    } else {
      CutBody(header, n);
    }
    streamed := ReadCarStream(chunks, codec, true);
    whole := ReadCar(Flatten(chunks), codec, true);
  }
}
