/** CAR files of `packages/repo/src/car.ts`: the framing writer, the two byte readers, and
    the parser that runs on either. */
module Car {
  import opened Wrappers
  import opened Bytes

  // ------------------------------------------------------------- the readers

  /** A cursor on one byte string. */
  class Ui8Reader {
    const bytes: seq<Byte>
    var idx: nat
    var isDone: bool

    constructor (bytes: seq<Byte>)
      ensures Valid() && Rest() == bytes && this.bytes == bytes && !isDone
    {
      this.bytes := bytes;
      idx, isDone := 0, false;
    }

    ghost predicate Valid()
      reads this
    {
      isDone ==> idx >= |bytes|
    }

    ghost function Rest(): seq<Byte>
      reads this
    {
      Drop(bytes, idx)
    }

    method Read(bytesToRead: nat) returns (value: seq<Byte>)
      requires Valid()
      modifies this
      ensures Valid()
      ensures value == Take(old(Rest()), bytesToRead) && Rest() == Drop(old(Rest()), bytesToRead)
      ensures isDone <==> old(isDone) || Rest() == []
    {
      var from := if idx < |bytes| then idx else |bytes|;
      var to := if idx + bytesToRead < |bytes| then idx + bytesToRead else |bytes|;
      value := bytes[from..to];
      idx := idx + bytesToRead;
      if idx >= |bytes| {
        isDone := true;
      }
    }
  }

  /** A queue of chunks, filled from an iterator as bytes are needed. `pending` are the
      chunks that the iterator has still to give. */
  class BufferedReader {
    var pending: seq<seq<Byte>>
    var isDone: bool
    var chunks: seq<seq<Byte>>

    constructor (stream: seq<seq<Byte>>)
      ensures Valid() && Rest() == Flatten(stream) && !isDone
    {
      pending, isDone, chunks := stream, false, [];
    }

    /** Between reads, being done means that no byte is left. */
    ghost predicate Valid()
      reads this
    {
      isDone ==> pending == [] && Flatten(chunks) == []
    }

    ghost function Rest(): seq<Byte>
      reads this
    {
      Flatten(chunks) + Flatten(pending)
    }

    method BufferedByteLength() returns (total: nat)
      ensures total == |Flatten(chunks)|
    {
      total := 0;
      var i := 0;
      while i < |chunks|
        invariant 0 <= i <= |chunks| && total + |Flatten(chunks[i..])| == |Flatten(chunks)|
      {
        assert chunks[i..][1..] == chunks[i + 1..];
        total := total + |chunks[i]|;
        i := i + 1;
      }
    }

    method Read(bytesToRead: nat) returns (value: seq<Byte>)
      requires Valid()
      modifies this
      ensures Valid()
      ensures value == Take(old(Rest()), bytesToRead) && Rest() == Drop(old(Rest()), bytesToRead)
    {
      var buffered := BufferedByteLength();
      var bytesNeeded := bytesToRead - buffered;
      if bytesNeeded > 0 && !isDone {
        ReadUntilBuffered(bytesNeeded);
      }
      buffered := BufferedByteLength();
      var resultLength := if bytesToRead < buffered then bytesToRead else buffered;
      assert isDone || |Flatten(chunks)| >= bytesToRead;
      if resultLength <= 0 {
        return [];
      }
      value := Dequeue(resultLength);
    }

    /** Takes `resultLength` of the queued bytes: a view of the first chunk if that has them
        all, a copy otherwise. */
    method Dequeue(resultLength: nat) returns (value: seq<Byte>)
      requires 0 < resultLength <= |Flatten(chunks)|
      modifies `chunks
      ensures value == Take(old(Flatten(chunks)), resultLength) && Flatten(chunks) == Drop(old(Flatten(chunks)), resultLength)
    {
      var firstChunk := ConsumeChunk(resultLength);
      if |firstChunk| == resultLength {
        return firstChunk;
      }
      value := CopyChunks(firstChunk, resultLength);
    }

    /** Copies the first chunk, and as much of the next ones as is missing, into one buffer. */
    method CopyChunks(firstChunk: seq<Byte>, resultLength: nat) returns (value: seq<Byte>)
      requires |firstChunk| < resultLength <= |firstChunk| + |Flatten(chunks)|
      modifies `chunks
      ensures |value| == resultLength && firstChunk + old(Flatten(chunks)) == value + Flatten(chunks)
    {
      var result := new Byte[resultLength](_ => 0);
      forall k | 0 <= k < |firstChunk| { result[k] := firstChunk[k]; }
      var resultWriteIndex := |firstChunk|;
      assert result[..resultWriteIndex] == firstChunk;
      while resultWriteIndex < resultLength
        invariant 0 <= resultWriteIndex <= resultLength
        invariant firstChunk + old(Flatten(chunks)) == result[..resultWriteIndex] + Flatten(chunks)
        decreases |chunks|, resultLength - resultWriteIndex
      {
        var missingLength := resultLength - resultWriteIndex;
        ghost var before := result[..resultWriteIndex];
        var currentChunk := ConsumeChunk(missingLength);
        forall k | 0 <= k < |currentChunk| { result[resultWriteIndex + k] := currentChunk[k]; }
        assert result[..resultWriteIndex + |currentChunk|] == before + currentChunk;
        resultWriteIndex := resultWriteIndex + |currentChunk|;
      }
      value := result[..];
      assert result[..resultLength] == value;
    }

    method ReadUntilBuffered(bytesNeeded: nat)
      requires !isDone
      modifies this
      ensures Rest() == old(Rest())
      ensures isDone ==> pending == []
      ensures isDone <==> |Flatten(chunks)| < |old(Flatten(chunks))| + bytesNeeded
    {
      var bytesRead := 0;
      while bytesRead < bytesNeeded
        invariant Rest() == old(Rest()) && !isDone
        invariant |Flatten(chunks)| == |old(Flatten(chunks))| + bytesRead
        decreases |pending|
      {
        if pending == [] {
          isDone := true;
          break;
        } else {
          var next := pending[0];
          FlattenSnoc(chunks, next);
          chunks := chunks + [next];
          pending := pending[1..];
          bytesRead := bytesRead + |next|;
        }
      }
    }

    /** Takes the first chunk, or a part of it if that is longer than what is wanted. */
    method ConsumeChunk(bytesToConsume: nat) returns (chunk: seq<Byte>)
      requires 0 < bytesToConsume <= |Flatten(chunks)|
      modifies `chunks
      ensures old(Flatten(chunks)) == chunk + Flatten(chunks) && |chunk| <= bytesToConsume
      ensures |chunks| <= |old(chunks)| && (|chunk| == bytesToConsume || |chunks| < |old(chunks)|)
    {
      var firstChunk := chunks[0];
      if bytesToConsume < |firstChunk| {
        chunk := firstChunk[..bytesToConsume];
        chunks := [firstChunk[bytesToConsume..]] + chunks[1..];
      } else {
        chunks := chunks[1..];
        chunk := firstChunk;
      }
    }

    method Close()
      modifies this
      ensures Valid() && isDone && Rest() == []
    {
      pending := [];
      isDone := true;
      chunks := [];
    }
  }

  /** The interface both readers implement. */
  datatype BytesReader = Flat(flat: Ui8Reader) | Buffered(buffered: BufferedReader) {

    ghost function Repr(): object {
      match this
      case Flat(r) => r
      case Buffered(r) => r
    }

    ghost predicate Valid()
      reads Repr()
    {
      match this
      case Flat(r) => r.Valid()
      case Buffered(r) => r.Valid()
    }

    ghost function Rest(): seq<Byte>
      reads Repr()
    {
      match this
      case Flat(r) => r.Rest()
      case Buffered(r) => r.Rest()
    }

    method IsDone() returns (done: bool)
      requires Valid()
      ensures done ==> Rest() == []
    {
      match this
      case Flat(r) => done := r.isDone;
      case Buffered(r) => done := r.isDone;
    }

    /** Which reader it is makes no difference to what a read returns and leaves. */
    method Read(bytesToRead: nat) returns (value: seq<Byte>)
      requires Valid()
      modifies Repr()
      ensures Valid()
      ensures value == Take(old(Rest()), bytesToRead) && Rest() == Drop(old(Rest()), bytesToRead)
    {
      match this
      case Flat(r) => value := r.Read(bytesToRead);
      case Buffered(r) => value := r.Read(bytesToRead);
    }

    method Close()
      modifies Repr()
      ensures Buffered? ==> Valid() && Rest() == []
      ensures Flat? && old(Valid()) ==> Valid() && Rest() == old(Rest())
    {
      match this
      case Flat(r) =>
      case Buffered(r) => r.Close();
    }
  }

  /** What a series of reads of the given sizes returns. */
  function Slices(s: seq<Byte>, sizes: seq<nat>): seq<seq<Byte>>
    decreases |sizes|
  {
    if sizes == [] then [] else [Take(s, sizes[0])] + Slices(Drop(s, sizes[0]), sizes[1..])
  }

  /** Any series of reads returns the same from either reader, however the bytes are cut. */
  method ReadSeries(reader: BytesReader, sizes: seq<nat>) returns (values: seq<seq<Byte>>)
    requires reader.Valid()
    modifies reader.Repr()
    ensures reader.Valid() && values == Slices(old(reader.Rest()), sizes)
  {
    values := [];
    ghost var all := Slices(reader.Rest(), sizes);
    for i := 0 to |sizes|
      invariant reader.Valid()
      invariant all == values + Slices(reader.Rest(), sizes[i..])
    {
      SlicesStep(reader.Rest(), sizes, i, values);
      var value := reader.Read(sizes[i]);
      values := values + [value];
    }
  }

  lemma SlicesStep(s: seq<Byte>, sizes: seq<nat>, i: nat, values: seq<seq<Byte>>)
    requires i < |sizes|
    ensures values + Slices(s, sizes[i..]) == values + [Take(s, sizes[i])] + Slices(Drop(s, sizes[i]), sizes[i + 1..])
  {
    assert sizes[i..][1..] == sizes[i + 1..];
  }

  // ------------------------------------------------------------- varints

  /** The number a LEB128 group of bytes stands for. */
  function LebValue(bytes: seq<Byte>): nat {
    if bytes == [] then 0 else bytes[0] % 128 + 128 * LebValue(bytes[1..])
  }

  /** The bytes of a number: seven bits each, least significant first, all but the last
      with the high bit set. */
  function Leb128(n: nat): (bytes: seq<Byte>)
    ensures |bytes| >= 1
  {
    if n < 128 then [n] else [128 + n % 128] + Leb128(n / 128)
  }

  datatype Error = BadVarint | NoHeader | BadHeader | BadCid | CidMismatch

  datatype Varint = NoMore | Truncated | Varint(value: nat, used: nat)

  /** The index just past the first byte without the high bit, if there is one. */
  function GroupLength(s: seq<Byte>): (n: Option<nat>)
    ensures n.Some? ==> 1 <= n.value <= |s|
  {
    if s == [] then None
    else if s[0] < 128 then Some(1)
    else match GroupLength(s[1..])
      case None => None
      case Some(n) => Some(n + 1)
  }

  function ParseVarint(s: seq<Byte>): (v: Varint)
    ensures v.Varint? ==> 1 <= v.used <= |s|
  {
    if s == [] then NoMore
    else match GroupLength(s)
      case None => Truncated
      case Some(n) => Varint(LebValue(s[..n]), n)
  }

  /** A read on `all` answered `r` and left `rest`. */
  ghost predicate VarintRead(all: seq<Byte>, r: Result<Option<nat>, Error>, rest: seq<Byte>) {
    match ParseVarint(all)
    case NoMore => r == Ok(None) && rest == []
    case Truncated => r == Err(BadVarint) && rest == []
    case Varint(n, used) => r == Ok(Some(n)) && rest == all[used..]
  }

  method ReadVarint(reader: BytesReader) returns (r: Result<Option<nat>, Error>)
    requires reader.Valid()
    modifies reader.Repr()
    ensures reader.Valid() && VarintRead(old(reader.Rest()), r, reader.Rest())
  {
    var done := false;
    var bytes: seq<Byte> := [];
    ghost var all := reader.Rest();
    while !done
      invariant reader.Valid()
      invariant all == bytes + reader.Rest()
      invariant if done then IsGroup(bytes) else AllHigh(bytes)
      decreases !done, |reader.Rest()|
    {
      ghost var left := reader.Rest();
      var byte := reader.Read(1);
      if |byte| == 0 {
        assert all == bytes && reader.Rest() == [];
        NoGroup(bytes);
        return if |bytes| > 0 then Err(BadVarint) else Ok(None);
      }
      TakeDrop(left, 1);
      PushByte(bytes, byte, left, all, reader.Rest());
      bytes := bytes + byte;
      if byte[0] < 128 {
        done := true;
      }
    }
    WholeGroup(bytes, reader.Rest());
    r := Ok(Some(LebValue(bytes)));
  }

  lemma PushByte(bytes: seq<Byte>, byte: seq<Byte>, left: seq<Byte>, all: seq<Byte>, rest: seq<Byte>)
    requires AllHigh(bytes) && |byte| == 1 && all == bytes + left && left == byte + rest
    ensures all == bytes + byte + rest
    ensures if byte[0] < 128 then IsGroup(bytes + byte) else AllHigh(bytes + byte)
  {
    assert bytes + (byte + rest) == bytes + byte + rest;
  }

  ghost predicate AllHigh(bytes: seq<Byte>) {
    forall i :: 0 <= i < |bytes| ==> bytes[i] >= 128
  }

  /** One complete varint: the last byte, and only that, has no high bit. */
  ghost predicate IsGroup(bytes: seq<Byte>) {
    |bytes| > 0 && bytes[|bytes| - 1] < 128 && forall i :: 0 <= i < |bytes| - 1 ==> bytes[i] >= 128
  }

  lemma {:induction false} GroupPrefix(bytes: seq<Byte>, rest: seq<Byte>)
    requires IsGroup(bytes)
    ensures GroupLength(bytes + rest) == Some(|bytes|)
  {
    if |bytes| > 1 {
      GroupPrefix(bytes[1..], rest);
      assert (bytes + rest)[1..] == bytes[1..] + rest;
    }
  }

  lemma WholeGroup(bytes: seq<Byte>, rest: seq<Byte>)
    requires IsGroup(bytes)
    ensures ParseVarint(bytes + rest) == Varint(LebValue(bytes), |bytes|) && (bytes + rest)[|bytes|..] == rest
    ensures VarintRead(bytes + rest, Ok(Some(LebValue(bytes))), rest)
  {
    GroupPrefix(bytes, rest);
    assert (bytes + rest)[..|bytes|] == bytes;
  }

  lemma NoGroup(bytes: seq<Byte>)
    requires AllHigh(bytes)
    ensures VarintRead(bytes, if |bytes| > 0 then Err(BadVarint) else Ok(None), [])
  {
    GroupNone(bytes);
  }

  lemma {:induction false} GroupNone(s: seq<Byte>)
    requires AllHigh(s)
    ensures GroupLength(s).None?
  {
    if s != [] { GroupNone(s[1..]); }
  }

  /** Reading a varint gives back the number written, and takes exactly the bytes written. */
  lemma VarintRoundTrip(n: nat, rest: seq<Byte>)
    ensures ParseVarint(Leb128(n) + rest) == Varint(n, |Leb128(n)|)
    ensures (Leb128(n) + rest)[|Leb128(n)|..] == rest
  {
    LebRoundTrip(n);
    WholeGroup(Leb128(n), rest);
  }

  lemma LebCons(b: Byte, t: seq<Byte>)
    ensures LebValue([b] + t) == b % 128 + 128 * LebValue(t)
    ensures b >= 128 && IsGroup(t) ==> IsGroup([b] + t)
  {
    assert ([b] + t)[1..] == t;
  }

  lemma {:induction false} LebRoundTrip(n: nat)
    ensures IsGroup(Leb128(n)) && LebValue(Leb128(n)) == n
  {
    if n < 128 {
      LebCons(n, []);
      assert [n] + [] == Leb128(n);
    } else {
      LebRoundTrip(n / 128);
      LebCons(128 + n % 128, Leb128(n / 128));
    }
  }

  /** Least significant bits first: the usual example. */
  lemma {:induction false} LebOf300()
    ensures Leb128(300) == [0xAC, 2] && LebValue([0xAC, 2]) == 300
  {
    LebRoundTrip(300);
  }

  // -------------------------------------------------------------- parsing

  datatype Cid = Cid(bytes: seq<Byte>)

  datatype Block = Block(cid: Cid, bytes: seq<Byte>)

  /** The libraries the parser calls: the CBOR header codec, `decodeCid`, and the test that
      a CID is the hash of some bytes. A missing result is a thrown error. */
  datatype Codec = Codec(
    encodeHeader: seq<Cid> -> seq<Byte>,
    decodeHeader: seq<Byte> -> Option<seq<Cid>>,
    decodeCid: seq<Byte> -> Option<Cid>,
    isCidForBytes: (Cid, seq<Byte>) -> bool)

  /** Blocks as they are yielded, and how the generator ends: normally, or by throwing. */
  datatype Stream = Stream(blocks: seq<Block>, thrown: Option<Error>)

  function Yield(b: Block, s: Stream): Stream {
    s.(blocks := [b] + s.blocks)
  }

  const CID_LENGTH: nat := 36

  /** One turn of the generator's loop: the end of the file, an error, or a block and what
      is left after it. */
  datatype Turn = End | Throw(error: Error) | Got(block: Block, rest: seq<Byte>)

  function NextBlock(codec: Codec, verify: bool, s: seq<Byte>): (t: Turn)
    ensures t.Got? ==> |t.rest| < |s|
  {
    match ParseVarint(s)
    case NoMore => End
    case Truncated => Throw(BadVarint)
    case Varint(size, used) =>
      var body := Take(s[used..], size);
      match codec.decodeCid(Take(body, CID_LENGTH))
      case None => Throw(BadCid)
      case Some(cid) =>
        var block := Block(cid, Drop(body, CID_LENGTH));
        if verify && !codec.isCidForBytes(cid, block.bytes) then Throw(CidMismatch)
        else Got(block, Drop(s[used..], size))
  }

  /** The blocks in what is left of a file after its header. */
  function ParseBlocks(codec: Codec, verify: bool, s: seq<Byte>): Stream
    decreases |s|
  {
    match NextBlock(codec, verify, s)
    case End => Stream([], None)
    case Throw(e) => Stream([], Some(e))
    case Got(block, rest) => Yield(block, ParseBlocks(codec, verify, rest))
  }

  /** The body of the loop, together with the wrapper that verifies a block's contents
      before the next one is asked for. */
  method ReadBlock(reader: BytesReader, codec: Codec, verify: bool) returns (r: Result<Option<Block>, Error>)
    requires reader.Valid()
    modifies reader.Repr()
    ensures reader.Valid()
    ensures match NextBlock(codec, verify, old(reader.Rest()))
      case End => r == Ok(None)
      case Throw(e) => r == Err(e)
      case Got(block, rest) => r == Ok(Some(block)) && reader.Rest() == rest
  {
    var blockSize := ReadVarint(reader);
    if blockSize.Err? {
      return Err(blockSize.error);
    }
    if blockSize.value.None? {
      return Ok(None);
    }
    var blockBytes := reader.Read(blockSize.value.value);
    var cid := codec.decodeCid(Take(blockBytes, CID_LENGTH));
    if cid.None? {
      return Err(BadCid);
    }
    var block := Block(cid.value, Drop(blockBytes, CID_LENGTH));
    if verify && !codec.isCidForBytes(block.cid, block.bytes) {
      return Err(CidMismatch);
    }
    r := Ok(Some(block));
  }

  /** What a generator that has yielded `blocks` yields altogether. */
  function After(blocks: seq<Block>, s: Stream): Stream {
    s.(blocks := blocks + s.blocks)
  }

  lemma AfterYield(blocks: seq<Block>, b: Block, s: Stream)
    ensures After(blocks, Yield(b, s)) == After(blocks + [b], s)
  {
    assert blocks + ([b] + s.blocks) == blocks + [b] + s.blocks;
  }

  /** The generator, pulled to its end. */
  method ReadCarBlocks(reader: BytesReader, codec: Codec, verify: bool) returns (out: Stream)
    requires reader.Valid()
    modifies reader.Repr()
    ensures out == ParseBlocks(codec, verify, old(reader.Rest()))
  {
    ghost var all := reader.Rest();
    var blocks: seq<Block> := [];
    var done := reader.IsDone();
    while !done
      invariant reader.Valid() && (done ==> reader.Rest() == [])
      invariant ParseBlocks(codec, verify, all) == After(blocks, ParseBlocks(codec, verify, reader.Rest()))
      decreases !done, |reader.Rest()|
    {
      var next := ReadBlock(reader, codec, verify);
      if next.Err? {
        reader.Close();
        return Stream(blocks, Some(next.error));
      }
      if next.value.None? {
        break;
      }
      AfterYield(blocks, next.value.value, ParseBlocks(codec, verify, reader.Rest()));
      blocks := blocks + [next.value.value];
      done := reader.IsDone();
    }
    reader.Close();
    out := Stream(blocks, None);
  }

  datatype Car = Car(roots: seq<Cid>, blocks: Stream)

  function ParseCar(codec: Codec, verify: bool, s: seq<Byte>): Result<Car, Error> {
    match ParseVarint(s)
    case NoMore => Err(NoHeader)
    case Truncated => Err(BadVarint)
    case Varint(size, used) =>
      match codec.decodeHeader(Take(s[used..], size))
      case None => Err(BadHeader)
      case Some(roots) => Ok(Car(roots, ParseBlocks(codec, verify, Drop(s[used..], size))))
  }

  /** `readCarReader`, its block generator pulled to the end. */
  method ReadCarReader(reader: BytesReader, codec: Codec, verify: bool) returns (r: Result<Car, Error>)
    requires reader.Valid()
    modifies reader.Repr()
    ensures r == ParseCar(codec, verify, old(reader.Rest()))
  {
    var headerSize := ReadVarint(reader);
    if headerSize.Err? {
      reader.Close();
      return Err(headerSize.error);
    }
    if headerSize.value.None? {
      reader.Close();
      return Err(NoHeader);
    }
    var headerBytes := reader.Read(headerSize.value.value);
    var roots := codec.decodeHeader(headerBytes);
    if roots.None? {
      reader.Close();
      return Err(BadHeader);
    }
    var blocks := ReadCarBlocks(reader, codec, verify);
    r := Ok(Car(roots.value, blocks));
  }

  /** `readCarStream`: what is read does not depend on how the file was cut into chunks. */
  method ReadCarStream(chunks: seq<seq<Byte>>, codec: Codec, verify: bool) returns (r: Result<Car, Error>)
    ensures r == ParseCar(codec, verify, Flatten(chunks))
  {
    var reader := new BufferedReader(chunks);
    r := ReadCarReader(Buffered(reader), codec, verify);
  }

  /** A `Map` keyed by CID, in insertion order: setting a known key keeps its place. */
  function MapSet(entries: seq<Block>, b: Block): seq<Block> {
    if entries == [] then [b]
    else if entries[0].cid == b.cid then [b] + entries[1..]
    else [entries[0]] + MapSet(entries[1..], b)
  }

  function Collect(blocks: seq<Block>): seq<Block> {
    if blocks == [] then [] else MapSet(Collect(blocks[..|blocks| - 1]), blocks[|blocks| - 1])
  }

  /** `for await (block of blocks) blockMap.set(block.cid, block.bytes)`. */
  method CollectBlocks(blocks: seq<Block>) returns (blockMap: seq<Block>)
    ensures blockMap == Collect(blocks)
  {
    blockMap := [];
    for i := 0 to |blocks|
      invariant blockMap == Collect(blocks[..i])
    {
      assert blocks[..i + 1][..i] == blocks[..i];
      blockMap := MapSet(blockMap, blocks[i]);
    }
    assert blocks[..|blocks|] == blocks;
  }

  datatype BlocksRead = BlocksRead(roots: seq<Cid>, blockMap: seq<Block>)

  /** A whole file, or the first error in it. */
  function Whole(car: Result<Car, Error>): Result<BlocksRead, Error> {
    if car.Err? then Err(car.error)
    else if car.value.blocks.thrown.Some? then Err(car.value.blocks.thrown.value)
    else Ok(BlocksRead(car.value.roots, Collect(car.value.blocks.blocks)))
  }

  /** `readCar`. */
  method ReadCar(bytes: seq<Byte>, codec: Codec, verify: bool) returns (r: Result<BlocksRead, Error>)
    ensures r == Whole(ParseCar(codec, verify, bytes))
  {
    var reader := new Ui8Reader(bytes);
    var car := ReadCarReader(Flat(reader), codec, verify);
    if car.Err? {
      return Err(car.error);
    }
    if car.value.blocks.thrown.Some? {
      return Err(car.value.blocks.thrown.value);
    }
    var blockMap := CollectBlocks(car.value.blocks.blocks);
    r := Ok(BlocksRead(car.value.roots, blockMap));
  }

  // -------------------------------------------------------------- writing

  function Frame(body: seq<Byte>): seq<Byte> {
    Leb128(|body|) + body
  }

  function Frames(blocks: seq<Block>): seq<Byte> {
    if blocks == [] then [] else Frame(blocks[0].cid.bytes + blocks[0].bytes) + Frames(blocks[1..])
  }

  function Roots(root: Option<Cid>): seq<Cid> {
    if root.Some? then [root.value] else []
  }

  /** The bytes that `WriteCarStream` writes. */
  function File(codec: Codec, root: Option<Cid>, blocks: seq<Block>): seq<Byte> {
    Frame(codec.encodeHeader(Roots(root))) + Frames(blocks)
  }

  lemma FlattenBlock(chunks: seq<seq<Byte>>, size: seq<Byte>, b: Block)
    ensures Flatten(chunks + [size] + [b.cid.bytes] + [b.bytes]) == Flatten(chunks) + (size + (b.cid.bytes + b.bytes))
  {
    FlattenSnoc(chunks, size);
    FlattenSnoc(chunks + [size], b.cid.bytes);
    FlattenSnoc(chunks + [size] + [b.cid.bytes], b.bytes);
  }

  lemma FramesStep(blocks: seq<Block>, i: nat)
    requires i < |blocks|
    ensures Frames(blocks[i..]) == Frame(blocks[i].cid.bytes + blocks[i].bytes) + Frames(blocks[i + 1..])
  {
    assert blocks[i..][1..] == blocks[i + 1..];
  }

  /** `writeCarStream`: the chunks it yields. */
  method WriteCarStream(root: Option<Cid>, blocks: seq<Block>, codec: Codec) returns (chunks: seq<seq<Byte>>)
    ensures Flatten(chunks) == File(codec, root, blocks)
    ensures |chunks| == 2 + 3 * |blocks|
  {
    var header := codec.encodeHeader(Roots(root));
    chunks := [Leb128(|header|), header];
    FlattenSnoc([Leb128(|header|)], header);
    FlattenOne(Leb128(|header|));
    assert [Leb128(|header|)] + [header] == chunks;
    for i := 0 to |blocks|
      invariant |chunks| == 2 + 3 * i
      invariant Flatten(chunks) + Frames(blocks[i..]) == Frame(header) + Frames(blocks)
    {
      var block := blocks[i];
      var size := Leb128(|block.cid.bytes| + |block.bytes|);
      FlattenBlock(chunks, size, block);
      FramesStep(blocks, i);
      chunks := chunks + [size] + [block.cid.bytes] + [block.bytes];
    }
  }

  // ----------------------------------------------------------- round trip

  /** A block whose CID takes up exactly the bytes that the parser takes for one. */
  predicate Framed(b: Block) {
    |b.cid.bytes| == CID_LENGTH || (|b.cid.bytes| < CID_LENGTH && b.bytes == [])
  }

  /** What is known of the libraries: they decode what they encoded, and a decoded CID is
      the bytes it was decoded from. */
  ghost predicate Inverse(codec: Codec) {
    && (forall roots :: codec.decodeHeader(codec.encodeHeader(roots)) == Some(roots))
    && (forall bytes :: codec.decodeCid(bytes).Some? ==> codec.decodeCid(bytes).value.bytes == bytes)
  }

  lemma ParseFrame(body: seq<Byte>, rest: seq<Byte>)
    ensures ParseVarint(Frame(body) + rest) == Varint(|body|, |Leb128(|body|)|)
    ensures var after := (Frame(body) + rest)[|Leb128(|body|)|..];
      Take(after, |body|) == body && Drop(after, |body|) == rest
  {
    VarintRoundTrip(|body|, body + rest);
    assert Frame(body) + rest == Leb128(|body|) + (body + rest);
  }

  lemma CidOfFramed(b: Block)
    ensures Framed(b) <==> Take(b.cid.bytes + b.bytes, CID_LENGTH) == b.cid.bytes
    ensures Framed(b) ==> Drop(b.cid.bytes + b.bytes, CID_LENGTH) == b.bytes
  {
    var body := b.cid.bytes + b.bytes;
    if |b.cid.bytes| <= CID_LENGTH {
      assert body[..|b.cid.bytes|] == b.cid.bytes;
    }
  }

  lemma NextFrame(codec: Codec, verify: bool, body: seq<Byte>, rest: seq<Byte>)
    ensures NextBlock(codec, verify, Frame(body) + rest) ==
      match codec.decodeCid(Take(body, CID_LENGTH))
      case None => Throw(BadCid)
      case Some(cid) =>
        if verify && !codec.isCidForBytes(cid, Drop(body, CID_LENGTH)) then Throw(CidMismatch)
        else Got(Block(cid, Drop(body, CID_LENGTH)), rest)
  {
    ParseFrame(body, rest);
  }

  predicate Readable(codec: Codec, verify: bool, b: Block) {
    Framed(b) && (verify ==> codec.isCidForBytes(b.cid, b.bytes))
  }

  lemma NextReadable(codec: Codec, verify: bool, b: Block, rest: seq<Byte>)
    requires Inverse(codec) && codec.decodeCid(b.cid.bytes) == Some(b.cid)
    ensures NextBlock(codec, verify, Frame(b.cid.bytes + b.bytes) + rest) == Got(b, rest) <==> Readable(codec, verify, b)
  {
    NextFrame(codec, verify, b.cid.bytes + b.bytes, rest);
    CidOfFramed(b);
  }

  lemma {:induction false} ParseStep(codec: Codec, verify: bool, b: Block, rest: seq<Block>)
    ensures ParseBlocks(codec, verify, Frames([b] + rest)) == Stream([b] + rest, None) <==>
      NextBlock(codec, verify, Frame(b.cid.bytes + b.bytes) + Frames(rest)) == Got(b, Frames(rest))
      && ParseBlocks(codec, verify, Frames(rest)) == Stream(rest, None)
  {
    var s := Frames([b] + rest);
    assert ([b] + rest)[1..] == rest;
    NextFrame(codec, verify, b.cid.bytes + b.bytes, Frames(rest));
  }

  /** Parsing the frames of some blocks gives those blocks back, in order and to the end,
      exactly when every CID fills the place the parser reserves for it and, if contents
      are verified, matches its bytes. */
  lemma {:induction false} BlocksRoundTripExactly(codec: Codec, verify: bool, blocks: seq<Block>)
    requires Inverse(codec)
    requires forall i :: 0 <= i < |blocks| ==> codec.decodeCid(blocks[i].cid.bytes) == Some(blocks[i].cid)
    ensures ParseBlocks(codec, verify, Frames(blocks)) == Stream(blocks, None) <==>
      forall i :: 0 <= i < |blocks| ==> Readable(codec, verify, blocks[i])
  {
    if blocks != [] {
      var b, rest := blocks[0], blocks[1..];
      assert blocks == [b] + rest;
      BlocksRoundTripExactly(codec, verify, rest);
      NextReadable(codec, verify, b, Frames(rest));
      ParseStep(codec, verify, b, rest);
    }
  }

  predicate Distinct(blocks: seq<Block>) {
    forall i, j :: 0 <= i < j < |blocks| ==> blocks[i].cid != blocks[j].cid
  }

  lemma {:induction false} MapSetNew(entries: seq<Block>, b: Block)
    requires forall i :: 0 <= i < |entries| ==> entries[i].cid != b.cid
    ensures MapSet(entries, b) == entries + [b]
  {
    if entries != [] {
      MapSetNew(entries[1..], b);
      assert entries == [entries[0]] + entries[1..];
    }
  }

  /** Setting an entry replaces the one of the same CID. */
  lemma {:induction false} MapSetHas(entries: seq<Block>, b: Block, e: Block)
    requires Distinct(entries)
    ensures e in MapSet(entries, b) <==> e == b || (e in entries && e.cid != b.cid)
  {
    if entries != [] {
      var h, t := entries[0], entries[1..];
      assert entries == [h] + t;
      assert forall i :: 0 <= i < |t| ==> t[i] == entries[i + 1] && t[i].cid != h.cid;
      if h.cid == b.cid {
        assert e in [b] + t <==> e == b || e in t;
      } else {
        MapSetHas(t, b, e);
        assert e in [h] + MapSet(t, b) <==> e == h || e in MapSet(t, b);
      }
    }
  }

  /** A map never has two entries for one CID. */
  lemma {:induction false} MapSetDistinct(entries: seq<Block>, b: Block)
    requires Distinct(entries)
    ensures Distinct(MapSet(entries, b))
  {
    if entries != [] && entries[0].cid != b.cid {
      MapSetDistinct(entries[1..], b);
      forall e | e in MapSet(entries[1..], b) ensures e.cid != entries[0].cid {
        MapSetHas(entries[1..], b, e);
      }
    }
  }

  function Cids(blocks: seq<Block>): seq<Cid> {
    seq(|blocks|, i requires 0 <= i < |blocks| => blocks[i].cid)
  }

  lemma CidsCons(h: Block, t: seq<Block>)
    ensures Cids([h] + t) == [h.cid] + Cids(t)
  {
  }

  lemma PlacesStep(h: Block, t: seq<Block>, b: Block)
    requires h.cid != b.cid
    requires Cids(MapSet(t, b)) == if b.cid in Cids(t) then Cids(t) else Cids(t) + [b.cid]
    ensures var all := [h.cid] + Cids(t);
      Cids([h] + MapSet(t, b)) == if b.cid in all then all else all + [b.cid]
  {
    CidsCons(h, MapSet(t, b));
    assert [h.cid] + (Cids(t) + [b.cid]) == [h.cid] + Cids(t) + [b.cid];
  }

  /** Setting an entry leaves every CID where it was, and puts a new one last. */
  lemma {:induction false} MapSetPlaces(entries: seq<Block>, b: Block)
    ensures Cids(MapSet(entries, b)) == if b.cid in Cids(entries) then Cids(entries) else Cids(entries) + [b.cid]
  {
    if entries == [] {
      assert Cids([b]) == [b.cid] && Cids(entries) == [];
    } else {
      var h, t := entries[0], entries[1..];
      assert Cids(entries) == [h.cid] + Cids(t) by {
        CidsCons(h, t);
        assert entries == [h] + t;
      }
      if h.cid == b.cid {
        CidsCons(b, t);
      } else {
        MapSetPlaces(t, b);
        PlacesStep(h, t, b);
      }
    }
  }

  /** Block `i` is the last one of its CID. */
  ghost predicate LastOfItsCid(blocks: seq<Block>, i: nat) {
    i < |blocks| && forall j :: i < j < |blocks| ==> blocks[j].cid != blocks[i].cid
  }

  lemma LastOfItsCidSnoc(init: seq<Block>, last: Block, i: nat)
    ensures LastOfItsCid(init + [last], i) <==>
      if i < |init| then LastOfItsCid(init, i) && init[i].cid != last.cid else i == |init|
  {
    var s := init + [last];
    assert s[|init|] == last && forall j :: 0 <= j < |init| ==> s[j] == init[j];
  }

  ghost predicate IsLastOfItsCid(blocks: seq<Block>, b: Block) {
    exists i: nat :: LastOfItsCid(blocks, i) && blocks[i] == b
  }

  lemma IsLastSnoc(init: seq<Block>, last: Block, b: Block)
    ensures IsLastOfItsCid(init + [last], b) <==> b == last || (IsLastOfItsCid(init, b) && b.cid != last.cid)
  {
    var s := init + [last];
    if IsLastOfItsCid(s, b) {
      var i: nat :| LastOfItsCid(s, i) && s[i] == b;
      LastOfItsCidSnoc(init, last, i);
      if i < |init| { assert init[i] == b; }
    }
    if b == last {
      LastOfItsCidSnoc(init, last, |init|);
    } else if IsLastOfItsCid(init, b) && b.cid != last.cid {
      var i: nat :| LastOfItsCid(init, i) && init[i] == b;
      LastOfItsCidSnoc(init, last, i);
      assert s[i] == b;
    }
  }

  /** The block map has the last block of each CID, and no other. */
  lemma {:induction false} CollectKeepsLast(blocks: seq<Block>, b: Block)
    ensures b in Collect(blocks) <==> IsLastOfItsCid(blocks, b)
  {
    if blocks != [] {
      var init, last := blocks[..|blocks| - 1], blocks[|blocks| - 1];
      assert blocks == init + [last];
      CollectKeepsLast(init, b);
      CollectIsDistinct(init);
      MapSetHas(Collect(init), last, b);
      IsLastSnoc(init, last, b);
    }
  }

  lemma {:induction false} CollectIsDistinct(blocks: seq<Block>)
    ensures Distinct(Collect(blocks))
  {
    if blocks != [] {
      CollectIsDistinct(blocks[..|blocks| - 1]);
      MapSetDistinct(Collect(blocks[..|blocks| - 1]), blocks[|blocks| - 1]);
    }
  }

  lemma {:induction false} CollectNew(blocks: seq<Block>)
    requires Distinct(blocks)
    ensures Collect(blocks) == blocks
  {
    if blocks != [] {
      var init, b := blocks[..|blocks| - 1], blocks[|blocks| - 1];
      CollectNew(init);
      MapSetNew(init, b);
      assert blocks == init + [b];
    }
  }

  /** The block map lists the blocks as they came exactly when no CID came twice. */
  lemma CollectDistinct(blocks: seq<Block>)
    ensures Collect(blocks) == blocks <==> Distinct(blocks)
    ensures Distinct(Collect(blocks))
  {
    CollectIsDistinct(blocks);
    if Distinct(blocks) { CollectNew(blocks); }
  }

  /** A block with a 36-byte CID that matches its contents. */
  predicate Proper(codec: Codec, b: Block) {
    |b.cid.bytes| == CID_LENGTH && codec.decodeCid(b.cid.bytes) == Some(b.cid) && codec.isCidForBytes(b.cid, b.bytes)
  }

  /** Writing and then reading gives back the root and the blocks, in order and to the end. */
  lemma {:induction false} CarRoundTrip(codec: Codec, root: Option<Cid>, blocks: seq<Block>)
    requires Inverse(codec) && forall i :: 0 <= i < |blocks| ==> Proper(codec, blocks[i])
    ensures ParseCar(codec, true, File(codec, root, blocks)) == Ok(Car(if root.Some? then [root.value] else [], Stream(blocks, None)))
  {
    BlocksRoundTripExactly(codec, true, blocks);
    ParseFrame(codec.encodeHeader(Roots(root)), Frames(blocks));
  }

  /** And so does reading the whole file into a map, if no CID was written twice. */
  lemma {:induction false} WholeRoundTrip(codec: Codec, root: Option<Cid>, blocks: seq<Block>)
    requires Inverse(codec) && forall i :: 0 <= i < |blocks| ==> Proper(codec, blocks[i])
    ensures Whole(ParseCar(codec, true, File(codec, root, blocks))) == Ok(BlocksRead(if root.Some? then [root.value] else [], blocks)) <==>
      Distinct(blocks)
  {
    CarRoundTrip(codec, root, blocks);
    CollectDistinct(blocks);
  }

  /** So what a file was written from is read from the stream of its bytes, re-cut in any way,
      and, without repeated CIDs, from the whole file. */
  method WriteThenRead(codec: Codec, root: Option<Cid>, blocks: seq<Block>, recut: seq<seq<Byte>>)
    returns (written: seq<seq<Byte>>, streamed: Result<Car, Error>, whole: Result<BlocksRead, Error>)
    requires Inverse(codec) && forall i :: 0 <= i < |blocks| ==> Proper(codec, blocks[i])
    requires Flatten(recut) == File(codec, root, blocks)
    ensures Flatten(written) == Flatten(recut)
    ensures streamed == Ok(Car(if root.Some? then [root.value] else [], Stream(blocks, None)))
    ensures whole == Ok(BlocksRead(if root.Some? then [root.value] else [], blocks)) <==> Distinct(blocks)
  {
    written := WriteCarStream(root, blocks, codec);
    streamed := ReadCarStream(recut, codec, true);
    whole := ReadCar(Flatten(written), codec, true);
    CarRoundTrip(codec, root, blocks);
    WholeRoundTrip(codec, root, blocks);
  }

  // --------------------------------------------------------- blocks that are lost

  /** A CID that is too long, such as one with a codec code of two bytes and a SHA-256 digest:
      what its first 36 bytes decode to, if anything, is read as the CID, and the rest as part
      of the contents. */
  lemma {:induction false} LongCidIsCut(codec: Codec, verify: bool, b: Block)
    requires Inverse(codec) && |b.cid.bytes| > CID_LENGTH
    ensures ParseBlocks(codec, verify, Frames([b])) ==
      match codec.decodeCid(b.cid.bytes[..CID_LENGTH])
      case None => Stream([], Some(BadCid))
      case Some(cid) =>
        var contents := b.cid.bytes[CID_LENGTH..] + b.bytes;
        if verify && !codec.isCidForBytes(cid, contents) then Stream([], Some(CidMismatch))
        else Stream([Block(cid, contents)], None)
    ensures ParseBlocks(codec, verify, Frames([b])) != Stream([b], None)
  {
    var body := b.cid.bytes + b.bytes;
    assert Take(body, CID_LENGTH) == b.cid.bytes[..CID_LENGTH];
    assert Drop(body, CID_LENGTH) == b.cid.bytes[CID_LENGTH..] + b.bytes;
    NextFrame(codec, verify, body, []);
    assert Frames([b]) == Frame(body) + [];
    assert ParseBlocks(codec, verify, []) == Stream([], None);
  }
}
