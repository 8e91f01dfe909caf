/**
 * The chunked compressed file: magic, chunk size and end of the last chunk, then the compressed
 * chunks, then the index of the chunks.
 */
module ChunkFile {
  import opened Bits
  import opened Trace
  import opened FlatMaps

  // ---------------------------------------------------------------- 64-bit little-endian words

  function Pow256(n: nat): (p: nat)
    ensures p >= 1
  {
    if n == 0 then 1 else 256 * Pow256(n - 1)
  }

  function Encode(x: nat, n: nat): (r: seq<Byte>)
    ensures |r| == n
  {
    if n == 0 then [] else [x % 256] + Encode(x / 256, n - 1)
  }

  function Decode(bytes: seq<Byte>): nat {
    if bytes == [] then 0 else bytes[0] + 256 * Decode(bytes[1..])
  }

  lemma {:induction false} DecodeEncode(x: nat, n: nat)
    requires x < Pow256(n)
    ensures Decode(Encode(x, n)) == x
  {
    if n > 0 {
      DecodeEncode(x / 256, n - 1);
    }
  }

  function Word(x: nat): (r: seq<Byte>)
    ensures |r| == 8
  {
    Encode(x, 8)
  }

  lemma WordRoundTrip(x: nat)
    requires x < U64
    ensures Decode(Word(x)) == x
  {
    assert Pow256(4) == 0x1_0000_0000;
    assert Pow256(8) == U64;
    DecodeEncode(x, 8);
  }

  // ---------------------------------------------------------------- layout

  // "ZSTF"
  const MAGIC: seq<Byte> := [90, 83, 84, 70]

  // Offsets of the word that holds the end of the last chunk, and of the first chunk.
  const END_FIELD: nat := 12
  const PROLOGUE_SIZE: nat := 20

  datatype ChunkIndex = ChunkIndex(offset: nat, startPc: nat, size: nat)

  // A chunk's uncompressed bytes and the PC of its first instruction.
  datatype Chunk = Chunk(bytes: seq<Byte>, startPc: nat)

  // One chunk is compressed in one shot and draws nothing from the chunks before it.
  datatype Codec = Codec(compress: seq<Byte> -> seq<Byte>, decompress: seq<Byte> -> seq<Byte>)

  ghost predicate Lossless(c: Codec) {
    forall x :: c.decompress(c.compress(x)) == x
  }

  function EntryBytes(e: ChunkIndex): (r: seq<Byte>)
    ensures |r| == 24
  {
    Word(e.offset) + Word(e.startPc) + Word(e.size)
  }

  function EntriesBytes(es: seq<ChunkIndex>): (r: seq<Byte>)
    ensures |r| == 24 * |es|
  {
    if es == [] then [] else EntriesBytes(es[..|es| - 1]) + EntryBytes(es[|es| - 1])
  }

  function IndexBytes(es: seq<ChunkIndex>): (r: seq<Byte>)
    ensures |r| == 8 + 24 * |es|
  {
    Word(|es|) + EntriesBytes(es)
  }

  function Data(c: Codec, chunks: seq<Chunk>): seq<Byte> {
    if chunks == [] then [] else Data(c, chunks[..|chunks| - 1]) + c.compress(chunks[|chunks| - 1].bytes)
  }

  function End(c: Codec, chunks: seq<Chunk>): nat { PROLOGUE_SIZE + |Data(c, chunks)| }

  function Index(c: Codec, chunks: seq<Chunk>): (es: seq<ChunkIndex>)
    ensures |es| == |chunks|
  {
    if chunks == [] then []
    else
      var before, last := chunks[..|chunks| - 1], chunks[|chunks| - 1];
      Index(c, before) + [ChunkIndex(End(c, before), last.startPc, |last.bytes|)]
  }

  function Prologue(chunkSize: nat, end: nat): (r: seq<Byte>)
    ensures |r| == PROLOGUE_SIZE
  {
    MAGIC + Word(chunkSize) + Word(end)
  }

  /** The file that holds exactly the given chunks; before the first one its end word is zero. */
  function FileOf(c: Codec, chunkSize: nat, chunks: seq<Chunk>): seq<Byte> {
    Prologue(chunkSize, EndWord(c, chunks)) + Data(c, chunks) + IndexPart(c, chunks)
  }

  function EndWord(c: Codec, chunks: seq<Chunk>): nat { if chunks == [] then 0 else End(c, chunks) }

  function IndexPart(c: Codec, chunks: seq<Chunk>): (r: seq<Byte>)
    ensures |r| <= 8 + 24 * |chunks|
  {
    if chunks == [] then [] else IndexBytes(Index(c, chunks))
  }

  /** Writing over a file from a position inside it, or extending it. */
  function WriteAt(file: seq<Byte>, pos: nat, data: seq<Byte>): (r: seq<Byte>)
    requires pos <= |file|
    ensures |r| >= pos + |data| && r[pos..pos + |data|] == data && r[..pos] == file[..pos]
  {
    file[..pos] + data + if pos + |data| <= |file| then file[pos + |data|..] else []
  }

  lemma WriteAtTwice(file: seq<Byte>, pos: nat, a: seq<Byte>, b: seq<Byte>)
    requires pos <= |file|
    ensures WriteAt(WriteAt(file, pos, a), pos + |a|, b) == WriteAt(file, pos, a + b)
  {
  }

  lemma WriteAtCovers(file: seq<Byte>, pos: nat, data: seq<Byte>)
    requires pos <= |file| <= pos + |data|
    ensures WriteAt(file, pos, data) == file[..pos] + data
  {
  }

  lemma PatchPrologue(chunkSize: nat, before: nat, end: nat, data: seq<Byte>, index: seq<Byte>)
    ensures WriteAt(Prologue(chunkSize, before) + data + index, END_FIELD, Word(end))
            == Prologue(chunkSize, end) + data + index
  {
    hide Word;
    assert Prologue(chunkSize, before) + data + index == MAGIC + Word(chunkSize) + (Word(before) + data + index);
    assert Prologue(chunkSize, end) + data + index == MAGIC + Word(chunkSize) + Word(end) + (data + index);
  }

  /**
   * Finishing a chunk: its data goes over the old index, a new index follows, and the header is
   * patched.  The result is exactly the file of one chunk more: no byte of the old index is left.
   */
  lemma FinishChunk(c: Codec, chunkSize: nat, chunks: seq<Chunk>, chunk: Chunk)
    ensures var file, end := FileOf(c, chunkSize, chunks), End(c, chunks + [chunk]);
            && End(c, chunks) <= |file| && end == End(c, chunks) + |c.compress(chunk.bytes)|
            && var written := WriteAt(file, End(c, chunks), c.compress(chunk.bytes));
               var indexed := WriteAt(written, end, IndexBytes(Index(c, chunks + [chunk])));
               WriteAt(indexed, END_FIELD, Word(end)) == FileOf(c, chunkSize, chunks + [chunk])
  {
    hide IndexBytes, Index, Word, Prologue, WriteAt, EndWord, IndexPart;
    var all, d := chunks + [chunk], c.compress(chunk.bytes);
    assert all[..|all| - 1] == chunks;
    assert Data(c, all) == Data(c, chunks) + d;
    hide Data;
    var index := IndexBytes(Index(c, all));
    SomeChunks(c, all);
    Overwrite(Prologue(chunkSize, EndWord(c, chunks)), Data(c, chunks), IndexPart(c, chunks), d, index);
    PatchPrologue(chunkSize, EndWord(c, chunks), End(c, all), Data(c, all), index);
  }

  lemma NoData(c: Codec)
    ensures Data(c, []) == []
  {
  }

  lemma SomeChunks(c: Codec, chunks: seq<Chunk>)
    requires chunks != []
    ensures EndWord(c, chunks) == End(c, chunks) && IndexPart(c, chunks) == IndexBytes(Index(c, chunks))
  {
  }

  // New data and a new, longer index replace the old index completely.
  lemma Overwrite(p: seq<Byte>, data: seq<Byte>, oldIndex: seq<Byte>, d: seq<Byte>, index: seq<Byte>)
    requires |oldIndex| <= |d| + |index|
    ensures var pos := |p| + |data|;
            WriteAt(WriteAt(p + data + oldIndex, pos, d), pos + |d|, index) == p + (data + d) + index
  {
    var file, pos := p + data + oldIndex, |p| + |data|;
    WriteAtTwice(file, pos, d, index);
    WriteAtCovers(file, pos, d + index);
    assert file[..pos] == p + data;
    assert (p + data) + (d + index) == p + (data + d) + index;
  }

  // ---------------------------------------------------------------- reading the file back

  datatype Opened = Opened(chunkSize: nat, end: nat, index: seq<ChunkIndex>)

  function DecodeEntry(b: seq<Byte>): ChunkIndex
    requires |b| == 24
  {
    ChunkIndex(Decode(b[..8]), Decode(b[8..16]), Decode(b[16..]))
  }

  function DecodeEntries(b: seq<Byte>, n: nat): (es: seq<ChunkIndex>)
    requires |b| >= 24 * n
    ensures |es| == n
  {
    if n == 0 then [] else DecodeEntries(b, n - 1) + [DecodeEntry(b[24 * (n - 1)..24 * n])]
  }

  /** Opening a file: none when it is not one, has no finished chunk, or is cut short. */
  function OpenFile(file: seq<Byte>): Option<Opened> {
    if |file| < PROLOGUE_SIZE || file[..4] != MAGIC then None
    else
      var chunkSize, end := Decode(file[4..12]), Decode(file[12..20]);
      if chunkSize == 0 || end == 0 || end >= |file| || |file| < end + 8 then None
      else
        var n := Decode(file[end..end + 8]);
        if n == 0 || |file| < end + 8 + 24 * n then None
        else Some(Opened(chunkSize, end, DecodeEntries(file[end + 8..], n)))
  }

  // The words of the file fit 64 bits.
  ghost predicate Fits(c: Codec, chunkSize: nat, chunks: seq<Chunk>) {
    && 1 <= chunkSize < U64 && End(c, chunks) < U64 && |chunks| < U64
    && forall k :: 0 <= k < |chunks| ==> chunks[k].startPc < U64 && |chunks[k].bytes| < U64
  }

  lemma EntryRoundTrip(e: ChunkIndex)
    requires e.offset < U64 && e.startPc < U64 && e.size < U64
    ensures DecodeEntry(EntryBytes(e)) == e
  {
    hide Word, Decode;
    WordRoundTrip(e.offset);
    WordRoundTrip(e.startPc);
    WordRoundTrip(e.size);
    var b := EntryBytes(e);
    assert b[..8] == Word(e.offset) && b[8..16] == Word(e.startPc) && b[16..] == Word(e.size);
  }

  lemma {:induction false} EntriesRoundTrip(es: seq<ChunkIndex>, rest: seq<Byte>)
    requires forall e :: e in es ==> e.offset < U64 && e.startPc < U64 && e.size < U64
    ensures DecodeEntries(EntriesBytes(es) + rest, |es|) == es
  {
    hide DecodeEntry, EntryBytes;
    if es != [] {
      var n := |es| - 1;
      var b := EntriesBytes(es[..n]);
      EntriesRoundTrip(es[..n], EntryBytes(es[n]) + rest);
      assert EntriesBytes(es) + rest == b + (EntryBytes(es[n]) + rest);
      assert (EntriesBytes(es) + rest)[24 * n..24 * (n + 1)] == EntryBytes(es[n]);
      assert es[n] in es;
      EntryRoundTrip(es[n]);
    }
  }

  lemma {:induction false} DataConcat(c: Codec, a: seq<Chunk>, b: seq<Chunk>)
    ensures Data(c, a + b) == Data(c, a) + Data(c, b)
  {
    if b == [] {
      assert a + b == a;
    } else {
      var n := |b| - 1;
      assert (a + b)[..|a + b| - 1] == a + b[..n];
      DataConcat(c, a, b[..n]);
    }
  }

  /** The k-th entry of the index: where the data before the chunk ends, its PC and its size. */
  lemma {:induction false} IndexAt(c: Codec, chunks: seq<Chunk>, k: nat)
    requires k < |chunks|
    ensures Index(c, chunks)[k] == ChunkIndex(End(c, chunks[..k]), chunks[k].startPc, |chunks[k].bytes|)
    ensures End(c, chunks[..k]) <= End(c, chunks)
  {
    var before := chunks[..|chunks| - 1];
    if k < |before| {
      IndexAt(c, before, k);
      assert before[..k] == chunks[..k];
    }
  }

  /** Offsets grow along the index when compressed chunks are not empty. */
  lemma OffsetsIncrease(c: Codec, chunks: seq<Chunk>, k: nat)
    requires k + 1 < |chunks|
    ensures Index(c, chunks)[k + 1].offset == Index(c, chunks)[k].offset + |c.compress(chunks[k].bytes)|
  {
    hide Data;
    IndexAt(c, chunks, k);
    IndexAt(c, chunks, k + 1);
    assert chunks[..k + 1] == chunks[..k] + [chunks[k]];
    DataOne(c, chunks[k]);
    DataConcat(c, chunks[..k], [chunks[k]]);
  }

  lemma DataOne(c: Codec, chunk: Chunk)
    ensures Data(c, [chunk]) == c.compress(chunk.bytes)
  {
    assert [chunk][..0] == [];
  }

  lemma IndexFits(c: Codec, chunkSize: nat, chunks: seq<Chunk>)
    requires Fits(c, chunkSize, chunks)
    ensures forall e :: e in Index(c, chunks) ==> e.offset < U64 && e.startPc < U64 && e.size < U64
  {
    forall e | e in Index(c, chunks)
      ensures e.offset < U64 && e.startPc < U64 && e.size < U64
    {
      var k :| 0 <= k < |chunks| && Index(c, chunks)[k] == e;
      IndexAt(c, chunks, k);
    }
  }

  /** A file with at least one finished chunk opens to its own chunk size, end and index. */
  lemma OpenRoundTrip(c: Codec, chunkSize: nat, chunks: seq<Chunk>)
    requires Fits(c, chunkSize, chunks) && chunks != []
    ensures OpenFile(FileOf(c, chunkSize, chunks)) == Some(Opened(chunkSize, End(c, chunks), Index(c, chunks)))
  {
    hide Word, Decode, Data, Index, EntriesBytes, DecodeEntries;
    var file, end := FileOf(c, chunkSize, chunks), End(c, chunks);
    var entries := EntriesBytes(Index(c, chunks));
    assert file[..4] == MAGIC && file[4..12] == Word(chunkSize) && file[12..20] == Word(end);
    assert file[end..end + 8] == Word(|chunks|);
    assert file[end + 8..] == entries + [];
    WordRoundTrip(chunkSize);
    WordRoundTrip(end);
    WordRoundTrip(|chunks|);
    IndexFits(c, chunkSize, chunks);
    EntriesRoundTrip(Index(c, chunks), []);
  }

  /** The bytes of a word, the least significant first. */
  lemma {:induction false} EncodedByte(x: nat, n: nat, i: nat)
    requires i < n
    ensures Encode(x, n)[i] == x / Pow256(i) % 256
  {
    if i > 0 {
      EncodedByte(x / 256, n - 1, i - 1);
      Digits(x, 256, Pow256(i - 1));
    }
  }

  // The eight bytes from a position on are the number, the least significant first.
  ghost predicate HoldsWord(file: seq<Byte>, pos: nat, x: nat) {
    pos + 8 <= |file| && forall i :: 0 <= i < 8 ==> file[pos + i] == x / Pow256(i) % 256
  }

  lemma WordIsHeld(file: seq<Byte>, pos: nat, x: nat)
    requires pos + 8 <= |file| && file[pos..pos + 8] == Word(x)
    ensures HoldsWord(file, pos, x)
  {
    hide Encode;
    forall i | 0 <= i < 8
      ensures file[pos + i] == x / Pow256(i) % 256
    {
      EncodedByte(x, 8, i);
      assert file[pos..pos + 8][i] == file[pos + i];
    }
  }

  lemma {:induction false} EntryBytesAt(es: seq<ChunkIndex>, k: nat)
    requires k < |es|
    ensures EntriesBytes(es)[24 * k..24 * k + 24] == EntryBytes(es[k])
  {
    hide EntryBytes;
    if k < |es| - 1 {
      EntryBytesAt(es[..|es| - 1], k);
    }
  }

  // A word inside a part of the file.
  lemma HeldInside(before: seq<Byte>, part: seq<Byte>, after: seq<Byte>, at: nat, x: nat)
    requires HoldsWord(part, at, x)
    ensures HoldsWord(before + part + after, |before| + at, x)
  {
    var file := before + part + after;
    forall i | 0 <= i < 8
      ensures file[|before| + at + i] == x / Pow256(i) % 256
    {
      assert file[|before| + at + i] == part[at + i];
    }
  }

  lemma EntryHeld(e: ChunkIndex)
    ensures var b := EntryBytes(e); HoldsWord(b, 0, e.offset) && HoldsWord(b, 8, e.startPc) && HoldsWord(b, 16, e.size)
  {
    hide Word, HoldsWord;
    var b := EntryBytes(e);
    assert b[0..8] == Word(e.offset) && b[8..16] == Word(e.startPc) && b[16..24] == Word(e.size);
    WordIsHeld(b, 0, e.offset);
    WordIsHeld(b, 8, e.startPc);
    WordIsHeld(b, 16, e.size);
  }

  lemma EntriesHeld(before: seq<Byte>, es: seq<ChunkIndex>, k: nat)
    requires k < |es|
    ensures var file, at := before + EntriesBytes(es), |before| + 24 * k;
            && HoldsWord(file, at, es[k].offset) && HoldsWord(file, at + 8, es[k].startPc)
            && HoldsWord(file, at + 16, es[k].size)
  {
    hide EntriesBytes, EntryBytes, HoldsWord;
    var all, e := EntriesBytes(es), EntryBytes(es[k]);
    EntryBytesAt(es, k);
    EntryHeld(es[k]);
    var first, rest := before + all[..24 * k], all[24 * k + 24..];
    assert before + all == first + e + rest;
    HeldInside(first, e, rest, 0, es[k].offset);
    HeldInside(first, e, rest, 8, es[k].startPc);
    HeldInside(first, e, rest, 16, es[k].size);
  }

  lemma PrologueShown(c: Codec, chunkSize: nat, chunks: seq<Chunk>)
    ensures var file := FileOf(c, chunkSize, chunks);
            && |file| >= PROLOGUE_SIZE && file[..4] == MAGIC && file[4..12] == Word(chunkSize)
            && file[12..20] == Word(EndWord(c, chunks))
  {
    hide Word, Data, IndexPart, EndWord;
    var prologue := Prologue(chunkSize, EndWord(c, chunks));
    assert prologue[..4] == MAGIC && prologue[4..12] == Word(chunkSize);
    assert prologue[12..20] == Word(EndWord(c, chunks));
    assert FileOf(c, chunkSize, chunks)[..20] == prologue;
  }

  lemma IndexShown(c: Codec, chunkSize: nat, chunks: seq<Chunk>)
    requires chunks != []
    ensures EndWord(c, chunks) == End(c, chunks)
    ensures var file, end, entries := FileOf(c, chunkSize, chunks), End(c, chunks), EntriesBytes(Index(c, chunks));
            && |file| == end + 8 + 24 * |chunks| && file[end..end + 8] == Word(|chunks|)
            && file == file[..end + 8] + entries
  {
    hide Word, Data, Index, EntriesBytes, Prologue;
    SomeChunks(c, chunks);
    var before := Prologue(chunkSize, End(c, chunks)) + Data(c, chunks);
    assert FileOf(c, chunkSize, chunks) == before + (Word(|chunks|) + EntriesBytes(Index(c, chunks)));
  }

  /**
   * The file byte by byte: the markers per chunk at 4, the end of the chunks at 12, and there the
   * number of chunks and for each its offset, its start PC and its uncompressed size.
   */
  lemma LayoutMeaning(c: Codec, chunkSize: nat, chunks: seq<Chunk>, k: nat)
    requires k < |chunks|
    ensures var file, end := FileOf(c, chunkSize, chunks), End(c, chunks);
            && file[..4] == [90, 83, 84, 70] && HoldsWord(file, 4, chunkSize) && HoldsWord(file, 12, end)
            && HoldsWord(file, end, |chunks|) && |file| == end + 8 + 24 * |chunks|
            && HoldsWord(file, end + 8 + 24 * k, End(c, chunks[..k]))
            && HoldsWord(file, end + 16 + 24 * k, chunks[k].startPc)
            && HoldsWord(file, end + 24 + 24 * k, |chunks[k].bytes|)
  {
    hide Word, Data, Index, EntriesBytes, HoldsWord, FileOf, Prologue, End;
    var file, end, es := FileOf(c, chunkSize, chunks), End(c, chunks), Index(c, chunks);
    PrologueShown(c, chunkSize, chunks);
    IndexShown(c, chunkSize, chunks);
    WordIsHeld(file, 4, chunkSize);
    WordIsHeld(file, 12, end);
    WordIsHeld(file, end, |chunks|);
    IndexAt(c, chunks, k);
    EntriesHeld(file[..end + 8], es, k);
  }

  lemma CutSlice(file: seq<Byte>, n: nat, from: nat, to: nat)
    requires from <= to <= n <= |file|
    ensures file[..n][from..to] == file[from..to]
  {
  }

  /** A file that is cut short anywhere does not open. */
  lemma TruncatedDoesNotOpen(c: Codec, chunkSize: nat, chunks: seq<Chunk>, n: nat)
    requires Fits(c, chunkSize, chunks) && n < |FileOf(c, chunkSize, chunks)|
    ensures OpenFile(FileOf(c, chunkSize, chunks)[..n]) == None
  {
    hide Word, Decode, Data, Index, EntriesBytes, DecodeEntries, FileOf, Prologue, EndWord;
    var file, end := FileOf(c, chunkSize, chunks), EndWord(c, chunks);
    if n >= PROLOGUE_SIZE {
      PrologueShown(c, chunkSize, chunks);
      CutSlice(file, n, 12, 20);
      if chunks == [] {
        NoEnd(c);
        WordRoundTrip(0);
      } else {
        IndexShown(c, chunkSize, chunks);
        WordRoundTrip(end);
        if end + 8 <= n {
          CutSlice(file, n, end, end + 8);
          WordRoundTrip(|chunks|);
        }
      }
    }
  }

  lemma NoEnd(c: Codec)
    ensures EndWord(c, []) == 0
  {
  }

  /** Before the first chunk is finished the file does not open. */
  lemma NoChunkDoesNotOpen(c: Codec, chunkSize: nat)
    ensures OpenFile(FileOf(c, chunkSize, [])) == None
  {
    hide Word, Decode;
    WordRoundTrip(0);
    NoData(c);
    var file := FileOf(c, chunkSize, []);
    assert file[12..20] == Word(0);
  }

  // Where the data of the k-th chunk stops: at the next chunk, or at the end of the last one.
  function Limit(o: Opened, k: nat): nat {
    if k + 1 < |o.index| then o.index[k + 1].offset else o.end
  }

  /** Between its own offset and its limit the file holds the k-th chunk, compressed. */
  lemma ChunkSlice(c: Codec, chunkSize: nat, chunks: seq<Chunk>, k: nat)
    requires k < |chunks|
    ensures var file, o := FileOf(c, chunkSize, chunks), Opened(chunkSize, End(c, chunks), Index(c, chunks));
            && o.index[k].offset <= Limit(o, k) <= |file|
            && file[o.index[k].offset..Limit(o, k)] == c.compress(chunks[k].bytes)
  {
    hide Index, Data, Prologue, IndexPart;
    var before, here, after := chunks[..k], [chunks[k]], chunks[k + 1..];
    assert chunks == before + here + after;
    DataConcat(c, before + here, after);
    DataConcat(c, before, here);
    DataOne(c, chunks[k]);
    IndexAt(c, chunks, k);
    if k + 1 < |chunks| {
      IndexAt(c, chunks, k + 1);
      assert chunks[..k + 1] == before + here;
    } else {
      NoData(c);
    }
    SliceInside(Prologue(chunkSize, EndWord(c, chunks)), Data(c, before), c.compress(chunks[k].bytes), Data(c, after),
                IndexPart(c, chunks));
  }

  lemma SliceInside(p: seq<Byte>, a: seq<Byte>, b: seq<Byte>, d: seq<Byte>, t: seq<Byte>)
    ensures (p + (a + b + d) + t)[|p| + |a|..|p| + |a| + |b|] == b
  {
  }
}
