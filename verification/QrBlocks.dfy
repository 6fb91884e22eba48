/** Splitting the data into blocks, adding each block's error correction, and interleaving them. */
module QrBlocks {
  import opened Arithmetic
  import opened Galois
  import opened QrBits
  import opened QrTables
  import RS = ReedSolomon

  /* ---- What the encoder produces ---- */

  /** The data codewords cut into the blocks' parts. */
  function Parts(data: seq<Octet>, blocks: seq<Block>): (parts: seq<seq<Octet>>)
    requires DataLength(blocks) <= |data|
    ensures |parts| == |blocks|
  {
    if blocks == [] then []
    else
      var front, b := blocks[..|blocks| - 1], blocks[|blocks| - 1];
      Parts(data, front) + [data[DataLength(front)..DataLength(front) + b.data]]
  }

  ghost predicate HasEcc(blocks: seq<Block>) {
    forall b :: 0 <= b < |blocks| ==> 1 <= blocks[b].data < blocks[b].total <= 255
  }

  /** Each part's error correction codewords. */
  ghost function Eccs(parts: seq<seq<Octet>>, blocks: seq<Block>): (eccs: seq<seq<Octet>>)
    requires |parts| == |blocks| && HasEcc(blocks)
    ensures |eccs| == |parts|
    ensures forall b :: 0 <= b < |eccs| ==> eccs[b] == RS.Remainder(parts[b], blocks[b].total - blocks[b].data)
  {
    seq(|parts|, b requires 0 <= b < |parts| => RS.Remainder(parts[b], blocks[b].total - blocks[b].data))
  }

  /** The i-th codeword of each of the first k parts that have one. */
  function Column(parts: seq<seq<Octet>>, k: nat, i: nat): seq<Octet>
    requires k <= |parts|
  {
    if k == 0 then []
    else Column(parts, k - 1, i) + (if i < |parts[k - 1]| then [parts[k - 1][i]] else [])
  }

  /** The first n columns, one after another. */
  function Columns(parts: seq<seq<Octet>>, n: nat): seq<Octet> {
    if n == 0 then [] else Columns(parts, n - 1) + Column(parts, |parts|, n - 1)
  }

  function Longest(parts: seq<seq<Octet>>): nat {
    if parts == [] then 0 else Max(Longest(parts[..|parts| - 1]), |parts[|parts| - 1]|)
  }

  ghost function Interleaved(data: seq<Octet>, version: nat): seq<Octet>
    requires IsVersion(version) && |data| == DataCapacity(version)
  {
    Capacities(version);
    BlocksHaveEcc(version);
    var blocks := BlocksOf(version);
    var parts := Parts(data, blocks);
    var eccs := Eccs(parts, blocks);
    Columns(parts, Longest(parts)) + Columns(eccs, Longest(eccs))
  }

  lemma BlocksHaveEcc(version: nat)
    requires IsVersion(version)
    ensures HasEcc(BlocksOf(version))
  {
    hide BlocksOf;
    BlocksListed(version);
  }

  method Interleave(parts: seq<seq<Octet>>, longest: nat) returns (out: seq<Octet>)
    ensures out == Columns(parts, longest)
  {
    out := [];
    for i := 0 to longest
      invariant out == Columns(parts, i)
    {
      ghost var before := out;
      for k := 0 to |parts|
        invariant out == before + Column(parts, k, i)
      {
        if i < |parts[k]| {
          out := out + [parts[k][i]];
        }
      }
    }
  }

  lemma NextOffset(data: seq<Octet>, specs: seq<Block>, n: nat)
    requires n < |specs| && DataLength(specs) <= |data|
    ensures DataLength(specs[..n + 1]) == DataLength(specs[..n]) + specs[n].data <= |data|
  {
    assert specs[..n + 1][..n] == specs[..n];
    DataLengthPrefix(specs, n + 1);
  }

  lemma NextPart(data: seq<Octet>, specs: seq<Block>, n: nat)
    requires n < |specs| && DataLength(specs) <= |data|
    ensures DataLength(specs[..n]) <= DataLength(specs[..n + 1]) <= |data|
    ensures Parts(data, specs[..n + 1])
         == Parts(data, specs[..n]) + [data[DataLength(specs[..n])..DataLength(specs[..n + 1])]]
  {
    NextOffset(data, specs, n);
    hide DataLength;
    assert specs[..n + 1][..n] == specs[..n];
    assert specs[..n + 1][n] == specs[n];
  }

  lemma NextEcc(parts: seq<seq<Octet>>, part: seq<Octet>, specs: seq<Block>, n: nat)
    requires n < |specs| && HasEcc(specs) && |parts| == n
    ensures Eccs(parts + [part], specs[..n + 1])
         == Eccs(parts, specs[..n]) + [RS.Remainder(part, specs[n].total - specs[n].data)]
  {
    hide RS.Remainder;
    var left, right := Eccs(parts + [part], specs[..n + 1]), Eccs(parts, specs[..n]);
    forall b | 0 <= b < n ensures left[b] == right[b] {
      assert (parts + [part])[b] == parts[b] && specs[..n + 1][b] == specs[..n][b];
    }
  }

  lemma LongestAppend(parts: seq<seq<Octet>>, part: seq<Octet>)
    ensures Longest(parts + [part]) == Max(Longest(parts), |part|)
  {
    assert (parts + [part])[..|parts|] == parts;
  }

  method AllCodewords(tables: Tables, data: seq<Octet>, version: nat) returns (out: seq<Octet>)
    requires tables.Valid()
    requires IsVersion(version) && |data| == DataCapacity(version)
    ensures out == Interleaved(data, version)
  {
    hide BlocksOf, Columns, RS.Remainder, DataLength, Parts, Eccs, Longest, HasEcc;
    Capacities(version);
    BlocksHaveEcc(version);
    var specs := Blocks(version);
    var dataBlocks, eccBlocks := SplitBlocks(tables, data, specs);
    var maxData := LongestOf(dataBlocks);
    var maxEcc := LongestOf(eccBlocks);
    out := Interleave(dataBlocks, maxData);
    var tail := Interleave(eccBlocks, maxEcc);
    out := out + tail;
  }

  method SplitBlocks(tables: Tables, data: seq<Octet>, specs: seq<Block>)
    returns (dataBlocks: seq<seq<Octet>>, eccBlocks: seq<seq<Octet>>)
    requires tables.Valid() && HasEcc(specs) && DataLength(specs) <= |data|
    ensures dataBlocks == Parts(data, specs)
    ensures eccBlocks == Eccs(dataBlocks, specs)
  {
    hide RS.Remainder, DataLength, Parts, Eccs;
    dataBlocks, eccBlocks := [], [];
    var offset := 0;
    NoBlocks(data);
    assert specs[..0] == [];
    for n := 0 to |specs|
      invariant tables.Valid()
      invariant offset == DataLength(specs[..n]) <= |data|
      invariant HasEcc(specs[..n])
      invariant dataBlocks == Parts(data, specs[..n])
      invariant eccBlocks == Eccs(dataBlocks, specs[..n])
    {
      NextOffset(data, specs, n);
      NextPart(data, specs, n);
      var spec := specs[n];
      var part := data[offset..offset + spec.data];
      NextEcc(dataBlocks, part, specs, n);
      offset := offset + spec.data;
      var ecc := tables.Remainder(part, spec.total - spec.data);
      dataBlocks := dataBlocks + [part];
      eccBlocks := eccBlocks + [ecc];
    }
    assert specs[..|specs|] == specs;
  }

  lemma NoBlocks(data: seq<Octet>)
    ensures DataLength([]) == 0 && Parts(data, []) == [] && HasEcc([]) && Eccs([], []) == []
  {
  }

  method LongestOf(parts: seq<seq<Octet>>) returns (longest: nat)
    ensures longest == Longest(parts)
  {
    longest := 0;
    for n := 0 to |parts|
      invariant longest == Longest(parts[..n])
    {
      LongestAppend(parts[..n], parts[n]);
      assert parts[..n + 1] == parts[..n] + [parts[n]];
      longest := Max(longest, |parts[n]|);
    }
    assert parts[..|parts|] == parts;
  }

  lemma {:induction false} DataLengthPrefix(blocks: seq<Block>, n: nat)
    requires n <= |blocks|
    ensures DataLength(blocks[..n]) <= DataLength(blocks)
    decreases |blocks| - n
  {
    if n < |blocks| {
      assert blocks[..n + 1][..n] == blocks[..n];
      DataLengthPrefix(blocks, n + 1);
    } else {
      assert blocks[..n] == blocks;
    }
  }

  /* ---- Reading the blocks back ---- */

  /** How many of the first k blocks reach column i. */
  function Reaching(lengths: seq<nat>, k: nat, i: nat): nat
    requires k <= |lengths|
  {
    if k == 0 then 0 else Reaching(lengths, k - 1, i) + (if i < lengths[k - 1] then 1 else 0)
  }

  /** How many codewords precede column i. */
  function ColumnStart(lengths: seq<nat>, i: nat): nat {
    if i == 0 then 0 else ColumnStart(lengths, i - 1) + Reaching(lengths, |lengths|, i - 1)
  }

  /** The place of codeword i of block b in the interleaved stream. */
  function Place(lengths: seq<nat>, b: nat, i: nat): nat
    requires b < |lengths|
  {
    ColumnStart(lengths, i) + Reaching(lengths, b, i)
  }

  ghost predicate HaveLengths(parts: seq<seq<Octet>>, lengths: seq<nat>) {
    |parts| == |lengths| && forall b :: 0 <= b < |parts| ==> |parts[b]| == lengths[b]
  }

  lemma {:induction false} ColumnSize(parts: seq<seq<Octet>>, lengths: seq<nat>, k: nat, i: nat)
    requires HaveLengths(parts, lengths) && k <= |parts|
    ensures |Column(parts, k, i)| == Reaching(lengths, k, i)
  {
    if k > 0 {
      ColumnSize(parts, lengths, k - 1, i);
    }
  }

  lemma {:induction false} ColumnAt(parts: seq<seq<Octet>>, lengths: seq<nat>, k: nat, b: nat, i: nat)
    requires HaveLengths(parts, lengths) && b < k <= |parts| && i < lengths[b]
    ensures Reaching(lengths, b, i) < |Column(parts, k, i)|
    ensures Column(parts, k, i)[Reaching(lengths, b, i)] == parts[b][i]
  {
    ColumnSize(parts, lengths, k - 1, i);
    if b < k - 1 {
      ColumnAt(parts, lengths, k - 1, b, i);
    }
  }

  lemma {:induction false} ColumnsSize(parts: seq<seq<Octet>>, lengths: seq<nat>, n: nat)
    requires HaveLengths(parts, lengths)
    ensures |Columns(parts, n)| == ColumnStart(lengths, n)
  {
    if n > 0 {
      ColumnsSize(parts, lengths, n - 1);
      ColumnSize(parts, lengths, |parts|, n - 1);
    }
  }

  lemma {:induction false} ColumnsAt(parts: seq<seq<Octet>>, lengths: seq<nat>, n: nat, b: nat, i: nat)
    requires HaveLengths(parts, lengths) && b < |parts| && i < lengths[b] && i < n
    ensures Place(lengths, b, i) < |Columns(parts, n)|
    ensures Columns(parts, n)[Place(lengths, b, i)] == parts[b][i]
  {
    ColumnsSize(parts, lengths, n - 1);
    ColumnAt(parts, lengths, |parts|, b, i);
    if i < n - 1 {
      ColumnsAt(parts, lengths, n - 1, b, i);
    }
  }

  lemma {:induction false} LongestBound(parts: seq<seq<Octet>>, b: nat)
    requires b < |parts|
    ensures |parts[b]| <= Longest(parts)
  {
    if b < |parts| - 1 {
      LongestBound(parts[..|parts| - 1], b);
    }
  }

  /** The codeword at a place of the stream. */
  function At(stream: seq<Octet>, place: nat): Octet {
    if place < |stream| then stream[place] else ZERO
  }

  /** Collects block b from the interleaved codewords that begin at start. */
  function ReadBlock(stream: seq<Octet>, start: nat, lengths: seq<nat>, b: nat): (block: seq<Octet>)
    requires b < |lengths|
    ensures |block| == lengths[b]
  {
    seq(lengths[b], i requires 0 <= i < lengths[b] => At(stream, start + Place(lengths, b, i)))
  }

  lemma ReadBlockBack(parts: seq<seq<Octet>>, lengths: seq<nat>, before: seq<Octet>, rest: seq<Octet>, b: nat)
    requires HaveLengths(parts, lengths) && b < |parts|
    ensures ReadBlock(before + Columns(parts, Longest(parts)) + rest, |before|, lengths, b) == parts[b]
  {
    hide Columns, Longest, Place;
    var n := Longest(parts);
    LongestBound(parts, b);
    forall i | 0 <= i < lengths[b]
      ensures At(before + Columns(parts, n) + rest, |before| + Place(lengths, b, i)) == parts[b][i]
    {
      ColumnsAt(parts, lengths, n, b, i);
    }
  }

  function DataLengths(blocks: seq<Block>): (lengths: seq<nat>)
    ensures |lengths| == |blocks|
  {
    seq(|blocks|, b requires 0 <= b < |blocks| => blocks[b].data)
  }

  function EccLengths(blocks: seq<Block>): (lengths: seq<nat>)
    ensures |lengths| == |blocks|
  {
    seq(|blocks|, b requires 0 <= b < |blocks| =>
      if blocks[b].total < blocks[b].data then 0 else blocks[b].total - blocks[b].data)
  }

  /** The first n blocks' data, joined in block order. */
  function ReadData(stream: seq<Octet>, blocks: seq<Block>, n: nat): seq<Octet>
    requires n <= |blocks|
  {
    if n == 0 then [] else ReadData(stream, blocks, n - 1) + ReadBlock(stream, 0, DataLengths(blocks), n - 1)
  }

  /** Block b as received: its data followed by its error correction. */
  function ReceivedBlock(stream: seq<Octet>, blocks: seq<Block>, b: nat): seq<Octet>
    requires b < |blocks|
  {
    ReadBlock(stream, 0, DataLengths(blocks), b)
    + ReadBlock(stream, DataLength(blocks), EccLengths(blocks), b)
  }

  lemma {:induction false} PartsAt(data: seq<Octet>, blocks: seq<Block>, b: nat)
    requires DataLength(blocks) <= |data| && b < |blocks|
    ensures DataLength(blocks[..b]) + blocks[b].data == DataLength(blocks[..b + 1]) <= |data|
    ensures Parts(data, blocks)[b] == data[DataLength(blocks[..b])..DataLength(blocks[..b + 1])]
  {
    assert blocks[..b + 1][..b] == blocks[..b];
    DataLengthPrefix(blocks, b + 1);
    if b < |blocks| - 1 {
      var front := blocks[..|blocks| - 1];
      assert front[..b] == blocks[..b] && front[..b + 1] == blocks[..b + 1];
      PartsAt(data, front, b);
    } else {
      assert blocks[..b + 1] == blocks;
    }
  }

  lemma PartsLengths(data: seq<Octet>, blocks: seq<Block>)
    requires DataLength(blocks) <= |data|
    ensures HaveLengths(Parts(data, blocks), DataLengths(blocks))
    ensures HasEcc(blocks) ==> HaveLengths(Eccs(Parts(data, blocks), blocks), EccLengths(blocks))
  {
    hide RS.Remainder, Parts, DataLength;
    forall b | 0 <= b < |blocks| ensures |Parts(data, blocks)[b]| == blocks[b].data {
      PartsAt(data, blocks, b);
    }
  }

  /** Adding one more part lengthens the stream by that part. */
  lemma {:induction false} ColumnsAppend(parts: seq<seq<Octet>>, part: seq<Octet>, n: nat)
    ensures |Columns(parts + [part], n)| == |Columns(parts, n)| + (if n < |part| then n else |part|)
  {
    hide Column;
    if n > 0 {
      ColumnsAppend(parts, part, n - 1);
      ColumnAppend(parts, part, n - 1);
    }
  }

  lemma ColumnAppend(parts: seq<seq<Octet>>, part: seq<Octet>, i: nat)
    ensures |Column(parts + [part], |parts| + 1, i)| == |Column(parts, |parts|, i)| + (if i < |part| then 1 else 0)
  {
    ColumnPrefix(parts, part, |parts|, i);
  }

  lemma {:induction false} ColumnPrefix(parts: seq<seq<Octet>>, part: seq<Octet>, k: nat, i: nat)
    requires k <= |parts|
    ensures Column(parts + [part], k, i) == Column(parts, k, i)
  {
    if k > 0 {
      ColumnPrefix(parts, part, k - 1, i);
    }
  }

  function SizeOf(parts: seq<seq<Octet>>): nat {
    if parts == [] then 0 else SizeOf(parts[..|parts| - 1]) + |parts[|parts| - 1]|
  }

  lemma {:induction false} ColumnsLength(parts: seq<seq<Octet>>, n: nat)
    requires n >= Longest(parts)
    ensures |Columns(parts, n)| == SizeOf(parts)
  {
    if parts == [] {
      NoColumns(n);
    } else {
      var front, part := parts[..|parts| - 1], parts[|parts| - 1];
      assert parts == front + [part];
      ColumnsAppend(front, part, n);
      ColumnsLength(front, n);
    }
  }

  lemma {:induction false} NoColumns(n: nat)
    ensures Columns([], n) == []
  {
    if n > 0 {
      NoColumns(n - 1);
    }
  }

  lemma {:induction false} PartsSize(data: seq<Octet>, blocks: seq<Block>)
    requires DataLength(blocks) <= |data|
    ensures SizeOf(Parts(data, blocks)) == DataLength(blocks)
  {
    if blocks != [] {
      var front, b := blocks[..|blocks| - 1], blocks[|blocks| - 1];
      var parts := Parts(data, blocks);
      PartsSize(data, front);
      assert parts[..|parts| - 1] == Parts(data, front);
      assert |parts[|parts| - 1]| == b.data;
    }
  }

  lemma {:induction false} EccsSize(parts: seq<seq<Octet>>, blocks: seq<Block>)
    requires |parts| == |blocks| && HasEcc(blocks)
    ensures SizeOf(Eccs(parts, blocks)) + DataLength(blocks) == TotalLength(blocks)
  {
    hide RS.Remainder;
    if blocks != [] {
      var n := |blocks| - 1;
      var front := blocks[..n];
      EccsSize(parts[..n], front);
      NextEcc(parts[..n], parts[n], blocks, n);
      assert parts[..n] + [parts[n]] == parts && blocks[..n + 1] == blocks;
      var eccs := Eccs(parts, blocks);
      assert eccs[..n] == Eccs(parts[..n], front);
    }
  }

  lemma {:induction false} ReadDataBack(data: seq<Octet>, blocks: seq<Block>, stream: seq<Octet>, rest: seq<Octet>, n: nat)
    requires DataLength(blocks) <= |data| && n <= |blocks|
    requires stream == Columns(Parts(data, blocks), Longest(Parts(data, blocks))) + rest
    ensures DataLength(blocks[..n]) <= |data|
    ensures ReadData(stream, blocks, n) == data[..DataLength(blocks[..n])]
  {
    hide Columns, Longest, Parts, DataLength;
    DataLengthPrefix(blocks, n);
    if n == 0 {
      NoBlocks(data);
      assert blocks[..0] == [];
    } else {
      ReadDataBack(data, blocks, stream, rest, n - 1);
      PartsLengths(data, blocks);
      PartsAt(data, blocks, n - 1);
      var parts := Parts(data, blocks);
      ReadBlockBack(parts, DataLengths(blocks), [], rest, n - 1);
      assert [] + Columns(parts, Longest(parts)) + rest == stream;
      var i, j := DataLength(blocks[..n - 1]), DataLength(blocks[..n]);
      assert data[..i] + data[i..j] == data[..j];
    }
  }

  /** Every codeword is in the stream once: it is exactly as long as the version's capacity. */
  lemma InterleavedLength(data: seq<Octet>, version: nat)
    requires IsVersion(version) && |data| == DataCapacity(version)
    ensures |Interleaved(data, version)| == TotalCapacity(version)
  {
    hide BlocksOf, Columns, Longest, Parts, Eccs, DataLength, TotalLength, HasEcc, DataCapacity, TotalCapacity;
    Capacities(version);
    BlocksHaveEcc(version);
    var blocks := BlocksOf(version);
    var parts := Parts(data, blocks);
    var eccs := Eccs(parts, blocks);
    ColumnsLength(parts, Longest(parts));
    ColumnsLength(eccs, Longest(eccs));
    PartsSize(data, blocks);
    EccsSize(parts, blocks);
  }

  /** De-interleaving returns the data, and every received block is a Reed-Solomon codeword. */
  lemma InterleavedReadBack(data: seq<Octet>, version: nat, b: nat, i: nat)
    requires IsVersion(version) && |data| == DataCapacity(version)
    requires b < |BlocksOf(version)| && i < BlocksOf(version)[b].total - BlocksOf(version)[b].data
    ensures var (stream, blocks) := (Interleaved(data, version), BlocksOf(version));
            && ReadData(stream, blocks, |blocks|) == data
            && RS.Eval(ReceivedBlock(stream, blocks, b), Alpha(i)) == ZERO
            && DataLength(blocks[..b]) + blocks[b].data == DataLength(blocks[..b + 1]) <= |data|
            && ReceivedBlock(stream, blocks, b)[..blocks[b].data] == data[DataLength(blocks[..b])..DataLength(blocks[..b + 1])]
  {
    hide BlocksOf, Columns, Longest, Parts, DataLength, TotalLength, DataCapacity, TotalCapacity, RS.Remainder, RS.Eval, Alpha;
    Capacities(version);
    BlocksHaveEcc(version);
    var blocks := BlocksOf(version);
    var parts := Parts(data, blocks);
    var eccs := Eccs(parts, blocks);
    var head, tail := Columns(parts, Longest(parts)), Columns(eccs, Longest(eccs));
    var stream := Interleaved(data, version);
    assert stream == head + tail;
    ReadDataBack(data, blocks, stream, tail, |blocks|);
    assert blocks[..|blocks|] == blocks && data[..|data|] == data;
    PartsLengths(data, blocks);
    ReadBlockBack(parts, DataLengths(blocks), [], tail, b);
    ReadBlockBack(eccs, EccLengths(blocks), head, [], b);
    assert [] + head + tail == stream && head + tail + [] == stream;
    ColumnsLength(parts, Longest(parts));
    PartsSize(data, blocks);
    assert ReceivedBlock(stream, blocks, b) == parts[b] + eccs[b];
    PartsAt(data, blocks, b);
    RS.SyndromesVanish(parts[b], blocks[b].total - blocks[b].data, i);
  }
}
