/// Streams written down as bytes and numbers, and what they are decompressed to.
module KnownStreams {
  import opened Bits
  import opened Huffman
  import opened BitReading
  import opened Deflate
  import opened DeflateStreams
  import I = Inflate

  // ---- Stored blocks ----

  /// A final stored block: its header byte, the length and its complement, low byte first, and the content.
  function StoredBytes(content: seq<Byte>): (data: seq<Byte>)
    requires |content| < 65536
    ensures |data| == 5 + |content|
  {
    var n := |content|;
    [1, n % 256, n / 256, 255 - n % 256, 255 - n / 256] + content
  }

  lemma ByteOne(data: seq<Byte>)
    requires data != [] && data[0] == 1
    ensures BitsOf(data)[0] == 1 && BitsOf(data)[1] == 0 && BitsOf(data)[2] == 0
  {
    var low := BitsOf(data)[0..8];
    ByteOfBits(data, 0);
    assert LsbBits(1, 8) == [1, 0, 0, 0, 0, 0, 0, 0];
    assert low[0] == 1 && low[1] == 0 && low[2] == 0;
  }

  lemma SmallValues(a: Bit, b: Bit)
    ensures LsbValue([a]) == a as nat && LsbValue([a, b]) == a as nat + 2 * b as nat
  {
    assert [a][1..] == [] && [b][1..] == [];
    assert [a, b][1..] == [b];
    assert LsbValue([b]) == b as nat + 2 * LsbValue([b][1..]);
    assert LsbValue([a]) == a as nat + 2 * LsbValue([a][1..]);
  }

  lemma HeaderBits(data: seq<Byte>)
    requires data != [] && data[0] == 1
    ensures TakeBits(BitsOf(data), 0, 1) == Parsed(1, 1) && TakeBits(BitsOf(data), 1, 2) == Parsed(0, 3)
  {
    var bits := BitsOf(data);
    ByteOne(data);
    assert bits[0..1] == [bits[0]] && bits[1..3] == [bits[1], bits[2]];
    SmallValues(bits[0], 0);
    SmallValues(bits[1], bits[2]);
  }

  lemma LengthsAt(data: seq<Byte>, n: nat)
    requires |data| >= 5 && n < 65536
    requires data[1] == n % 256 && data[2] == n / 256 && data[3] == 255 - n % 256 && data[4] == 255 - n / 256
    ensures TakeBits(BitsOf(data), 8, 16) == Parsed(n, 24) && TakeBits(BitsOf(data), 24, 16) == Parsed(65535 - n, 40)
  {
    TwoBytes(data, 1);
    TwoBytes(data, 3);
  }

  lemma StoredTaken(content: seq<Byte>, rest: seq<Byte>, data: seq<Byte>)
    requires |content| < 65536 && data == StoredBytes(content) + rest
    ensures TakeStored(BitsOf(data), 3, []) == Parsed(content, 40 + 8 * |content|)
  {
    LengthsAt(data, |content|);
    I.ContentAt(data, 5, |content|, 40);
    assert data[5..5 + |content|] == content;
    assert [] + content == content;
  }

  /// Whatever follows it, a final stored block is decompressed to its content.
  lemma StoredBlockDecodes(content: seq<Byte>, rest: seq<Byte>)
    requires |content| < 65536
    ensures exists blocks :: Holds(StoredBytes(content) + rest, blocks) && ExpandStream(blocks, []) == content
  {
    var data := StoredBytes(content) + rest;
    HeaderBits(data);
    StoredTaken(content, rest, data);
    DecodesExactly(data);
  }

  // ---- Dynamic blocks ----

  /// The header of a dynamic block in numbers: five bits for the literal and length codes above 257, five for the
  /// distance codes above one, four for the code length codes above four, and three for each of those.
  lemma HeaderInNumbers(h: Header, n: nat, m: nat, k: nat)
    requires 257 <= h.hlit <= 286 && 1 <= h.total - h.hlit <= 30 && 4 <= |h.sent| <= 19 && h.hlit == 257 + n && h.total == h.hlit + 1 + m && |h.sent| == 4 + k
    ensures h.Counted() && h.Encode() == LsbBits(n, 5) + (LsbBits(m, 5) + (LsbBits(k, 4) + (EncodeEach(h.sent) + EncodeOps(h.OpsCode(), h.ops))))
    ensures forall ts :: Dynamic(h, ts).Type() == 2
  {
  }

  // ---- The ceiling ----

  /// No stream is decompressed to more than 2^28 bytes, and one that ends in a compressed block to fewer.
  lemma {:induction false} OutputBounded(blocks: seq<Block>, out: seq<Byte>)
    requires AllFit(blocks, out) && |out| <= 268435456
    ensures |ExpandStream(blocks, out)| <= 268435456
    ensures blocks != [] && !blocks[|blocks| - 1].Stored? ==> |ExpandStream(blocks, out)| < 268435456
    decreases |blocks|
  {
    if blocks != [] {
      OutputBounded(blocks[1..], blocks[0].Apply(out));
    }
  }
}
