/**
 The 8-byte self-describing header at the start of the packed buffer: a magic
 byte, the format version in the high nibble and the coordinate type tag in the
 low nibble of the second byte, the node size as a little-endian 16-bit value
 and the item count as a little-endian 32-bit value.
 */
module Header {

  import opened Wrappers

  type byte = x: int | 0 <= x < 256

  const Magic: byte := 0xfb
  /** `ARRAY_TYPE_INDEX`: the tag of 64-bit float coordinates. */
  const ArrayTypeIndex: byte := 8

  function Pow256(n: nat): (r: nat)
    ensures r >= 1
  {
    if n == 0 then 1 else 256 * Pow256(n - 1)
  }

  /** The `width` low-order bytes of `x`, least significant first. */
  function LittleEndian(x: nat, width: nat): (bs: seq<byte>)
    requires x < Pow256(width)
    ensures |bs| == width
  {
    if width == 0 then []
    else [(x % 256) as byte] + LittleEndian(x / 256, width - 1)
  }

  /** The unsigned value of little-endian bytes. */
  function FromLittleEndian(bs: seq<byte>): (x: nat)
    ensures x < Pow256(|bs|)
  {
    if bs == [] then 0 else bs[0] + 256 * FromLittleEndian(bs[1..])
  }

  /** Decoding what was encoded gives the value back. */
  lemma {:induction false} LittleEndianRoundTrip(x: nat, width: nat)
    requires x < Pow256(width)
    ensures FromLittleEndian(LittleEndian(x, width)) == x
  {
    if width > 0 {
      LittleEndianRoundTrip(x / 256, width - 1);
      assert LittleEndian(x, width)[1..] == LittleEndian(x / 256, width - 1);
    }
  }

  /** Encoding what was decoded gives the bytes back: the encoding is one-to-one. */
  lemma {:induction false} LittleEndianOfDecoded(bs: seq<byte>)
    ensures LittleEndian(FromLittleEndian(bs), |bs|) == bs
  {
    if bs != [] {
      LittleEndianOfDecoded(bs[1..]);
      var x := FromLittleEndian(bs);
      assert x % 256 == bs[0] && x / 256 == FromLittleEndian(bs[1..]);
    }
  }

  datatype HeaderFields = HeaderFields(version: nat, nodeSize: nat, numItems: nat)

  /** The header bytes the constructor writes. */
  function EncodeHeader(version: nat, nodeSize: nat, numItems: nat): (h: seq<byte>)
    requires version < 16 && nodeSize < Pow256(2) && numItems < Pow256(4)
    ensures |h| == 8
  {
    [Magic, (version * 16 + ArrayTypeIndex) as byte] + LittleEndian(nodeSize, 2) + LittleEndian(numItems, 4)
  }

  /** How a reader of the buffer recovers the fields, rejecting a foreign magic or type tag. */
  function DecodeHeader(h: seq<byte>): Option<HeaderFields>
  {
    if |h| != 8 || h[0] != Magic || h[1] % 16 != ArrayTypeIndex then None
    else Some(HeaderFields(h[1] / 16, FromLittleEndian(h[2..4]), FromLittleEndian(h[4..8])))
  }

  /** A written header reads back as the fields it was written from. */
  lemma HeaderRoundTrip(version: nat, nodeSize: nat, numItems: nat)
    requires version < 16 && nodeSize < Pow256(2) && numItems < Pow256(4)
    ensures DecodeHeader(EncodeHeader(version, nodeSize, numItems)) == Some(HeaderFields(version, nodeSize, numItems))
  {
    var h := EncodeHeader(version, nodeSize, numItems);
    assert h[2..4] == LittleEndian(nodeSize, 2);
    assert h[4..8] == LittleEndian(numItems, 4);
    LittleEndianRoundTrip(nodeSize, 2);
    LittleEndianRoundTrip(numItems, 4);
  }

  /** Every header a reader accepts is the one written from the fields it reads. */
  lemma HeaderOfDecoded(h: seq<byte>)
    requires DecodeHeader(h).Some?
    ensures var f := DecodeHeader(h).value;
      && f.version < 16 && f.nodeSize < Pow256(2) && f.numItems < Pow256(4)
      && EncodeHeader(f.version, f.nodeSize, f.numItems) == h
  {
    var f := DecodeHeader(h).value;
    LittleEndianOfDecoded(h[2..4]);
    LittleEndianOfDecoded(h[4..8]);
    assert h == [h[0], h[1]] + h[2..4] + h[4..8];
  }

  /** The header of 1000 items in nodes of 16. */
  lemma HeaderOfThousandItems(version: nat)
    requires version < 16
    ensures EncodeHeader(version, 16, 1000) == [0xfb, version * 16 + 8, 0x10, 0x00, 0xe8, 0x03, 0x00, 0x00]
  {
  }
}
