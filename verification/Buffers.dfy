/** The bytes written for an identifier, and how a read checks them. */
module Buffers {
  import opened ZnTypes

  /** Size of the identifier at the start of each chunk. */
  const ID_BYTES := 4

  /** A `uint32_t` as the machine stores it, least significant byte first. */
  function IdBytes(id: Id): (b: Data)
    ensures |b| == ID_BYTES
  {
    [(id % 256) as byte, (id / 256 % 256) as byte, (id / 0x1_0000 % 256) as byte, (id / 0x100_0000) as byte]
  }

  function BytesId(b: Data): Id
    requires |b| == ID_BYTES
  {
    b[0] as int + 256 * b[1] as int + 0x1_0000 * b[2] as int + 0x100_0000 * b[3] as int
  }

  /** The remote data with the identifier over its first bytes. */
  function WriteBuffer(id: Id, buffer: Data): Data
    requires |buffer| >= ID_BYTES
  {
    IdBytes(id) + buffer[ID_BYTES..]
  }

  /** The identifier matches, and every other byte. */
  predicate Validates(data: Data, id: Id, compare: Data)
    requires |data| == |compare| >= ID_BYTES
  {
    BytesId(data[..ID_BYTES]) == id && data[ID_BYTES..] == compare[ID_BYTES..]
  }

  lemma IdRoundTrip(id: Id)
    ensures BytesId(IdBytes(id)) == id
  {
    assert id / 256 / 256 == id / 0x1_0000 && id / 0x1_0000 / 256 == id / 0x100_0000;
  }

  /** A read validates exactly when it is what would be written for the identifier it is checked
      against. */
  lemma ValidatesExactly(data: Data, id: Id, compare: Data)
    requires |data| == |compare| >= ID_BYTES
    ensures Validates(data, id, compare) <==> data == WriteBuffer(id, compare)
  {
    IdRoundTrip(id);
    assert data == data[..ID_BYTES] + data[ID_BYTES..];
    if data == WriteBuffer(id, compare) {
      assert data[..ID_BYTES] == IdBytes(id) && data[ID_BYTES..] == compare[ID_BYTES..];
    }
    if Validates(data, id, compare) {
      BytesRoundTrip(data[..ID_BYTES]);
    }
  }

  lemma BytesRoundTrip(b: Data)
    requires |b| == ID_BYTES
    ensures IdBytes(BytesId(b)) == b
  {
    var b0, b1, b2, b3 := b[0] as int, b[1] as int, b[2] as int, b[3] as int;
    var id := b0 + 256 * b1 + 0x1_0000 * b2 + 0x100_0000 * b3;
    assert id == b0 + 256 * (b1 + 256 * (b2 + 256 * b3));
    assert id / 256 == b1 + 256 * (b2 + 256 * b3);
    assert id / 0x1_0000 == b2 + 256 * b3;
  }
}
