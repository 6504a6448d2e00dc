/**
 * The 9-byte tag UUID of a virtual amiibo: seven random bytes and two XOR
 * check bytes. Byte 3 covers bytes 0-2 and the cascade tag, as an NTAG's
 * BCC0 does. Byte 8 is computed, as the emulator does, over bytes 3-6; an
 * NTAG's BCC1 covers bytes 4-7 instead, so byte 7 is covered by neither
 * check byte here.
 */
module AmiiboUuid {
  import opened Common

  const UuidLength := 9

  /** The cascade tag the first check byte is seeded with. */
  const CascadeTag: byte := 0x88

  /** Both check bytes of `u` agree with the bytes they cover. */
  predicate HasValidChecksums(u: seq<byte>)
  {
    && |u| == UuidLength
    && u[3] == CascadeTag ^ u[0] ^ u[1] ^ u[2]
    && u[8] == u[3] ^ u[4] ^ u[5] ^ u[6]
  }

  /**
   * The UUID made from a 9-byte random fill: the fill with its check bytes
   * overwritten, byte 3 first and byte 8 from the new byte 3.
   */
  function WithChecksums(random: seq<byte>): (u: seq<byte>)
    requires |random| == UuidLength
    ensures HasValidChecksums(u)
    ensures forall k :: 0 <= k < UuidLength && k != 3 && k != 8 ==> u[k] == random[k]
  {
    var check0 := CascadeTag ^ random[0] ^ random[1] ^ random[2];
    random[3 := check0][8 := check0 ^ random[4] ^ random[5] ^ random[6]]
  }

  /** A UUID is valid exactly when recomputing its check bytes leaves it as it is. */
  lemma ChecksumsFixpoint(u: seq<byte>)
    requires |u| == UuidLength
    ensures HasValidChecksums(u) <==> WithChecksums(u) == u
  {
    if WithChecksums(u) == u {
      assert u[3] == WithChecksums(u)[3];
      assert u[8] == WithChecksums(u)[8];
    }
  }

  /** Recomputing the check bytes twice is the same as once. */
  lemma WithChecksumsIdempotent(random: seq<byte>)
    requires |random| == UuidLength
    ensures WithChecksums(WithChecksums(random)) == WithChecksums(random)
  {
    ChecksumsFixpoint(WithChecksums(random));
  }

  /** Writing the two check bytes into the fill, byte 3 first and byte 8 from the new byte 3, gives `WithChecksums` of the fill. */
  lemma WithChecksumsFromWrites(random: seq<byte>, check0: byte, check1: byte)
    requires |random| == UuidLength
    requires check0 == CascadeTag ^ random[0] ^ random[1] ^ random[2]
    requires check1 == check0 ^ random[4] ^ random[5] ^ random[6]
    ensures random[3 := check0][8 := check1] == WithChecksums(random)
  {
  }

  /**
   * GenerateRandomUuid: a 9-byte buffer filled with random bytes, then the
   * two check bytes written in place.
   */
  method GenerateRandomUuid(randomBytes: seq<byte>) returns (uuid: seq<byte>)
    requires |randomBytes| == UuidLength
    ensures uuid == WithChecksums(randomBytes)
    ensures HasValidChecksums(uuid)
  {
    var buffer := new byte[UuidLength](i => if 0 <= i < |randomBytes| then randomBytes[i] else 0);
    assert buffer[..] == randomBytes;
    var check0 := CascadeTag ^ buffer[0] ^ buffer[1] ^ buffer[2];
    buffer[3] := check0;
    assert buffer[..] == randomBytes[3 := check0];
    var check1 := buffer[3] ^ buffer[4] ^ buffer[5] ^ buffer[6];
    buffer[8] := check1;
    assert buffer[..] == randomBytes[3 := check0][8 := check1];
    uuid := buffer[..];
    WithChecksumsFromWrites(randomBytes, check0, check1);
  }
}
