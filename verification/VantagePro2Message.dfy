/** The two CRC routines, as loops over a buffer. */
module VantagePro2Message {
  import opened Crc
  import opened CrcProofs

  method ValidateCRC(bytes: array<bv8>, len: nat) returns (ok: bool)
    requires len <= bytes.Length
    ensures ok <==> Validates(bytes[..len])
    ensures len >= 2 ==> (ok <==> exists q :: IsProduct(Bits(bytes[..len]), q))
  {
    hide Update;
    var crc: bv16 := 0;
    for i := 0 to len
      invariant crc == CrcOf(bytes[..i])
    {
      assert bytes[..i + 1][..i] == bytes[..i];
      crc := Update(crc, bytes[i]);
    }
    ok := crc == 0;
    if len >= 2 {
      ValidIffDivisible(bytes[..len]);
    }
  }

  /** Writes the check of everything before them into the last two bytes, and
      touches nothing else. */
  method ComputeCRC(bytes: array<bv8>, len: nat)
    requires 2 <= len <= bytes.Length
    modifies bytes
    ensures bytes[..len] == Sealed(old(bytes[..len - 2]))
    ensures bytes[len..] == old(bytes[len..])
    ensures Validates(bytes[..len])
  {
    hide Update, HighByte, LowByte;
    var crc: bv16 := 0;
    for i := 0 to len - 2
      invariant bytes[..] == old(bytes[..])
      invariant crc == CrcOf(bytes[..i])
    {
      assert bytes[..i + 1][..i] == bytes[..i];
      crc := Update(crc, bytes[i]);
    }
    ghost var p := bytes[..len - 2];
    bytes[len - 2] := HighByte(crc);
    bytes[len - 1] := LowByte(crc);
    assert bytes[..len] == p + CrcBytes(crc);
    ValidIffSealed(p, bytes[len - 2], bytes[len - 1]);
  }

  /** Sealing again changes nothing, and only the sealed form of a prefix is valid:
      the check bytes are determined by what precedes them. */
  lemma SealIsUniqueAndIdempotent(p: seq<bv8>, msg: seq<bv8>)
    requires |msg| == |p| + 2 && msg[..|p|] == p
    ensures Validates(msg) <==> msg == Sealed(p)
    ensures Sealed(Sealed(p)[..|p|]) == Sealed(p)
  {
    hide Update, Validates;
    var h, l := msg[|p|], msg[|p| + 1];
    assert msg == p + [h, l];
    ValidIffSealed(p, h, l);
    assert Sealed(p)[..|p|] == p;
  }
}
