/** Numbers as bytes, the highest byte first. */
module BigEndian {
  import opened Values

  const WORD_LIMIT: nat := 0x1_0000_0000_0000_0000

  /** v as `len` bytes, the last byte last. */
  function Put(v: nat, len: nat): (r: Bytes)
    ensures |r| == len
  {
    if len == 0 then [] else Put(v / 256, len - 1) + [v % 256]
  }

  function Value(b: Bytes): nat {
    if b == [] then 0 else Value(b[..|b| - 1]) * 256 + b[|b| - 1]
  }

  function Limit(n: nat): nat { if n == 0 then 1 else 256 * Limit(n - 1) }

  lemma {:induction false} ValueOfPut(v: nat, len: nat)
    requires v < Limit(len)
    ensures Value(Put(v, len)) == v
  {
    if len > 0 {
      ValueOfPut(v / 256, len - 1);
      assert Put(v, len)[..len - 1] == Put(v / 256, len - 1);
    }
  }

  lemma Limits()
    ensures Limit(2) == 0x10000 && Limit(8) == WORD_LIMIT
  {
    assert Limit(4) == 0x1_0000_0000;
    assert Limit(6) == 0x1_0000_0000_0000;
  }
}
