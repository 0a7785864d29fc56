/** qrBitBuffer of assets/js/qrcode.js:1560-1601. */
module QrBuffer {
  import opened Bits

  // Bit k of a byte, the first being the highest.
  function BitOf(b: bv8, k: nat): bool
    requires k < 8
  {
    (b >> (7 - k)) & 1 == 1
  }

  function SetBit(b: bv8, k: nat): bv8
    requires k < 8
  {
    b | (0x80 >> k)
  }

  lemma SetBitOf(b: bv8, k: nat, j: nat)
    requires k < 8 && j < 8
    ensures BitOf(SetBit(b, k), j) <==> j == k || BitOf(b, j)
    ensures !BitOf(0, j)
  {
    assert k == 0 || k == 1 || k == 2 || k == 3 || k == 4 || k == 5 || k == 6 || k == 7;
    assert j == 0 || j == 1 || j == 2 || j == 3 || j == 4 || j == 5 || j == 6 || j == 7;
  }

  // The first n bits of a byte sequence.
  function BitsOf(bytes: seq<bv8>, n: nat): (s: seq<bool>)
    requires n <= 8 * |bytes|
    ensures |s| == n
  {
    seq(n, i requires 0 <= i < n => BitOf(bytes[i / 8], i % 8))
  }

  class BitBuffer {
    var buffer: seq<bv8>
    var length: nat

    // As many bytes as the bits need, zero behind the last bit.
    ghost predicate Valid()
      reads this
    {
      && |buffer| == (length + 7) / 8
      && forall i :: length <= i < 8 * |buffer| ==> !BitOf(buffer[i / 8], i % 8)
    }

    ghost function Contents(): seq<bool>
      reads this
      requires Valid()
    {
      BitsOf(buffer, length)
    }

    constructor ()
      ensures Valid() && Contents() == []
    {
      buffer, length := [], 0;
    }

    method GetAt(index: nat) returns (bit: bool)
      requires Valid() && index < length
      ensures bit == Contents()[index]
    {
      bit := BitOf(buffer[index / 8], index % 8);
    }

    method PutBit(bit: bool)
      requires Valid()
      modifies this
      ensures Valid() && Contents() == old(Contents()) + [bit]
    {
      hide BitOf, SetBit;
      var bufIndex := length / 8;
      if |buffer| <= bufIndex { buffer := buffer + [0]; }
      ghost var grown := buffer;
      forall i | 0 <= i < 8 * |grown| ensures BitOf(grown[i / 8], i % 8) == (i < length && old(Contents())[i]) {
        SetBitOf(0, 0, i % 8);
      }
      if bit {
        buffer := buffer[bufIndex := SetBit(buffer[bufIndex], length % 8)];
      }
      forall i | 0 <= i < 8 * |grown|
        ensures BitOf(buffer[i / 8], i % 8) == if i == length then bit else BitOf(grown[i / 8], i % 8)
      {
        SetBitOf(grown[bufIndex], length % 8, i % 8);
        assert i == 8 * (i / 8) + i % 8;
      }
      length := length + 1;
    }

    // num is below 2^32 wherever it is called, so the shifts of the source are those of numbers.
    method Put(num: nat, len: nat)
      requires Valid()
      modifies this
      ensures Valid() && Contents() == old(Contents()) + HighFirst(num, len)
    {
      hide Valid, HighFirst, BitsOf;
      var i := 0;
      assert HighFirst(num, len)[..0] == [];
      while i < len
        invariant i <= len && Valid()
        invariant Contents() == old(Contents()) + HighFirst(num, len)[..i]
      {
        HighAt(num, len, i);
        assert HighFirst(num, len)[..i + 1] == HighFirst(num, len)[..i] + [HighFirst(num, len)[i]];
        PutBit(Shr(num, len - i - 1) % 2 == 1);
        i := i + 1;
      }
      assert HighFirst(num, len)[..len] == HighFirst(num, len);
    }
  }
}
