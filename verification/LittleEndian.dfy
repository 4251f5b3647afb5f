/** Little-endian byte order of fixed-width words. */
module LittleEndian {
  import opened Bits

  type byte = n: nat | n < 256

  /** The number a run of bytes encodes. */
  function Le(bytes: seq<byte>): nat {
    if bytes == [] then 0 else bytes[0] + 256 * Le(bytes[1..])
  }

  /** The k bytes of n's low 8k bits. */
  function LeBytes(n: nat, k: nat): (r: seq<byte>)
    ensures |r| == k
  {
    if k == 0 then [] else [n % 256] + LeBytes(n / 256, k - 1)
  }

  lemma {:induction false} LeRoundTrip(n: nat, k: nat)
    requires n < Pow2(8 * k)
    ensures Le(LeBytes(n, k)) == n
  {
    hide Pow2;
    Pow2Double(0);
    if k > 0 {
      Pow2Add(8, 8 * (k - 1));
      Pow2Eight();
      LeRoundTrip(n / 256, k - 1);
      assert LeBytes(n, k)[1..] == LeBytes(n / 256, k - 1);
    }
  }

  lemma Pow2Eight()
    ensures Pow2(8) == 256 && Pow2(16) == 0x1_0000
  {
    hide Pow2;
    Pow2Double(0);
    Pow2Add(1, 1);
    Pow2Add(2, 2);
    Pow2Add(4, 4);
    Pow2Add(8, 8);
  }

  lemma {:induction false} LeBelow(bytes: seq<byte>)
    ensures Le(bytes) < Pow2(8 * |bytes|)
  {
    if bytes != [] {
      LeBelow(bytes[1..]);
      Pow2Add(8, 8 * (|bytes| - 1));
      Pow2Eight();
    }
  }

  /** Every run of bytes is the encoding of its number. */
  lemma {:induction false} LeBytesBack(bytes: seq<byte>)
    ensures LeBytes(Le(bytes), |bytes|) == bytes
  {
    if bytes != [] {
      LeBytesBack(bytes[1..]);
      assert bytes == [bytes[0]] + bytes[1..];
    }
  }
}
