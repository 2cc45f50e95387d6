/** Bytes, byte strings and fixed-width integers, shared by the codec modules. */
module Bytes {
  type Byte = x: int | 0 <= x < 256

  type ByteString = seq<Byte>

  function Pow256(n: nat): nat {
    if n == 0 then 1 else 256 * Pow256(n - 1)
  }

  lemma Powers()
    ensures Pow256(2) == 0x1_0000 && Pow256(4) == 0x1_0000_0000 && Pow256(8) == 0x1_0000_0000_0000_0000
  {
  }

  function LittleEndian(value: nat, width: nat): (b: ByteString)
    ensures |b| == width
  {
    if width == 0 then [] else [value % 256] + LittleEndian(value / 256, width - 1)
  }

  function ReadLittle(b: ByteString): (value: nat)
    ensures value < Pow256(|b|)
  {
    if b == [] then 0 else b[0] + 256 * ReadLittle(b[1..])
  }

  function BigEndian(value: nat, width: nat): (b: ByteString)
    ensures |b| == width
  {
    if width == 0 then [] else BigEndian(value / 256, width - 1) + [value % 256]
  }

  function ReadBig(b: ByteString): (value: nat)
    ensures value < Pow256(|b|)
  {
    if b == [] then 0 else 256 * ReadBig(b[..|b| - 1]) + b[|b| - 1]
  }

  function Zeros(n: nat): (b: ByteString)
    ensures |b| == n && forall k :: 0 <= k < n ==> b[k] == 0
  {
    seq(n, _ => 0)
  }

  lemma {:induction false} LittleRoundTrip(value: nat, width: nat)
    requires value < Pow256(width)
    ensures ReadLittle(LittleEndian(value, width)) == value
    decreases width
  {
    if width > 0 {
      LittleRoundTrip(value / 256, width - 1);
      assert LittleEndian(value, width)[1..] == LittleEndian(value / 256, width - 1);
    }
  }

  lemma LowDigit(digit: Byte, rest: nat)
    ensures (digit + 256 * rest) % 256 == digit && (digit + 256 * rest) / 256 == rest
  {
  }

  lemma {:induction false} LittleUnique(b: ByteString)
    ensures LittleEndian(ReadLittle(b), |b|) == b
    decreases |b|
  {
    if b != [] {
      LittleUnique(b[1..]);
      LowDigit(b[0], ReadLittle(b[1..]));
      assert b == [b[0]] + b[1..];
    }
  }

  lemma {:induction false} BigRoundTrip(value: nat, width: nat)
    requires value < Pow256(width)
    ensures ReadBig(BigEndian(value, width)) == value
    decreases width
  {
    if width > 0 {
      BigRoundTrip(value / 256, width - 1);
      assert BigEndian(value, width)[..width - 1] == BigEndian(value / 256, width - 1);
    }
  }

  lemma {:induction false} BigUnique(b: ByteString)
    ensures BigEndian(ReadBig(b), |b|) == b
    decreases |b|
  {
    if b != [] {
      BigUnique(b[..|b| - 1]);
      LowDigit(b[|b| - 1], ReadBig(b[..|b| - 1]));
      assert b == b[..|b| - 1] + [b[|b| - 1]];
    }
  }

  lemma SubSlice(s: ByteString, from: nat, to: nat, low: nat, high: nat)
    requires from <= to <= |s| && low <= high <= to - from
    ensures s[from..to][low..high] == s[from + low..from + high]
  {
    var left, right := s[from..to][low..high], s[from + low..from + high];
    assert |left| == |right|;
    forall k | 0 <= k < |left| ensures left[k] == right[k] {
      assert left[k] == s[from..to][low + k];
    }
  }
}
