/** Byte strings, and the 32-bit integer operators that JavaScript applies to numbers. */
module Bytes {
  type Byte = b: int | 0 <= b < 256
  type Bytes = seq<Byte>

  const U32: nat := 0x1_0000_0000

  /** 2 to the power n. */
  function Pow2(n: nat): (r: nat)
    ensures r >= 1
  {
    if n == 0 then 1 else 2 * Pow2(n - 1)
  }

  /** `x << s` on 32 bits, read as an unsigned number: bits pushed past bit 31 are lost. */
  function ShiftLeft32(x: nat, s: nat): nat {
    x * Pow2(s) % U32
  }

  /** `a | b`, bit by bit. */
  function BitOr(a: nat, b: nat): nat {
    if a == 0 && b == 0 then 0
    else (if a % 2 == 1 || b % 2 == 1 then 1 else 0) + 2 * BitOr(a / 2, b / 2)
  }

  /** Or-ing in a number whose low s bits are clear adds it to any number below 2^s. */
  lemma {:induction false} BitOrDisjoint(a: nat, b: nat, s: nat)
    requires a < Pow2(s)
    ensures BitOr(a, b * Pow2(s)) == a + b * Pow2(s)
  {
    if s == 0 {
      BitOrZero(b);
    } else {
      var p := Pow2(s - 1);
      assert b * Pow2(s) == 2 * (b * p);
      BitOrDisjoint(a / 2, b, s - 1);
    }
  }

  lemma {:induction false} BitOrZero(b: nat)
    ensures BitOr(0, b) == b
  {
    if b != 0 {
      BitOrZero(b / 2);
    }
  }

  /** The bytes `e` stand in `buf` from position `pos` on. */
  ghost predicate At(buf: Bytes, pos: nat, e: Bytes) {
    pos + |e| <= |buf| && buf[pos..pos + |e|] == e
  }

  lemma AtSplit(buf: Bytes, pos: nat, a: Bytes, b: Bytes)
    requires At(buf, pos, a + b)
    ensures At(buf, pos, a) && At(buf, pos + |a|, b)
  {
    var e := a + b;
    assert a == e[..|a|] && b == e[|a|..];
    assert buf[pos..pos + |a|] == buf[pos..pos + |e|][..|a|];
    assert buf[pos + |a|..pos + |e|] == buf[pos..pos + |e|][|a|..];
  }
}
