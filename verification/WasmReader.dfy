/** The byte reader of the WASM scanner: what each read returns and where it leaves the position. */
module WasmReader {
  import opened Bytes
  import opened Wrappers

  /** What the reader throws; its text is not modelled. */
  datatype RangeError = RangeError

  /** What a read started at some position does: its value, or an exception, and the position it leaves. */
  datatype Read<+T> = Ok(value: T, pos: nat) | Throw(pos: nat) {
    predicate IsFailure() { Throw? }
    function PropagateFailure<U>(): Read<U> requires Throw? { Throw(pos) }
    function Extract(): (T, nat) requires Ok? { (value, pos) }
  }

  /** The outcome of a method call, seen together with the position after it. */
  function Seen<T>(r: Result<T, RangeError>, pos: nat): Read<T> {
    match r
    case Success(v) => Ok(v, pos)
    case Failure(_) => Throw(pos)
  }

  // ----- LEB128 -----

  /** A terminated LEB128 group of k bytes, at most five, starts at `pos`: only its last byte has a clear high bit. */
  predicate GroupAt(buf: Bytes, pos: nat, k: nat) {
    && 1 <= k <= 5 && pos + k <= |buf| && buf[pos + k - 1] < 128
    && forall j :: pos <= j < pos + k - 1 ==> buf[j] >= 128
  }

  predicate IsGroup(g: Bytes) {
    GroupAt(g, 0, |g|)
  }

  /** The base-128 little-endian number spelled by the low seven bits of each byte. */
  function GroupValue(g: Bytes): nat {
    if g == [] then 0 else g[0] % 128 + 128 * GroupValue(g[1..])
  }

  /** Length of the group that starts at `pos`, having found `i` continuation bytes; 0 if there is none. */
  function GroupLength(buf: Bytes, pos: nat, i: nat): nat
    requires i <= 5
    decreases 5 - i
  {
    if i == 5 || pos + i >= |buf| then 0
    else if buf[pos + i] < 128 then i + 1
    else GroupLength(buf, pos, i + 1)
  }

  function LebAt(buf: Bytes, pos: nat): Read<nat>
  {
    var n := GroupLength(buf, pos, 0);
    if n == 0 then Throw(if pos + 5 <= |buf| then pos + 5 else |buf|)
    else
      GroupLengthBound(buf, pos, 0);
      Ok(GroupValue(buf[pos..pos + n]) % U32, pos + n)
  }

  lemma GroupLengthBound(buf: Bytes, pos: nat, i: nat)
    requires i <= 5
    ensures var n := GroupLength(buf, pos, i); n != 0 ==> i < n <= 5 && pos + n <= |buf|
    decreases 5 - i
  {
  }

  lemma GroupLengthIsGroup(buf: Bytes, pos: nat, i: nat)
    requires i <= 5 && pos + i <= |buf|
    requires forall j :: pos <= j < pos + i ==> buf[j] >= 128
    ensures var n := GroupLength(buf, pos, i);
            (n != 0 ==> GroupAt(buf, pos, n)) && forall k :: GroupAt(buf, pos, k) ==> k == n
    decreases 5 - i
  {
    if i < 5 && pos + i < |buf| {
      if buf[pos + i] >= 128 {
        GroupLengthIsGroup(buf, pos, i + 1);
      } else {
        assert forall k: nat :: GroupAt(buf, pos, k) && k > i + 1 ==> buf[pos + i] >= 128;
      }
    }
  }

  /** A read succeeds exactly when a group of at most five bytes starts here; it returns the group's
      value modulo 2^32 and steps over exactly that group. Otherwise it throws, having consumed the
      five bytes it may look at, or all there are. */
  lemma LebMeaning(buf: Bytes, pos: nat)
    requires pos <= |buf|
    ensures LebAt(buf, pos).Ok? <==> exists k :: GroupAt(buf, pos, k)
    ensures forall k :: GroupAt(buf, pos, k) ==> LebAt(buf, pos) == Ok(GroupValue(buf[pos..pos + k]) % U32, pos + k)
    ensures LebAt(buf, pos).Throw? ==> LebAt(buf, pos).pos == if pos + 5 <= |buf| then pos + 5 else |buf|
    ensures pos <= LebAt(buf, pos).pos <= |buf|
    ensures LebAt(buf, pos).Ok? ==> LebAt(buf, pos).pos > pos && LebAt(buf, pos).value < U32
  {
    GroupLengthBound(buf, pos, 0);
    GroupLengthIsGroup(buf, pos, 0);
  }

  lemma LebBounds(buf: Bytes, pos: nat)
    requires pos <= |buf|
    ensures var r := LebAt(buf, pos); pos <= r.pos <= |buf| && (r.Ok? ==> r.pos > pos && r.value < U32)
  {
    LebMeaning(buf, pos);
  }

  // ----- Encodings of u32 (section 5.2.2 of the WebAssembly Core Specification) -----

  /** The shortest encoding of n. */
  function MinimalLeb(n: nat): Bytes {
    if n < 128 then [n] else [128 + n % 128] + MinimalLeb(n / 128)
  }

  /** The encoding of n stretched to `width` bytes, as linkers write it. */
  function PaddedLeb(n: nat, width: nat): Bytes
    requires width >= 1
  {
    if width == 1 then [n % 128] else [128 + n % 128] + PaddedLeb(n / 128, width - 1)
  }

  /** A group is one way to write a number; a number may be written differently each time. */
  predicate Spells(g: Bytes, n: nat) {
    IsGroup(g) && Value(g) == n
  }

  /** The u32 that a group is read as. */
  function Value(g: Bytes): nat {
    GroupValue(g) % U32
  }

  function Pow128(k: nat): nat {
    if k == 0 then 1 else 128 * Pow128(k - 1)
  }

  lemma GroupCons(low: nat, g: Bytes)
    requires low < 128 && IsGroup(g) && |g| < 5
    ensures IsGroup([128 + low] + g) && GroupValue([128 + low] + g) == low + 128 * GroupValue(g)
  {
    var h: Bytes := [128 + low] + g;
    assert h[1..] == g;
    assert forall j :: 0 < j < |h| ==> h[j] == g[j - 1];
  }

  lemma SplitLow(n: nat, k: nat)
    requires k >= 1 && n < Pow128(k)
    ensures n / 128 < Pow128(k - 1) && n == n % 128 + 128 * (n / 128)
  {
  }

  lemma {:induction false} MinimalLebSpells(n: nat, k: nat)
    requires 1 <= k <= 5 && n < Pow128(k)
    ensures |MinimalLeb(n)| <= k && IsGroup(MinimalLeb(n)) && GroupValue(MinimalLeb(n)) == n
  {
    if n >= 128 {
      SplitLow(n, k);
      assert k > 1 by { assert Pow128(1) == 128 * Pow128(0); }
      hide Pow128;
      MinimalLebSpells(n / 128, k - 1);
      GroupCons(n % 128, MinimalLeb(n / 128));
    } else {
      assert GroupValue([n]) == n + 128 * GroupValue([n][1..]);
    }
  }

  lemma {:induction false} PaddedLebSpells(n: nat, k: nat)
    requires 1 <= k <= 5 && n < Pow128(k)
    ensures |PaddedLeb(n, k)| == k && IsGroup(PaddedLeb(n, k)) && GroupValue(PaddedLeb(n, k)) == n
  {
    if k > 1 {
      SplitLow(n, k);
      hide Pow128;
      PaddedLebSpells(n / 128, k - 1);
      GroupCons(n % 128, PaddedLeb(n / 128, k - 1));
    } else {
      assert Pow128(1) == 128 * Pow128(0);
      assert PaddedLeb(n, 1) == [n];
      assert GroupValue([n]) == n + 128 * GroupValue([n][1..]);
    }
  }

  /** Every u32 can be written in its shortest form and padded to five bytes. */
  lemma EveryU32IsSpelled(n: nat)
    requires n < U32
    ensures Spells(MinimalLeb(n), n) && Spells(PaddedLeb(n, 5), n)
  {
    assert Pow128(5) == 128 * (128 * (128 * (128 * (128 * Pow128(0))))) by {
      assert Pow128(2) == 128 * Pow128(1) && Pow128(3) == 128 * Pow128(2) && Pow128(4) == 128 * Pow128(3);
    }
    hide Pow128, MinimalLeb, PaddedLeb;
    MinimalLebSpells(n, 5);
    PaddedLebSpells(n, 5);
  }

  /** Wherever a group stands, reading returns the number it spells and steps over it. */
  lemma LebRoundTrip(buf: Bytes, pos: nat, g: Bytes)
    requires IsGroup(g) && At(buf, pos, g)
    ensures LebAt(buf, pos) == Ok(Value(g), pos + |g|) && |g| >= 1
  {
    assert forall j :: 0 <= j < |g| ==> g[j] == buf[pos + j];
    assert forall j :: pos <= j < pos + |g| ==> buf[j] == g[j - pos];
    assert GroupAt(buf, pos, |g|);
    LebMeaning(buf, pos);
  }

  // ----- The other reads -----

  function ByteAt(buf: Bytes, pos: nat): Read<Byte> {
    if pos >= |buf| then Throw(pos) else Ok(buf[pos], pos + 1)
  }

  /** A length and that many bytes: the result of both `readString` and `readByteVec`. */
  function VecAt(buf: Bytes, pos: nat): Read<Bytes>
  {
    var (len, p) :- LebAt(buf, pos);
    if p + len > |buf| then Throw(p) else Ok(buf[p..p + len], p + len)
  }

  function SkipAt(buf: Bytes, pos: nat, n: int): Read<()> {
    if n < 0 || pos + n > |buf| then Throw(pos) else Ok((), pos + n)
  }

  function Ignore<T>(r: Read<T>): Read<()> {
    match r
    case Ok(_, p) => Ok((), p)
    case Throw(p) => Throw(p)
  }

  /** The operand that follows an init-expression opcode. */
  function OperandAt(buf: Bytes, pos: nat, op: Byte): Read<()> {
    match op
    case 0x41 => Ignore(LebAt(buf, pos))
    case 0x42 => Ignore(LebAt(buf, pos))
    case 0x23 => Ignore(LebAt(buf, pos))
    case 0xd2 => Ignore(LebAt(buf, pos))
    case 0x43 => SkipAt(buf, pos, 4)
    case 0x44 => SkipAt(buf, pos, 8)
    case 0xd0 => Ignore(ByteAt(buf, pos))
    case 0xfc => Ignore(LebAt(buf, pos))
    case _ => Ok((), pos)
  }

  const MAX_OPS: nat := 64

  /** Skips opcodes until `end`; gives up in silence at the end of the buffer or after 64 opcodes. */
  function InitExprAt(buf: Bytes, pos: nat, ops: nat): Read<()>
    decreases MAX_OPS - ops
  {
    if pos >= |buf| || ops >= MAX_OPS then Ok((), pos)
    else if buf[pos] == 0x0b then Ok((), pos + 1)
    else
      var (_, p) :- OperandAt(buf, pos + 1, buf[pos]);
      InitExprAt(buf, p, ops + 1)
  }

  // ----- The reader object -----

  class BufferReader {
    const buf: Bytes
    var pos: nat

    constructor (buf: Bytes)
      ensures this.buf == buf && pos == 0
    {
      this.buf := buf;
      pos := 0;
    }

    predicate Valid() reads this {
      pos <= |buf|
    }

    /** The `pos` setter. */
    method SetPos(n: int) returns (r: Result<(), RangeError>)
      modifies this`pos
      ensures if 0 <= n <= |buf| then r == Success(()) && pos == n else r == Failure(RangeError) && pos == old(pos)
    {
      if n < 0 || n > |buf| {
        return Failure(RangeError);
      }
      pos := n;
      return Success(());
    }

    method ReadByte() returns (r: Result<Byte, RangeError>)
      requires Valid()
      modifies this`pos
      ensures Valid() && Seen(r, pos) == ByteAt(buf, old(pos))
    {
      if pos >= |buf| {
        return Failure(RangeError);
      }
      pos := pos + 1;
      return Success(buf[pos - 1]);
    }

    /** Or-s seven bits per byte into a 32-bit result. */
    method ReadLEB128U() returns (r: Result<nat, RangeError>)
      requires Valid()
      modifies this`pos
      ensures Valid() && Seen(r, pos) == LebAt(buf, old(pos))
    {
      ghost var start := pos;
      var result: nat, shift: nat := 0, 0;
      assert LebSoFar(buf, start, 0, 0);
      hide LebSoFar, LebAt;
      for i := 0 to 5
        invariant shift == 7 * i && pos == start + i <= |buf| && LebSoFar(buf, start, i, result)
      {
        LebStep(buf, start, i, result);
        var byte :- ReadByte();
        result := BitOr(result, ShiftLeft32(byte % 128, shift));
        if byte < 128 {
          return Success(result % U32);
        }
        shift := shift + 7;
      }
      LebTooLong(buf, start, result);
      return Failure(RangeError);
    }

    method ReadString() returns (r: Result<Bytes, RangeError>)
      requires Valid()
      modifies this`pos
      ensures Valid() && Seen(r, pos) == VecAt(buf, old(pos))
    {
      LebBounds(buf, pos);
      var len :- ReadLEB128U();
      if pos + len > |buf| {
        return Failure(RangeError);
      }
      var str := buf[pos..pos + len];
      pos := pos + len;
      return Success(str);
    }

    method ReadByteVec() returns (r: Result<Bytes, RangeError>)
      requires Valid()
      modifies this`pos
      ensures Valid() && Seen(r, pos) == VecAt(buf, old(pos))
    {
      LebBounds(buf, pos);
      var len :- ReadLEB128U();
      if pos + len > |buf| {
        return Failure(RangeError);
      }
      var slice := buf[pos..pos + len];
      pos := pos + len;
      return Success(slice);
    }

    method Skip(n: int) returns (r: Result<(), RangeError>)
      requires Valid()
      modifies this`pos
      ensures Valid() && Seen(r, pos) == SkipAt(buf, old(pos), n)
    {
      if n < 0 || pos + n > |buf| {
        return Failure(RangeError);
      }
      pos := pos + n;
      return Success(());
    }

    method SkipInitExpr() returns (r: Result<(), RangeError>)
      requires Valid()
      modifies this`pos
      ensures Valid() && Seen(r, pos) == InitExprAt(buf, old(pos), 0)
    {
      hide LebAt;
      var safety := 0;
      while pos < |buf| && safety < MAX_OPS
        invariant Valid() && safety <= MAX_OPS
        invariant InitExprAt(buf, old(pos), 0) == InitExprAt(buf, pos, safety)
        decreases MAX_OPS - safety
      {
        safety := safety + 1;
        var read := ReadByte();  // cannot throw: the guard has just seen a byte
        var op := read.value;
        match op {
          case 0x0b => return Success(());
          case 0x41 => var _ :- ReadLEB128U();
          case 0x42 => var _ :- ReadLEB128U();
          case 0x23 => var _ :- ReadLEB128U();
          case 0xd2 => var _ :- ReadLEB128U();
          case 0x43 => var _ :- Skip(4);
          case 0x44 => var _ :- Skip(8);
          case 0xd0 => var _ :- ReadByte();
          case 0xfc => var _ :- ReadLEB128U();
          case _ =>
        }
      }
      return Success(());
    }
  }

  /** After i continuation bytes: no group has ended yet, and the bits read so far spell a number. */
  ghost predicate LebSoFar(buf: Bytes, start: nat, i: nat, result: nat) {
    && i <= 5 && start + i <= |buf|
    && GroupLength(buf, start, 0) == GroupLength(buf, start, i)
    && (i < 5 ==> result == GroupValue(buf[start..start + i]) < Pow2(7 * i))
  }

  lemma LebStep(buf: Bytes, start: nat, i: nat, result: nat)
    requires i < 5 && LebSoFar(buf, start, i, result)
    ensures if start + i == |buf| then LebAt(buf, start) == Throw(|buf|)
            else
              var next := BitOr(result, ShiftLeft32(buf[start + i] % 128, 7 * i));
              if buf[start + i] < 128 then LebAt(buf, start) == Ok(next % U32, start + i + 1)
              else LebSoFar(buf, start, i + 1, next)
  {
    if start + i < |buf| {
      var byte := buf[start + i];
      assert buf[start..start + i] + [byte] == buf[start..start + i + 1];
      GroupValueSnoc(buf[start..start + i], byte);
      hide BitOr, ShiftLeft32, Pow2, GroupValue;
      OrInSevenBits(result, byte % 128, i);
    }
  }

  lemma LebTooLong(buf: Bytes, start: nat, result: nat)
    requires LebSoFar(buf, start, 5, result)
    ensures LebAt(buf, start) == Throw(start + 5)
  {
  }

  lemma {:induction false} GroupValueSnoc(g: Bytes, b: Byte)
    ensures GroupValue(g + [b]) == GroupValue(g) + b % 128 * Pow2(7 * |g|)
  {
    if g == [] {
      assert [b][1..] == [];
    } else {
      GroupValueSnoc(g[1..], b);
      assert (g + [b])[1..] == g[1..] + [b];
      Pow2Step7(|g| - 1);
      var p := Pow2(7 * (|g| - 1));
      assert 128 * (b % 128 * p) == b % 128 * (128 * p);
    }
  }

  /** Or-ing in the next seven bits adds them, up to the loss of the bits past bit 31. */
  lemma OrInSevenBits(r: nat, x: nat, i: nat)
    requires i < 5 && x < 128 && r < Pow2(7 * i)
    ensures BitOr(r, ShiftLeft32(x, 7 * i)) % U32 == (r + x * Pow2(7 * i)) % U32
    ensures i < 4 ==> BitOr(r, ShiftLeft32(x, 7 * i)) == r + x * Pow2(7 * i) < Pow2(7 * i + 7)
  {
    var p := Pow2(7 * i);
    var kept := if i < 4 then x else x % 16;
    SmallPower(i);
    ShiftKeeps(r, x, i, p);
    BitOrDisjoint(r, kept, 7 * i);
    Pow2Step7(i);
  }

  lemma ShiftKeeps(r: nat, x: nat, i: nat, p: nat)
    requires i < 5 && x < 128 && r < p == SevenBitPower(i)
    ensures x * p % U32 == (if i < 4 then x else x % 16) * p
    ensures (r + (if i < 4 then x else x % 16) * p) % U32 == (r + x * p) % U32
    ensures i < 4 ==> r + x * p < 128 * p
  {
    if i == 4 {
      assert x * p == x % 16 * p + x / 16 * U32;
    }
  }

  function SevenBitPower(i: nat): nat {
    match i
    case 0 => 1
    case 1 => 0x80
    case 2 => 0x4000
    case 3 => 0x20_0000
    case _ => 0x1000_0000
  }

  lemma SmallPower(i: nat)
    requires i < 5
    ensures Pow2(7 * i) == SevenBitPower(i)
  {
    Pow2Step7(0);
    Pow2Step7(1);
    Pow2Step7(2);
    Pow2Step7(3);
  }

  lemma Pow2Step7(k: nat)
    ensures Pow2(7 * k + 7) == 128 * Pow2(7 * k)
  {
    var n := 7 * k;
    assert Pow2(n + 2) == 4 * Pow2(n) by { assert Pow2(n + 1) == 2 * Pow2(n); }
    assert Pow2(n + 4) == 4 * Pow2(n + 2) by { assert Pow2(n + 3) == 2 * Pow2(n + 2); }
    assert Pow2(n + 6) == 4 * Pow2(n + 4) by { assert Pow2(n + 5) == 2 * Pow2(n + 4); }
  }
}
