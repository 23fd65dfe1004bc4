/** The Sensirion CRC-8 (polynomial 0x31) and the word checks of the SDP510 and SDP810
    drivers. Bytes are `bv8`. Facts about whole messages need only one law of the register
    step, so they are proved for a fold over any element type. */
module Crc8 {

  type Byte = bv8

  const POLY: Byte := 0x31

  /** Addition of polynomials over GF(2). */
  function Plus(a: Byte, b: Byte): Byte {
    a ^ b
  }

  function Shift(crc: Byte): Byte {
    if crc & 0x80 != 0 then Plus(crc << 1, POLY) else crc << 1
  }

  function Shifts(crc: Byte, n: nat): Byte {
    if n == 0 then crc else Shift(Shifts(crc, n - 1))
  }

  /** The effect of one input byte on the register. */
  function Absorb(crc: Byte, byte: Byte): Byte {
    Shifts(Plus(crc, byte), 8)
  }

  function Fold<T>(step: (T, T) -> T, data: seq<T>, init: T): T {
    if data == [] then init else step(Fold(step, data[..|data| - 1], init), data[|data| - 1])
  }

  function Crc(data: seq<Byte>, init: Byte): Byte {
    Fold(Absorb, data, init)
  }

  method SensirionCrc8(data: seq<Byte>, init: Byte) returns (crc: Byte)
    ensures crc == Crc(data, init)
  {
    crc := init;
    for i := 0 to |data|
      invariant crc == Crc(data[..i], init)
    {
      crc := crc ^ data[i];
      ghost var start := crc;
      for j := 0 to 8
        invariant crc == Shifts(start, j)
      {
        var msb := crc & 0x80;
        crc := crc << 1;
        if msb != 0 {
          crc := crc ^ POLY;
        }
      }
      assert data[..i + 1][..i] == data[..i];
    }
    assert data[..|data|] == data;
  }

  // ----- Algebra of the register -----

  lemma PlusLaws(a: Byte, b: Byte, c: Byte)
    ensures Plus(a, b) == Plus(b, a)
    ensures Plus(Plus(a, b), c) == Plus(a, Plus(b, c))
    ensures Plus(a, a) == 0 && Plus(a, 0) == a && Plus(0, a) == a
  {
  }

  lemma PlusMedial(a: Byte, b: Byte, x: Byte, y: Byte)
    ensures Plus(Plus(a, b), Plus(x, y)) == Plus(Plus(a, x), Plus(b, y))
  {
    PlusLaws(a, b, Plus(x, y));
    PlusLaws(b, x, y);
    PlusLaws(x, b, y);
    PlusLaws(a, x, Plus(b, y));
  }

  lemma PlusZero(a: Byte, b: Byte)
    ensures Plus(a, b) == 0 <==> a == b
  {
  }

  lemma PlusCancel(a: Byte, b: Byte)
    ensures Plus(a, Plus(a, b)) == b
  {
    PlusLaws(a, a, b);
    PlusLaws(b, b, b);
  }

  lemma PlusInjective(a: Byte, b: Byte, c: Byte)
    ensures Plus(a, c) == Plus(b, c) <==> a == b
  {
    PlusLaws(a, c, c);
    PlusLaws(b, c, c);
    PlusLaws(c, c, c);
  }

  lemma MsbSplits(a: Byte, b: Byte)
    ensures Plus(a, b) & 0x80 == (a & 0x80) ^ (b & 0x80)
    ensures Plus(a, b) << 1 == Plus(a << 1, b << 1)
    ensures a & 0x80 == 0 || a & 0x80 == 0x80
    ensures b & 0x80 == 0 || b & 0x80 == 0x80
  {
  }

  lemma PlusShuffle(a: Byte, b: Byte, p: Byte)
    ensures Plus(Plus(a, p), b) == Plus(Plus(a, b), p)
    ensures Plus(a, Plus(b, p)) == Plus(Plus(a, b), p)
    ensures Plus(Plus(a, p), Plus(b, p)) == Plus(a, b)
  {
    PlusLaws(a, b, p);
    PlusLaws(a, p, b);
    PlusLaws(p, b, b);
    PlusMedial(a, p, b, p);
    PlusLaws(p, p, p);
    PlusLaws(Plus(a, b), 0, 0);
  }

  lemma ShiftLinear(a: Byte, b: Byte)
    ensures Shift(Plus(a, b)) == Plus(Shift(a), Shift(b))
  {
    MsbSplits(a, b);
    PlusShuffle(a << 1, b << 1, POLY);
  }

  lemma ShiftNonZero(a: Byte)
    ensures Shift(a) == 0 <==> a == 0
  {
  }

  lemma {:induction false} ShiftsLinear(a: Byte, b: Byte, n: nat)
    ensures Shifts(Plus(a, b), n) == Plus(Shifts(a, n), Shifts(b, n))
  {
    if n > 0 {
      ShiftsLinear(a, b, n - 1);
      ShiftLinear(Shifts(a, n - 1), Shifts(b, n - 1));
    }
  }

  lemma {:induction false} ShiftsNonZero(a: Byte, n: nat)
    ensures Shifts(a, n) == 0 <==> a == 0
  {
    if n > 0 {
      ShiftsNonZero(a, n - 1);
      ShiftNonZero(Shifts(a, n - 1));
    }
  }

  lemma {:induction false} ShiftsAdd(a: Byte, m: nat, n: nat)
    ensures Shifts(a, m + n) == Shifts(Shifts(a, m), n)
  {
    if n > 0 {
      ShiftsAdd(a, m, n - 1);
    }
  }

  lemma ShiftsInjective(a: Byte, b: Byte, n: nat)
    ensures Shifts(a, n) == Shifts(b, n) <==> a == b
  {
    ShiftsLinear(a, b, n);
    ShiftsNonZero(Plus(a, b), n);
    PlusZero(Shifts(a, n), Shifts(b, n));
    PlusZero(a, b);
  }

  lemma StepAdditive(r: Byte, s: Byte, a: Byte, b: Byte, n: nat)
    ensures Shifts(Plus(Plus(r, s), Plus(a, b)), n) == Plus(Shifts(Plus(r, a), n), Shifts(Plus(s, b), n))
  {
    PlusMedial(r, s, a, b);
    ShiftsLinear(Plus(r, a), Plus(s, b), n);
  }

  // ----- Messages: facts that need only a law of the step -----

  /** Equal registers after one more common input were equal before it. */
  ghost predicate Cancels<T(!new)>(step: (T, T) -> T) {
    forall r, s, x :: step(r, x) == step(s, x) ==> r == s
  }

  lemma {:induction false} FoldLinear<T(!new)>(plus: (T, T) -> T, step: (T, T) -> T,
      x: seq<T>, y: seq<T>, z: seq<T>, i: T, j: T)
    requires |x| == |y| == |z| && forall k :: 0 <= k < |z| ==> z[k] == plus(x[k], y[k])
    requires forall r, s, a, b :: step(plus(r, s), plus(a, b)) == plus(step(r, a), step(s, b))
    ensures Fold(step, z, plus(i, j)) == plus(Fold(step, x, i), Fold(step, y, j))
  {
    if x != [] {
      var k := |x| - 1;
      FoldLinear(plus, step, x[..k], y[..k], z[..k], i, j);
    }
  }

  lemma {:induction false} FoldConcat<T>(step: (T, T) -> T, x: seq<T>, y: seq<T>, init: T)
    ensures Fold(step, x + y, init) == Fold(step, y, Fold(step, x, init))
  {
    if y == [] {
      assert x + y == x;
    } else {
      FoldConcat(step, x, y[..|y| - 1], init);
      assert (x + y)[..|x + y| - 1] == x + y[..|y| - 1];
    }
  }

  lemma {:induction false} CommonTail<T(!new)>(step: (T, T) -> T, r: T, s: T, tail: seq<T>)
    requires Cancels(step)
    requires Fold(step, tail, r) == Fold(step, tail, s)
    ensures r == s
  {
    if tail != [] {
      CommonTail(step, r, s, tail[..|tail| - 1]);
    }
  }

  /** A register difference made in the middle of a message survives its common tail. */
  lemma MiddleChange<T(!new)>(step: (T, T) -> T, pre: seq<T>, a: seq<T>, b: seq<T>, tail: seq<T>, init: T)
    requires Cancels(step)
    requires Fold(step, a, Fold(step, pre, init)) != Fold(step, b, Fold(step, pre, init))
    ensures Fold(step, pre + a + tail, init) != Fold(step, pre + b + tail, init)
  {
    FoldConcat(step, pre + a, tail, init);
    FoldConcat(step, pre, a, init);
    FoldConcat(step, pre + b, tail, init);
    FoldConcat(step, pre, b, init);
    if Fold(step, pre + a + tail, init) == Fold(step, pre + b + tail, init) {
      CommonTail(step, Fold(step, pre + a, init), Fold(step, pre + b, init), tail);
    }
  }

  lemma OneStep<T>(step: (T, T) -> T, r: T, x: T)
    ensures Fold(step, [x], r) == step(r, x)
  {
    assert [x][..0] == [];
  }

  lemma TwoSteps<T>(step: (T, T) -> T, r: T, x: T, y: T)
    ensures Fold(step, [x, y], r) == step(step(r, x), y)
  {
    assert [x, y][..1] == [x];
    OneStep(step, r, x);
  }

  // ----- The checksum -----

  lemma AbsorbCancels()
    ensures Cancels(Absorb)
  {
    forall r, s, x | Absorb(r, x) == Absorb(s, x)
      ensures r == s
    {
      ShiftsInjective(Plus(r, x), Plus(s, x), 8);
      PlusInjective(r, s, x);
    }
  }

  /** The checksum is XOR-linear in the pair (data, init), for messages of any length. */
  lemma CrcLinear(x: seq<Byte>, y: seq<Byte>, z: seq<Byte>, i: Byte, j: Byte)
    requires |x| == |y| == |z| && forall k :: 0 <= k < |z| ==> z[k] == Plus(x[k], y[k])
    ensures Crc(z, Plus(i, j)) == Plus(Crc(x, i), Crc(y, j))
  {
    forall r, s, a, b
      ensures Absorb(Plus(r, s), Plus(a, b)) == Plus(Absorb(r, a), Absorb(s, b))
    {
      StepAdditive(r, s, a, b, 8);
    }
    FoldLinear(Plus, Absorb, x, y, z, i, j);
  }

  /** Appending a byte gives a zero checksum exactly when that byte is the message's CRC. */
  lemma AppendedCrcGivesZero(data: seq<Byte>, init: Byte, c: Byte)
    ensures Crc(data + [c], init) == 0 <==> c == Crc(data, init)
  {
    assert (data + [c])[..|data|] == data;
    ShiftsNonZero(Plus(Crc(data, init), c), 8);
    PlusZero(Crc(data, init), c);
  }

  // ----- Burst errors -----

  /** A burst `b` of at most eight adjacent bits whose upper `s` bits fall in byte `i`
      and whose other bits fall in byte `i + 1`. */
  function Burst(data: seq<Byte>, i: nat, b: Byte, s: nat): (r: seq<Byte>)
    requires i + 1 < |data| && s <= 8
    ensures |r| == |data|
  {
    data[i := Plus(data[i], b >> (8 - s))][i + 1 := Plus(data[i + 1], b << s)]
  }

  lemma PlainShift(x: Byte)
    requires x & 0x80 == 0
    ensures Shift(x) == x << 1
  {
  }

  /** While no bit reaches the top, shifting the register is a plain left shift. */
  lemma PlainShiftsUpper(b: Byte, s: nat)
    requires s <= 8
    ensures Shifts(b >> (8 - s), 8 - s) == (b >> (8 - s)) << (8 - s)
  {
    var x := b >> (8 - s);
    if s <= 7 { PlainShift(x); assert Shifts(x, 1) == x << 1; }
    if s <= 6 { PlainShift(x << 1); assert Shifts(x, 2) == x << 2; }
    if s <= 5 { PlainShift(x << 2); assert Shifts(x, 3) == x << 3; }
    if s <= 4 { PlainShift(x << 3); assert Shifts(x, 4) == x << 4; }
    if s <= 3 { PlainShift(x << 4); assert Shifts(x, 5) == x << 5; }
    if s <= 2 { PlainShift(x << 5); assert Shifts(x, 6) == x << 6; }
    if s <= 1 { PlainShift(x << 6); assert Shifts(x, 7) == x << 7; }
    if s == 0 { PlainShift(x << 7); assert Shifts(x, 8) == x << 8; }
  }

  lemma PlainShiftsLower(b: Byte, s: nat)
    requires s <= 8
    ensures Shifts((b << s) >> s, s) == b << s
  {
    var x := (b << s) >> s;
    if s >= 1 { PlainShift(x); assert Shifts(x, 1) == x << 1; }
    if s >= 2 { PlainShift(x << 1); assert Shifts(x, 2) == x << 2; }
    if s >= 3 { PlainShift(x << 2); assert Shifts(x, 3) == x << 3; }
    if s >= 4 { PlainShift(x << 3); assert Shifts(x, 4) == x << 4; }
    if s >= 5 { PlainShift(x << 4); assert Shifts(x, 5) == x << 5; }
    if s >= 6 { PlainShift(x << 5); assert Shifts(x, 6) == x << 6; }
    if s >= 7 { PlainShift(x << 6); assert Shifts(x, 7) == x << 7; }
    if s >= 8 { PlainShift(x << 7); assert Shifts(x, 8) == x << 8; }
  }

  lemma PartsDisjoint(b: Byte, s: nat)
    requires s <= 8
    requires (b >> (8 - s)) << (8 - s) == (b << s) >> s
    ensures b == 0
  {
    if s == 0 {} else if s == 1 {} else if s == 2 {} else if s == 3 {}
    else if s == 4 {} else if s == 5 {} else if s == 6 {} else if s == 7 {} else {}
  }

  lemma BurstParts(b: Byte, s: nat)
    requires s <= 8
    ensures Shifts(b >> (8 - s), 8) == Shifts((b >> (8 - s)) << (8 - s), s)
    ensures b << s == Shifts((b << s) >> s, s)
  {
    ShiftsAdd(b >> (8 - s), 8 - s, s);
    PlainShiftsUpper(b, s);
    PlainShiftsLower(b, s);
  }

  /** Eight shifts of the upper part of a burst never cancel its lower part. */
  lemma BurstSyndrome(b: Byte, s: nat)
    requires s <= 8 && b != 0
    ensures Shifts(b >> (8 - s), 8) != b << s
  {
    BurstParts(b, s);
    var upper, lower := (b >> (8 - s)) << (8 - s), (b << s) >> s;
    ShiftsInjective(upper, lower, s);
    if upper == lower {
      PartsDisjoint(b, s);
    }
  }

  lemma StepDifference(r: Byte, x: Byte, d: Byte, n: nat)
    ensures Plus(Shifts(Plus(r, x), n), Shifts(Plus(r, Plus(x, d)), n)) == Shifts(d, n)
  {
    ShiftsLinear(Plus(r, x), Plus(r, Plus(x, d)), n);
    PlusLaws(r, x, d);
    PlusCancel(Plus(r, x), d);
  }

  lemma PlusCrossing(u: Byte, v: Byte, y: Byte, d: Byte)
    requires Plus(u, y) == Plus(v, Plus(y, d))
    ensures Plus(u, v) == d
  {
    PlusLaws(y, d, v);
    PlusLaws(d, v, y);
    PlusLaws(v, d, y);
    PlusLaws(v, y, d);
    PlusInjective(u, Plus(v, d), y);
    PlusLaws(v, d, v);
    PlusLaws(u, v, v);
    PlusCancel(v, d);
  }

  lemma TwoByteChange(r: Byte, x: Byte, y: Byte, hi: Byte, lo: Byte)
    requires Shifts(hi, 8) != lo
    ensures Absorb(Absorb(r, x), y) != Absorb(Absorb(r, Plus(x, hi)), Plus(y, lo))
  {
    var u, v := Absorb(r, x), Absorb(r, Plus(x, hi));
    StepDifference(r, x, hi, 8);
    ShiftsInjective(Plus(u, y), Plus(v, Plus(y, lo)), 8);
    if Plus(u, y) == Plus(v, Plus(y, lo)) {
      PlusCrossing(u, v, y, lo);
    }
  }

  /** Messages of any length that differ in one burst of at most eight bits have different
      checksums. */
  lemma BurstDetected(data: seq<Byte>, init: Byte, i: nat, b: Byte, s: nat)
    requires i + 1 < |data| && s <= 8 && b != 0
    ensures Crc(Burst(data, i, b, s), init) != Crc(data, init)
  {
    hide Plus, Absorb, Shifts;
    var bad := Burst(data, i, b, s);
    var pre, tail := data[..i], data[i + 2..];
    var r := Crc(pre, init);
    assert data == pre + [data[i], data[i + 1]] + tail;
    assert bad == pre + [bad[i], bad[i + 1]] + tail;
    BurstSyndrome(b, s);
    TwoByteChange(r, data[i], data[i + 1], b >> (8 - s), b << s);
    TwoSteps(Absorb, r, data[i], data[i + 1]);
    TwoSteps(Absorb, r, bad[i], bad[i + 1]);
    AbsorbCancels();
    MiddleChange(Absorb, pre, [data[i], data[i + 1]], [bad[i], bad[i + 1]], tail, init);
  }

  /** The same for a change confined to one byte, which may be the only byte. */
  lemma ByteChangeDetected(data: seq<Byte>, init: Byte, i: nat, v: Byte)
    requires i < |data| && v != data[i]
    ensures Crc(data[i := v], init) != Crc(data, init)
  {
    var pre, tail := data[..i], data[i + 1..];
    var r := Crc(pre, init);
    assert data == pre + [data[i]] + tail;
    assert data[i := v] == pre + [v] + tail;
    ShiftsInjective(Plus(r, data[i]), Plus(r, v), 8);
    PlusInjective(data[i], v, r);
    PlusLaws(r, data[i], 0);
    PlusLaws(r, v, 0);
    OneStep(Absorb, r, data[i]);
    OneStep(Absorb, r, v);
    AbsorbCancels();
    MiddleChange(Absorb, pre, [data[i]], [v], tail, init);
  }

  // ----- Odd numbers of flipped bits -----

  predicate Bit(b: Byte, mask: Byte) {
    b & mask != 0
  }

  predicate Parity(b: Byte) {
    ((((((Bit(b, 1) != Bit(b, 2)) != Bit(b, 4)) != Bit(b, 8)) != Bit(b, 16)) != Bit(b, 32)) != Bit(b, 64)) != Bit(b, 128)
  }

  function MessageParity(data: seq<Byte>): bool {
    if data == [] then false else MessageParity(data[..|data| - 1]) != Parity(data[|data| - 1])
  }

  lemma ShiftKeepsParity(b: Byte)
    ensures Parity(Shift(b)) == Parity(b)
  {
  }

  lemma {:induction false} ShiftsKeepParity(b: Byte, n: nat)
    ensures Parity(Shifts(b, n)) == Parity(b)
  {
    if n > 0 {
      ShiftsKeepParity(b, n - 1);
      ShiftKeepsParity(Shifts(b, n - 1));
    }
  }

  lemma MaskOfPlus(a: Byte, b: Byte, mask: Byte)
    ensures Plus(a, b) & mask == (a & mask) ^ (b & mask)
  {
  }

  lemma OneBit(a: Byte, mask: Byte)
    requires mask == 1 || mask == 2 || mask == 4 || mask == 8 || mask == 16 || mask == 32 || mask == 64 || mask == 128
    ensures a & mask == 0 || a & mask == mask
  {
  }

  lemma BitOfPlus(a: Byte, b: Byte, mask: Byte)
    requires mask == 1 || mask == 2 || mask == 4 || mask == 8 || mask == 16 || mask == 32 || mask == 64 || mask == 128
    ensures Bit(Plus(a, b), mask) == (Bit(a, mask) != Bit(b, mask))
  {
    MaskOfPlus(a, b, mask);
    OneBit(a, mask);
    OneBit(b, mask);
  }

  lemma ParityOfPlus(a: Byte, b: Byte)
    ensures Parity(Plus(a, b)) == (Parity(a) != Parity(b))
  {
    BitOfPlus(a, b, 1);
    BitOfPlus(a, b, 2);
    BitOfPlus(a, b, 4);
    BitOfPlus(a, b, 8);
    BitOfPlus(a, b, 16);
    BitOfPlus(a, b, 32);
    BitOfPlus(a, b, 64);
    BitOfPlus(a, b, 128);
  }

  /** The polynomial is a multiple of x + 1: the checksum's parity is that of the message and
      the initial register together, so any odd number of flipped bits changes it. */
  lemma {:induction false} CrcParity(data: seq<Byte>, init: Byte)
    ensures Parity(Crc(data, init)) == (MessageParity(data) != Parity(init))
  {
    if data != [] {
      var k := |data| - 1;
      CrcParity(data[..k], init);
      var r := Crc(data[..k], init);
      ShiftsKeepParity(Plus(r, data[k]), 8);
      ParityOfPlus(r, data[k]);
    }
  }

  // ----- The drivers' frames -----

  datatype Reading = Rejected | Accepted(words: seq<int>)

  /** A big-endian word of a frame: two data bytes, then their checksum. */
  predicate WordOk(frame: seq<Byte>, at: nat, init: Byte)
    requires at + 3 <= |frame|
  {
    Crc(frame[at..at + 2], init) == frame[at + 2]
  }

  function Unsigned16(msb: Byte, lsb: Byte): int {
    msb as int * 256 + lsb as int
  }

  function Signed16(msb: Byte, lsb: Byte): int {
    var w := Unsigned16(msb, lsb);
    if w >= 32768 then w - 65536 else w
  }

  /** SDP510: one word, register started at 0x00, unsigned reading. */
  function ParseSdp510(frame: seq<Byte>): Reading
    requires |frame| == 3
  {
    if WordOk(frame, 0, 0x00) then Accepted([Unsigned16(frame[0], frame[1])]) else Rejected
  }

  /** SDP810: pressure, temperature and scale words, register started at 0xFF, signed readings. */
  function ParseSdp810(frame: seq<Byte>): Reading
    requires |frame| == 9
  {
    if !WordOk(frame, 0, 0xFF) then Rejected
    else if !WordOk(frame, 3, 0xFF) then Rejected
    else if !WordOk(frame, 6, 0xFF) then Rejected
    else Accepted([Signed16(frame[0], frame[1]), Signed16(frame[3], frame[4])])
  }

  lemma WordOkIsZeroSyndrome(frame: seq<Byte>, at: nat, init: Byte)
    requires at + 3 <= |frame|
    ensures WordOk(frame, at, init) <==> Crc(frame[at..at + 3], init) == 0
  {
    assert frame[at..at + 3] == frame[at..at + 2] + [frame[at + 2]];
    AppendedCrcGivesZero(frame[at..at + 2], init, frame[at + 2]);
  }

  /** A valid word with one byte changed is no longer valid. */
  lemma WordByteChange(f: seq<Byte>, g: seq<Byte>, at: nat, k: nat, init: Byte)
    requires |f| == |g| && at + 3 <= |f| && k < 3
    requires WordOk(f, at, init)
    requires g[at..at + 3] == f[at..at + 3][k := g[at + k]] && g[at + k] != f[at + k]
    ensures !WordOk(g, at, init)
  {
    WordOkIsZeroSyndrome(f, at, init);
    WordOkIsZeroSyndrome(g, at, init);
    ByteChangeDetected(f[at..at + 3], init, k, g[at + k]);
  }

  /** A valid word hit by a burst of at most eight bits is no longer valid. */
  lemma WordBurst(f: seq<Byte>, g: seq<Byte>, at: nat, k: nat, b: Byte, s: nat, init: Byte)
    requires |f| == |g| && at + 3 <= |f| && k < 2 && s <= 8 && b != 0
    requires WordOk(f, at, init)
    requires g[at..at + 3] == Burst(f[at..at + 3], k, b, s)
    ensures !WordOk(g, at, init)
  {
    WordOkIsZeroSyndrome(f, at, init);
    WordOkIsZeroSyndrome(g, at, init);
    BurstDetected(f[at..at + 3], init, k, b, s);
  }

  lemma BurstHitsAPart(b: Byte, s: nat)
    requires s <= 8 && b != 0
    ensures b >> (8 - s) != 0 || b << s != 0
  {
    if b >> (8 - s) == 0 {
      BurstSyndrome(b, s);
      ShiftsNonZero(0, 8);
    }
  }

  lemma PlusMoves(a: Byte, d: Byte)
    requires d != 0
    ensures Plus(a, d) != a
  {
  }

  /** A burst across two words changes the checksum byte of one or the first byte of the next. */
  lemma BurstAcrossWords(f: seq<Byte>, at: nat, b: Byte, s: nat, init: Byte)
    requires at + 6 <= |f| && s <= 8 && b != 0
    requires WordOk(f, at, init) && WordOk(f, at + 3, init)
    ensures var g := Burst(f, at + 2, b, s); !WordOk(g, at, init) || !WordOk(g, at + 3, init)
  {
    hide Plus, Crc, WordOk;
    var g := Burst(f, at + 2, b, s);
    BurstHitsAPart(b, s);
    if b >> (8 - s) != 0 {
      PlusMoves(f[at + 2], b >> (8 - s));
      assert g[at..at + 3] == f[at..at + 3][2 := g[at + 2]];
      WordByteChange(f, g, at, 2, init);
    } else {
      PlusMoves(f[at + 3], b << s);
      assert g[at + 3..at + 6] == f[at + 3..at + 6][0 := g[at + 3]];
      WordByteChange(f, g, at + 3, 0, init);
    }
  }

  lemma BurstInWord(f: seq<Byte>, at: nat, k: nat, b: Byte, s: nat, init: Byte)
    requires at + 3 <= |f| && k < 2 && s <= 8 && b != 0
    requires WordOk(f, at, init)
    ensures !WordOk(Burst(f, at + k, b, s), at, init)
  {
    assert Burst(f, at + k, b, s)[at..at + 3] == Burst(f[at..at + 3], k, b, s);
    WordBurst(f, Burst(f, at + k, b, s), at, k, b, s, init);
  }

  /** An accepted SDP810 frame hit anywhere by one burst of at most eight bits is rejected. */
  lemma Sdp810RejectsBursts(frame: seq<Byte>, i: nat, b: Byte, s: nat)
    requires |frame| == 9 && i + 1 < 9 && s <= 8 && b != 0
    requires ParseSdp810(frame).Accepted?
    ensures ParseSdp810(Burst(frame, i, b, s)).Rejected?
  {
    var at, k := i / 3 * 3, i % 3;
    if k == 2 {
      BurstAcrossWords(frame, at, b, s, 0xFF);
    } else {
      BurstInWord(frame, at, k, b, s, 0xFF);
    }
  }

  lemma Sdp510RejectsBursts(frame: seq<Byte>, i: nat, b: Byte, s: nat)
    requires |frame| == 3 && i + 1 < 3 && s <= 8 && b != 0
    requires ParseSdp510(frame).Accepted?
    ensures ParseSdp510(Burst(frame, i, b, s)).Rejected?
  {
    BurstInWord(frame, 0, i, b, s, 0x00);
  }

  /** Two valid words have the same parity, so an odd number of flipped bits is always caught. */
  lemma OddFlipsRejected(f: seq<Byte>, g: seq<Byte>, at: nat, init: Byte)
    requires |f| == |g| && at + 3 <= |f|
    requires WordOk(f, at, init)
    requires MessageParity(f[at..at + 3]) != MessageParity(g[at..at + 3])
    ensures !WordOk(g, at, init)
  {
    WordOkIsZeroSyndrome(f, at, init);
    WordOkIsZeroSyndrome(g, at, init);
    CrcParity(f[at..at + 3], init);
    CrcParity(g[at..at + 3], init);
  }

  // ----- A few flipped bits -----

  /** Bit `p` of the message flipped, counted from the first bit sent. */
  function Flip(data: seq<Byte>, p: nat): (r: seq<Byte>)
    requires p < 8 * |data|
    ensures |r| == |data|
  {
    data[p / 8 := Plus(data[p / 8], 0x80 >> (p % 8))]
  }

  lemma MaskIsShift(k: nat)
    requires k < 8
    ensures 0x80 >> k == Shifts(1, 7 - k)
  {
    assert Shifts(1, 1) == 0x02;
    assert Shifts(1, 2) == 0x04;
    assert Shifts(1, 3) == 0x08;
    assert Shifts(1, 4) == 0x10;
    assert Shifts(1, 5) == 0x20;
    assert Shifts(1, 6) == 0x40;
    assert Shifts(1, 7) == 0x80;
  }

  lemma AbsorbDifference(a: Byte, b: Byte, y: Byte)
    ensures Plus(Absorb(a, y), Absorb(b, y)) == Shifts(Plus(a, b), 8)
  {
    hide Plus;
    StepAdditive(a, b, y, y, 8);
    PlusLaws(y, y, y);
    PlusLaws(Plus(a, b), 0, 0);
  }

  /** A register difference is shifted along by whatever common bytes follow. */
  lemma {:induction false} TailDifference(a: Byte, b: Byte, tail: seq<Byte>)
    ensures Plus(Crc(tail, a), Crc(tail, b)) == Shifts(Plus(a, b), 8 * |tail|)
  {
    hide Plus, Absorb, Shifts;
    if tail == [] {
      ShiftsNone(Plus(a, b));
    } else {
      var k := |tail| - 1;
      TailDifference(a, b, tail[..k]);
      AbsorbDifference(Crc(tail[..k], a), Crc(tail[..k], b), tail[k]);
      ShiftsAdd(Plus(a, b), 8 * k, 8);
    }
  }

  lemma ShiftsNone(a: Byte)
    ensures Shifts(a, 0) == a
  {
  }

  /** The checksum change that flipping one bit makes depends on its place alone. */
  lemma FlipSyndrome(data: seq<Byte>, p: nat, init: Byte)
    requires p < 8 * |data|
    ensures Plus(Crc(data, init), Crc(Flip(data, p), init)) == Shifts(1, 8 * |data| - p + 7)
  {
    hide Plus, Absorb, Shifts;
    var i, k := p / 8, p % 8;
    var pre, tail, m := data[..i], data[i + 1..], 0x80 >> k;
    var x, r := data[i], Crc(data[..i], init);
    assert data == pre + [x] + tail;
    assert Flip(data, p) == pre + [Plus(x, m)] + tail;
    CrcParts(pre, x, tail, init);
    CrcParts(pre, Plus(x, m), tail, init);
    AbsorbFlip(r, x, m);
    TailDifference(Absorb(r, x), Absorb(r, Plus(x, m)), tail);
    MaskIsShift(k);
    ShiftsAdd(1, 7 - k, 8);
    ShiftsAdd(1, 15 - k, 8 * |tail|);
    assert 15 - k + 8 * |tail| == 8 * |data| - p + 7;
  }

  lemma AbsorbFlip(r: Byte, x: Byte, m: Byte)
    ensures Plus(Absorb(r, x), Absorb(r, Plus(x, m))) == Shifts(m, 8)
  {
    hide Plus, Shifts;
    StepDifference(r, x, m, 8);
  }

  lemma CrcParts(pre: seq<Byte>, x: Byte, tail: seq<Byte>, init: Byte)
    ensures Crc(pre + [x] + tail, init) == Crc(tail, Absorb(Crc(pre, init), x))
  {
    hide Absorb;
    FoldConcat(Absorb, pre + [x], tail, init);
    FoldConcat(Absorb, pre, [x], init);
    OneStep(Absorb, Crc(pre, init), x);
  }

  /** 127 shifts take the register from a single low bit back to it. */
  lemma FullPeriod()
    ensures Shifts(1, 127) == 1 && Shifts(1, 1) != 1
  {
    hide Shifts;
    ShiftsNone(1);
    OneMore(1, 0);
    EightMore(0, 0x01);
    EightMore(8, 0x31);
    EightMore(16, 0xF4);
    EightMore(24, 0x46);
    EightMore(32, 0x9B);
    EightMore(40, 0xD3);
    EightMore(48, 0x57);
    EightMore(56, 0xE9);
    EightMore(64, 0x49);
    EightMore(72, 0xB5);
    EightMore(80, 0x4A);
    EightMore(88, 0xE6);
    EightMore(96, 0x67);
    EightMore(104, 0x2C);
    EightMore(112, 0xFB);
    SevenMore(120, 0x68);
  }

  lemma OneMore(a: Byte, n: nat)
    ensures Shifts(a, n + 1) == Shift(Shifts(a, n))
  {
  }

  lemma SevenMore(n: nat, x: Byte)
    requires Shifts(1, n) == x
    ensures Shifts(1, n + 7) == Shift(Shift(Shift(Shift(Shift(Shift(Shift(x)))))))
  {
    hide Shift, Shifts;
    OneMore(1, n);
    OneMore(1, n + 1);
    OneMore(1, n + 2);
    OneMore(1, n + 3);
    OneMore(1, n + 4);
    OneMore(1, n + 5);
    OneMore(1, n + 6);
  }

  lemma EightMore(n: nat, x: Byte)
    requires Shifts(1, n) == x
    ensures Shifts(1, n + 8) == Shift(Shift(Shift(Shift(Shift(Shift(Shift(Shift(x))))))))
  {
    hide Shift, Shifts;
    SevenMore(n, x);
    OneMore(1, n + 7);
  }

  lemma PrimePeriod(d: nat)
    requires 2 <= d < 127
    ensures 127 % d != 0
  {
  }

  /** A shorter period would divide 127, by taking remainders down to one. */
  lemma {:induction false} NoShortPeriod(d: nat)
    requires 1 <= d < 127
    ensures Shifts(1, d) != 1
  {
    hide Shifts;
    FullPeriod();
    if d > 1 && Shifts(1, d) == 1 {
      PrimePeriod(d);
      PeriodRemainder(127, d);
      NoShortPeriod(127 % d);
    }
  }

  lemma {:induction false} PeriodMultiple(k: nat, d: nat, r: nat)
    requires Shifts(1, d) == 1
    ensures Shifts(1, d * k + r) == Shifts(1, r)
  {
    hide Shifts;
    if k > 0 {
      PeriodMultiple(k - 1, d, r);
      assert d * k == d + d * (k - 1);
      ShiftsAdd(1, d, d * (k - 1) + r);
    }
  }

  lemma PeriodRemainder(n: nat, d: nat)
    requires d > 0 && Shifts(1, d) == 1
    ensures Shifts(1, n) == Shifts(1, n % d)
  {
    hide Shifts;
    PeriodMultiple(n / d, d, n % d);
  }

  /** The register returns to a single low bit exactly after multiples of 127 shifts. */
  lemma PeriodIff(n: nat)
    ensures Shifts(1, n) == 1 <==> n % 127 == 0
  {
    hide Shifts;
    FullPeriod();
    PeriodRemainder(n, 127);
    ShiftsNone(1);
    if n % 127 != 0 {
      NoShortPeriod(n % 127);
    }
  }

  lemma SyndromesMeet(a: nat, b: nat)
    requires a <= b
    ensures Shifts(1, a) == Shifts(1, b) <==> (b - a) % 127 == 0
  {
    hide Shifts;
    ShiftsAdd(1, b - a, a);
    ShiftsInjective(1, Shifts(1, b - a), a);
    PeriodIff(b - a);
  }

  /** Two flips, in a message of any length, go undetected exactly when their distance is a multiple
      of 127 places. */
  lemma TwoFlipsIff(data: seq<Byte>, p: nat, q: nat, init: Byte)
    requires p <= q < 8 * |data|
    ensures Crc(Flip(Flip(data, p), q), init) == Crc(data, init) <==> (q - p) % 127 == 0
    ensures Crc(Flip(Flip(data, q), p), init) == Crc(data, init) <==> (q - p) % 127 == 0
  {
    hide Plus, Shifts, Crc;
    var a, b := 8 * |data| - p + 7, 8 * |data| - q + 7;
    FlipSyndrome(data, p, init);
    FlipSyndrome(Flip(data, p), q, init);
    FlipSyndrome(data, q, init);
    FlipSyndrome(Flip(data, q), p, init);
    SyndromesMeet(b, a);
    PlusReturns(Crc(data, init), Crc(Flip(data, p), init), Crc(Flip(Flip(data, p), q), init));
    PlusReturns(Crc(data, init), Crc(Flip(data, q), init), Crc(Flip(Flip(data, q), p), init));
  }

  lemma PlusReturns(x: Byte, y: Byte, z: Byte)
    ensures Plus(x, y) == Plus(y, z) <==> x == z
  {
    PlusLaws(y, z, z);
    PlusInjective(x, z, y);
  }

  lemma OneBitIsOdd(k: nat)
    requires k < 8
    ensures Parity(0x80 >> k)
  {
    if k == 0 {} else if k == 1 {} else if k == 2 {} else if k == 3 {} else if k == 4 {} else if k == 5 {} else if k == 6 {} else {}
  }

  lemma {:induction false} FlipParity(data: seq<Byte>, p: nat)
    requires p < 8 * |data|
    ensures MessageParity(Flip(data, p)) == !MessageParity(data)
  {
    hide Parity, Plus;
    var k := |data| - 1;
    if p / 8 == k {
      ParityOfPlus(data[k], 0x80 >> (p % 8));
      OneBitIsOdd(p % 8);
      assert Flip(data, p)[..k] == data[..k];
    } else {
      FlipParity(data[..k], p);
      assert Flip(data, p)[..k] == Flip(data[..k], p);
    }
  }

  /** The bits of `flips` flipped one after another. */
  function FlipAll(data: seq<Byte>, flips: seq<nat>): (r: seq<Byte>)
    requires forall i :: 0 <= i < |flips| ==> flips[i] < 8 * |data|
    ensures |r| == |data|
  {
    if flips == [] then data else Flip(FlipAll(data, flips[..|flips| - 1]), flips[|flips| - 1])
  }

  lemma FlipTwo(data: seq<Byte>, p: nat, q: nat)
    requires p < 8 * |data| && q < 8 * |data|
    ensures FlipAll(data, [p, q]) == Flip(Flip(data, p), q)
  {
    hide Flip;
    assert [p, q][..1] == [p] && [p][..0] == [];
    assert FlipAll(data, [p]) == Flip(data, p);
  }

  lemma {:induction false} FlipAllParity(data: seq<Byte>, flips: seq<nat>)
    requires forall i :: 0 <= i < |flips| ==> flips[i] < 8 * |data|
    ensures MessageParity(FlipAll(data, flips)) == if |flips| % 2 == 0 then MessageParity(data) else !MessageParity(data)
  {
    hide Flip, MessageParity;
    if flips != [] {
      var k := |flips| - 1;
      FlipAllParity(data, flips[..k]);
      FlipParity(FlipAll(data, flips[..k]), flips[k]);
    }
  }

  /** Minimum distance four: a valid three-byte word with one, two or three different bits flipped,
      or any odd number of them, is never valid again. */
  lemma FewFlipsRejected(word: seq<Byte>, flips: seq<nat>, init: Byte)
    requires |word| == 3 && WordOk(word, 0, init)
    requires forall i :: 0 <= i < |flips| ==> flips[i] < 24
    requires forall i, j :: 0 <= i < j < |flips| ==> flips[i] != flips[j]
    requires 1 <= |flips| <= 3 || |flips| % 2 == 1
    ensures !WordOk(FlipAll(word, flips), 0, init)
  {
    hide Flip, MessageParity, Crc;
    var bad := FlipAll(word, flips);
    assert word[0..3] == word && bad[0..3] == bad;
    WordOkIsZeroSyndrome(word, 0, init);
    WordOkIsZeroSyndrome(bad, 0, init);
    if |flips| % 2 == 1 {
      FlipAllParity(word, flips);
      OddFlipsRejected(word, bad, 0, init);
    } else {
      assert flips == [flips[0], flips[1]];
      FlipTwo(word, flips[0], flips[1]);
      if flips[0] < flips[1] {
        TwoFlipsIff(word, flips[0], flips[1], init);
      } else {
        TwoFlipsIff(word, flips[1], flips[0], init);
      }
    }
  }

  // ----- Frames end to end -----

  /** The test vector of the sensor's data sheet. */
  lemma DataSheetVector()
    ensures Crc([0xBE, 0xEF], 0xFF) == 0x92
  {
    hide Shifts;
    TwoSteps(Absorb, 0xFF, 0xBE, 0xEF);
    EightShifts(0x41);
    EightShifts(Plus(Shifts(0x41, 8), 0xEF));
  }

  lemma EightShifts(x: Byte)
    ensures Shifts(x, 8) == Shift(Shift(Shift(Shift(Shift(Shift(Shift(Shift(x))))))))
  {
    hide Shift, Shifts;
    ShiftsNone(x);
    OneMore(x, 0);
    OneMore(x, 1);
    OneMore(x, 2);
    OneMore(x, 3);
    OneMore(x, 4);
    OneMore(x, 5);
    OneMore(x, 6);
    OneMore(x, 7);
  }

  /** A word as the sensor sends it, high byte first, with its checksum. */
  function SentWord(msb: Byte, lsb: Byte, init: Byte): seq<Byte> {
    [msb, lsb, Crc([msb, lsb], init)]
  }

  lemma SentWordOk(frame: seq<Byte>, at: nat, msb: Byte, lsb: Byte, init: Byte)
    requires at + 3 <= |frame| && frame[at..at + 3] == SentWord(msb, lsb, init)
    ensures WordOk(frame, at, init) && frame[at] == msb && frame[at + 1] == lsb
  {
    hide Crc;
    var word := frame[at..at + 3];
    assert frame[at] == word[0] && frame[at + 1] == word[1] && frame[at + 2] == word[2];
    assert frame[at..at + 2] == [msb, lsb];
  }

  /** `n` is the signed 16-bit number with these bytes. */
  ghost predicate IsSigned(n: int, msb: Byte, lsb: Byte) {
    -32768 <= n < 32768 && (n == 256 * msb as int + lsb as int || n == 256 * msb as int + lsb as int - 65536)
  }

  lemma SignedIs(msb: Byte, lsb: Byte)
    ensures IsSigned(Signed16(msb, lsb), msb, lsb)
  {
    var m, l := msb as int, lsb as int;
    assert 0 <= m < 256 && 0 <= l < 256;
  }

  /** Every SDP810 frame with good checksums is accepted and gives pressure and temperature as the
      signed numbers of its first two words. */
  lemma Sdp810Reads(p1: Byte, p0: Byte, t1: Byte, t0: Byte, s1: Byte, s0: Byte) returns (pressure: int, temperature: int)
    ensures IsSigned(pressure, p1, p0) && IsSigned(temperature, t1, t0)
    ensures ParseSdp810(SentWord(p1, p0, 0xFF) + SentWord(t1, t0, 0xFF) + SentWord(s1, s0, 0xFF)) == Accepted([pressure, temperature])
  {
    hide Crc, WordOk, Signed16, IsSigned;
    var a, b, c := SentWord(p1, p0, 0xFF), SentWord(t1, t0, 0xFF), SentWord(s1, s0, 0xFF);
    var frame := a + b + c;
    assert frame[0..3] == a && frame[3..6] == b && frame[6..9] == c;
    SentWordOk(frame, 0, p1, p0, 0xFF);
    SentWordOk(frame, 3, t1, t0, 0xFF);
    SentWordOk(frame, 6, s1, s0, 0xFF);
    SignedIs(p1, p0);
    SignedIs(t1, t0);
    pressure, temperature := Signed16(p1, p0), Signed16(t1, t0);
  }

  /** And every such SDP510 frame gives its one word as an unsigned number. */
  lemma Sdp510Reads(msb: Byte, lsb: Byte)
    ensures ParseSdp510(SentWord(msb, lsb, 0x00)) == Accepted([256 * msb as int + lsb as int])
  {
    hide Crc, WordOk;
    var frame := SentWord(msb, lsb, 0x00);
    assert frame[0..3] == frame;
    SentWordOk(frame, 0, msb, lsb, 0x00);
  }
}
