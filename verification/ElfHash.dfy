// so_hash of loader/so_util.c: the ELF symbol hash, computed in 64 bits.

module ElfHash {
  import opened Words

  const WIDE: int := 0x1_0000_0000_0000_0000   // 2^64
  const TOP: int := 0x1000_0000                // 2^28

  type Byte = x: int | 0 <= x < 256

  // Exclusive or of two hexadecimal digits, bit by bit.
  function XorDigit(a: int, b: int): (r: int)
    requires 0 <= a < 16 && 0 <= b < 16
    ensures 0 <= r < 16
  {
    (a / 8 + b / 8) % 2 * 8 + (a / 4 + b / 4) % 2 * 4 + (a / 2 + b / 2) % 2 * 2 + (a + b) % 2
  }

  function Digit(b3: bool, b2: bool, b1: bool, b0: bool): (d: int)
    ensures 0 <= d < 16
  {
    (if b3 then 8 else 0) + (if b2 then 4 else 0) + (if b1 then 2 else 0) + (if b0 then 1 else 0)
  }

  lemma XorDigitIs(a3: bool, a2: bool, a1: bool, a0: bool, b3: bool, b2: bool, b1: bool, b0: bool)
    ensures XorDigit(Digit(a3, a2, a1, a0), Digit(b3, b2, b1, b0)) == Digit(a3 != b3, a2 != b2, a1 != b1, a0 != b0)
  {
    DigitBits(a3, a2, a1, a0);
    DigitBits(b3, b2, b1, b0);
    var a, b := Digit(a3, a2, a1, a0), Digit(b3, b2, b1, b0);
    Parity(0, 0, a3, b3);
    Parity(a / 8, b / 8, a2, b2);
    Parity(a / 4, b / 4, a1, b1);
    Parity(a / 2, b / 2, a0, b0);
  }

  lemma Parity(k: int, m: int, x: bool, y: bool)
    ensures (2 * k + (if x then 1 else 0) + (2 * m + if y then 1 else 0)) % 2 == if x != y then 1 else 0
  {}

  lemma DigitBits(b3: bool, b2: bool, b1: bool, b0: bool)
    ensures var d := Digit(b3, b2, b1, b0);
            && d / 8 == (if b3 then 1 else 0) && d / 4 == 2 * (d / 8) + (if b2 then 1 else 0)
            && d / 2 == 2 * (d / 4) + (if b1 then 1 else 0) && d == 2 * (d / 2) + (if b0 then 1 else 0)
  {}

  // Digit 7 of t: (t & 0xf0000000) >> 28
  function TopDigit(t: nat): (d: int)
    ensures 0 <= d < 16
  {
    t / TOP % 16
  }

  // t ^ ((t & 0xf0000000) >> 24): digit 7 goes into digit 1
  function Fold(t: nat): nat {
    t + 16 * (XorDigit(t / 16 % 16, TopDigit(t)) - t / 16 % 16)
  }

  // One step of the hash function of the System V gABI, chapter 5, section "Hash Table", in
  // 32-bit arithmetic: h = (h << 4) + c; if (g = h & 0xf0000000) h ^= g >> 24; h &= ~g
  function GabiStep(h: Word, c: Byte): Word {
    var t := (h * 16 + c) % WORDS;
    if TopDigit(t) != 0 then (Fold(t) - TopDigit(t) * TOP) % WORDS else t
  }

  function GabiHash(name: seq<Byte>): Word {
    if name == [] then 0 else GabiStep(GabiHash(name[..|name| - 1]), name[|name| - 1])
  }

  // One round of the loop of so_hash, in 64-bit arithmetic.
  function Round(h: nat, c: Byte): nat {
    var t := (h * 16 + c) % WIDE;
    (if TopDigit(t) != 0 then Fold(t) else t) % TOP
  }

  lemma Digits(t: Word)
    ensures var q := t % TOP / 256;
            t == TopDigit(t) * TOP + 256 * q + 16 * (t / 16 % 16) + t % 16 && 0 <= q < TOP / 256
  {
    assert t / 256 == TopDigit(t) * (TOP / 256) + t % TOP / 256;
    assert t / 16 == t / 256 * 16 + t / 16 % 16;
  }

  lemma DigitReplaced(d: int, q: int, x: int, z: int)
    requires 0 <= q < TOP / 256 && 0 <= x < 16 && 0 <= z < 16 && 0 <= d
    ensures (d * TOP + (256 * q + 16 * x + z)) % TOP == 256 * q + 16 * x + z < TOP
  {
    var low := 256 * q + 16 * x + z;
    assert 0 <= low < TOP;
    assert (d * TOP + low) % TOP == low;
  }

  // Folding changes digit 1 only, so the mask of so_hash and the "& ~g" of the gABI agree.
  lemma FoldBelowTop(t: Word)
    ensures Fold(t) % TOP == Fold(t) - TopDigit(t) * TOP < TOP
  {
    hide XorDigit;
    hide TopDigit;
    var d, q, y, z := TopDigit(t), t % TOP / 256, t / 16 % 16, t % 16;
    var x := XorDigit(y, d);
    Digits(t);
    assert Fold(t) == d * TOP + (256 * q + 16 * x + z);
    hide Fold;
    DigitReplaced(d, q, x, z);
  }

  lemma HighBitIsLost(t: nat)
    ensures TopDigit(t + WORDS) == TopDigit(t) && Fold(t + WORDS) == Fold(t) + WORDS
    ensures (t + WORDS) % TOP == t % TOP && Fold(t + WORDS) % TOP == Fold(t) % TOP
  {
    hide XorDigit;
    assert (t + WORDS) / TOP == t / TOP + 16;
    assert (t + WORDS) / 16 == t / 16 + 0x1000_0000;
    assert (t + WORDS) / 16 % 16 == t / 16 % 16;
    var u := Fold(t);
    assert (u + WORDS) % TOP == u % TOP;
  }

  lemma RoundOf(h: Word, c: Byte)
    requires h < TOP
    ensures var wide := h * 16 + c; Round(h, c) == (if TopDigit(wide) != 0 then Fold(wide) else wide) % TOP
  {
    hide Fold;
    hide TopDigit;
    var wide := h * 16 + c;
    assert wide % WIDE == wide;
  }

  lemma GabiStepOf(h: Word, c: Byte)
    ensures var t := (h * 16 + c) % WORDS; GabiStep(h, c) == (if TopDigit(t) != 0 then Fold(t) else t) % TOP
  {
    hide Fold;
    hide TopDigit;
    var t := (h * 16 + c) % WORDS;
    FoldBelowTop(t);
    SmallWhenNoTop(t);
  }

  lemma SmallWhenNoTop(t: Word)
    ensures TopDigit(t) == 0 ==> t % TOP == t
  {}

  // The wide sum may have a 33rd bit, which the mask drops.
  lemma RoundIsGabiStep(h: Word, c: Byte)
    requires h < TOP
    ensures Round(h, c) == GabiStep(h, c) < TOP
  {
    hide Round, GabiStep, Fold, TopDigit;
    RoundOf(h, c);
    GabiStepOf(h, c);
    var t := (h * 16 + c) % WORDS;
    assert h * 16 + c == t || h * 16 + c == t + WORDS;
    HighBitIsLost(t);
  }

  lemma {:induction false} GabiHashIsSmall(name: seq<Byte>)
    ensures GabiHash(name) < TOP
  {
    if name != [] {
      GabiHashIsSmall(name[..|name| - 1]);
      RoundIsGabiStep(GabiHash(name[..|name| - 1]), name[|name| - 1]);
    }
  }

  lemma GabiHashGrows(name: seq<Byte>, c: Byte)
    ensures GabiHash(name + [c]) == GabiStep(GabiHash(name), c)
  {
    assert (name + [c])[..|name|] == name;
  }

  // With the sum cut into digits: the top one goes into the second lowest and away.
  lemma StepIs(h: Word, c: Byte, d: int, q: int, y: int, z: int)
    requires h < 0x1000_0000 && h * 16 + c == d * 0x1000_0000 + 256 * q + 16 * y + z < 0x1_0000_0000
    requires 0 <= d < 16 && 0 <= q < 0x10_0000 && 0 <= y < 16 && 0 <= z < 16
    ensures GabiStep(h, c) == 256 * q + 16 * XorDigit(y, d) + z
  {
    hide XorDigit, Fold, TopDigit, GabiStep;
    var t: Word := h * 16 + c;
    assert t % WORDS == t;
    CutIntoDigits(t, d, q, y, z);
    GabiStepOf(h, c);
    FoldedIs(t, d, q, y, z);
    DigitReplaced(d, q, XorDigit(y, d), z);
    assert GabiStep(h, c) == (if d != 0 then Fold(t) else t) % TOP;
  }

  lemma CutIntoDigits(t: Word, d: int, q: int, y: int, z: int)
    requires t == d * TOP + 256 * q + 16 * y + z
    requires 0 <= d < 16 && 0 <= q < 0x10_0000 && 0 <= y < 16 && 0 <= z < 16
    ensures TopDigit(t) == d && t / 16 % 16 == y && (d == 0 ==> t % TOP == t)
  {
    assert t / TOP == d;
    assert t / 16 == 16 * (d * 0x10_0000 + q) + y;
    SixteenTimes(d * 0x10_0000 + q, y);
  }

  lemma SixteenTimes(a: int, y: int)
    requires 0 <= y < 16
    ensures (16 * a + y) % 16 == y
  {}

  lemma FoldedIs(t: Word, d: int, q: int, y: int, z: int)
    requires t == d * TOP + 256 * q + 16 * y + z && TopDigit(t) == d && t / 16 % 16 == y && 0 <= d < 16
    ensures Fold(t) == d * TOP + (256 * q + 16 * XorDigit(y, d) + z)
    ensures d == 0 ==> XorDigit(y, d) == y
  {
    NoXor(y);
    hide XorDigit, TopDigit;
  }

  lemma NoXor(y: int)
    requires 0 <= y < 16
    ensures XorDigit(y, 0) == y
  {}

  // "printf"
  lemma KnownHash()
    ensures GabiHash([112, 114, 105, 110, 116, 102]) == 0x779_05A6
  {
    hide GabiHash, GabiStep, XorDigit;
    assert GabiHash([]) == 0 by { NoHash(); }
    GabiHashGrows([], 112);
    XorDigitIs(false, true, true, true, false, false, false, false);
    StepIs(0x0, 112, 0, 0x0, 7, 0);
    assert [] + [112] == [112];
    GabiHashGrows([112], 114);
    XorDigitIs(false, true, true, true, false, false, false, false);
    StepIs(0x70, 114, 0, 0x7, 7, 2);
    assert [112] + [114] == [112, 114];
    GabiHashGrows([112, 114], 105);
    XorDigitIs(true, false, false, false, false, false, false, false);
    StepIs(0x772, 105, 0, 0x77, 8, 9);
    assert [112, 114] + [105] == [112, 114, 105];
    GabiHashGrows([112, 114, 105], 110);
    XorDigitIs(true, true, true, true, false, false, false, false);
    StepIs(0x7789, 110, 0, 0x778, 15, 14);
    assert [112, 114, 105] + [110] == [112, 114, 105, 110];
    GabiHashGrows([112, 114, 105, 110], 116);
    XorDigitIs(false, true, false, true, false, false, false, false);
    StepIs(0x778FE, 116, 0, 0x7790, 5, 4);
    assert [112, 114, 105, 110] + [116] == [112, 114, 105, 110, 116];
    GabiHashGrows([112, 114, 105, 110, 116], 102);
    XorDigitIs(true, false, true, false, false, false, false, false);
    StepIs(0x779054, 102, 0, 0x77905, 10, 6);
    assert [112, 114, 105, 110, 116] + [102] == [112, 114, 105, 110, 116, 102];
  }

  lemma NoHash()
    ensures GabiHash([]) == 0
  {}

  lemma NotYet(text: seq<Byte>, n: nat)
    requires 0 in text && n <= |text| && 0 !in text[..n]
    ensures n < |text|
  {
    var k :| 0 <= k < |text| && text[k] == 0;
  }

  // The loop, over the bytes of a name up to its terminating NUL.
  method SoHash(text: seq<Byte>) returns (r: Word)
    requires 0 in text
    ensures exists n :: 0 <= n < |text| && text[n] == 0 && 0 !in text[..n] && r == GabiHash(text[..n])
    ensures r < TOP
  {
    var h: nat, i := 0, 0;
    while text[i] != 0
      invariant 0 <= i < |text| && 0 !in text[..i] && h == GabiHash(text[..i]) < TOP
      decreases |text| - i
    {
      assert text[..i + 1][..i] == text[..i];
      RoundIsGabiStep(h, text[i]);
      var t := (h * 16 + text[i]) % WIDE;
      if TopDigit(t) != 0 { t := Fold(t); }
      h := t % TOP;
      assert 0 !in text[..i + 1];
      NotYet(text, i + 1);
      i := i + 1;
    }
    r := h;
  }
}
