// make_trampoline of loader/main.c: the first two instructions of a hooked function move to a
// thunk that continues behind them.  A pc-relative literal load is re-aimed at a copy of its
// literal inside the thunk.

module Trampoline {
  import opened Words
  import opened ArmMachine

  // ldr rX,[pc,#+-imm]: (w & 0x0F7F0000) == 0x051F0000
  predicate IsLiteralLoad(w: Word) { IsLdr(w) && Rn(w) == PC }

  // Where it loads from when it lies at address a.
  function LiteralAddress(w: Word, a: int): Word {
    Wrap(if Op(w) == 0x59 then a + 8 + Imm12(w) else a + 8 - Imm12(w))
  }

  // (w & 0xFFFFF000) | 0x008 | (1u << 23): the literal will sit four words behind.
  function Relocated(w: Word): Word {
    if IsLiteralLoad(w) then w - Imm12(w) + 8 + (if Op(w) == 0x59 then 0 else 0x80_0000) else w
  }

  // The literal of the instruction at a; 0 when it is not a literal load.
  function Literal(code: Code, a: int): Word
    requires a in code
  {
    if IsLiteralLoad(code[a]) then Read(code, map[], LiteralAddress(code[a], a)) else 0
  }

  predicate AnyLiteral(code: Code, target: int)
    requires target in code && target + 4 in code
  {
    IsLiteralLoad(code[target]) || IsLiteralLoad(code[target + 4])
  }

  function Thunk(code: Code, target: int): seq<Word>
    requires target in code && target + 4 in code
  {
    [ Relocated(code[target]),
      Relocated(code[target + 4]),
      0xE51F_F004,        // ldr pc,[pc,#-4]
      Wrap(target + 8) ]
    + if AnyLiteral(code, target) then [Literal(code, target), Literal(code, target + 4)] else []
  }

  function Compose(cond: int, op: int, rn: int, rd: int, imm: int): int {
    cond * 0x1000_0000 + op * 0x10_0000 + rn * 0x1_0000 + rd * 0x1000 + imm
  }

  lemma Fields(cond: int, op: int, rn: int, rd: int, imm: int)
    requires 0 <= cond < 16 && 0 <= op < 256 && 0 <= rn < 16 && 0 <= rd < 16 && 0 <= imm < 0x1000
    ensures var w := Compose(cond, op, rn, rd, imm);
            && 0 <= w < WORDS && w / 0x1000_0000 == cond && Op(w) == op && Rn(w) == rn
            && Rd(w) == rd && Imm12(w) == imm
  {
    var w := Compose(cond, op, rn, rd, imm);
    assert w / 0x1000 == cond * 0x1_0000 + op * 0x100 + rn * 0x10 + rd;
    assert w / 0x1_0000 == cond * 0x1000 + op * 0x10 + rn;
    assert w / 0x10_0000 == cond * 0x100 + op;
  }

  // The encodings that the interpreter knows (section A8.8 of the ARMv7-A Architecture Reference
  // Manual), for every condition but "never conditional".
  lemma LoadsDecode(cond: int, up: bool, rn: Reg, rd: Reg, imm: int)
    requires 0 <= cond < 15 && 0 <= imm < 0x1000
    ensures var w := cond * 0x1000_0000 + (if up then 0x590_0000 else 0x510_0000) + rn * 0x1_0000 + rd * 0x1000 + imm;
            0 <= w < 0x1_0000_0000 && Decode(w) == Ldr(cond, rn, rd, up, imm)
  {
    hide Op, Rn, Rd, Imm12;
    Fields(cond, if up then 0x59 else 0x51, rn, rd, imm);
  }

  lemma ImmediatesDecode(cond: int, r: Reg, imm: int)
    requires 0 <= cond < 15 && r != PC && 0 <= imm < 0x100
    ensures Decode(cond * 0x1000_0000 + 0x350_0000 + r * 0x1_0000 + imm) == Cmp(cond, r, imm)
    ensures Decode(cond * 0x1000_0000 + 0x3A0_0000 + r * 0x1000 + imm) == Mov(cond, r, imm)
  {
    hide Op, Rn, Rd, Imm12;
    Fields(cond, 0x35, r, 0, imm);
    Fields(cond, 0x3A, 0, r, imm);
  }

  lemma StackDecodes(cond: int, list: int)
    requires 0 <= cond < 15 && 0 <= list < 0x8000
    ensures Decode(cond * 0x1000_0000 + 0x92D_0000 + list) == Push(cond, list)
    ensures list / 0x2000 % 2 == 0 ==> Decode(cond * 0x1000_0000 + 0x8BD_0000 + list) == Pop(cond, list)
  {
    hide *;
    Fields(cond, 0x92, 13, list / 0x1000, list % 0x1000);
    Fields(cond, 0x8B, 13, list / 0x1000, list % 0x1000);
    LowHalf(cond, 0x92D, list);
    LowHalf(cond, 0x8BD, list);
    ComposeStack(cond, 0x92, list);
    ComposeStack(cond, 0x8B, list);
    PushIs(cond * 0x1000_0000 + 0x92D_0000 + list, cond, list);
    if list / 0x2000 % 2 == 0 { PopIs(cond * 0x1000_0000 + 0x8BD_0000 + list, cond, list); }
  }

  lemma ComposeStack(cond: int, op: int, list: int)
    ensures Compose(cond, op, 13, list / 0x1000, list % 0x1000) == cond * 0x1000_0000 + (op * 0x10 + 13) * 0x1_0000 + list
  {}

  lemma PushIs(w: Word, cond: int, list: int)
    requires w / 0x1000_0000 == cond < 15 && Op(w) == 0x92 && Rn(w) == 13 && w % 0x1_0000 == list < 0x8000
    ensures Decode(w) == Push(cond, list)
  {
    hide Op, Rn, Rd, Imm12;
  }

  lemma PopIs(w: Word, cond: int, list: int)
    requires w / 0x1000_0000 == cond < 15 && Op(w) == 0x8B && Rn(w) == 13 && w % 0x1_0000 == list < 0x8000
    requires list / 0x2000 % 2 == 0
    ensures Decode(w) == Pop(cond, list)
  {
    LowBit(w);
    hide Op, Rn, Rd, Imm12;
  }

  lemma LowHalf(cond: int, op: int, list: int)
    requires 0 <= cond < 15 && 0 <= list < 0x8000 && 0 <= op < 0x1000
    ensures (cond * 0x1000_0000 + op * 0x1_0000 + list) % 0x1_0000 == list
  {
    SixteenBits(cond * 0x1000 + op, list);
  }

  lemma SixteenBits(a: int, list: int)
    requires 0 <= list < 0x8000
    ensures (a * 0x1_0000 + list) % 0x1_0000 == list
  {}

  lemma BranchesDecode(cond: int, imm: int, rm: Reg)
    requires 0 <= cond < 15 && 0 <= imm < 0x100_0000 && rm != PC
    ensures Decode(cond * 0x1000_0000 + 0xA00_0000 + imm) == B(cond, if imm < 0x80_0000 then imm else imm - 0x100_0000)
    ensures Decode(cond * 0x1000_0000 + 0x12F_FF30 + rm) == Blx(cond, rm)
  {
    BranchFields(cond, imm);
    Fields(cond, 0x12, 0xF, 0xF, 0xF30 + rm);
    BlxFields(cond, rm);
  }

  lemma BranchFields(cond: int, imm: int)
    requires 0 <= cond < 15 && 0 <= imm < 0x100_0000
    ensures var w := cond * 0x1000_0000 + 0xA00_0000 + imm;
            w / 0x1000_0000 == cond && Op(w) / 0x10 == 0xA && w % 0x100_0000 == imm && 0 <= w < WORDS
  {
    var w := cond * 0x1000_0000 + 0xA00_0000 + imm;
    assert w / 0x100_0000 == cond * 0x10 + 0xA;
    assert Op(w) / 0x10 == w / 0x100_0000 % 0x10;
  }

  lemma BlxFields(cond: int, rm: int)
    requires 0 <= cond < 15 && 0 <= rm < 15
    ensures var w := cond * 0x1000_0000 + 0x12F_FF30 + rm;
            w / 0x1000_0000 == cond && w / 0x10 % 0x100_0000 == 0x12FFF3 && w % 0x10 == rm
  {
    var w := cond * 0x1000_0000 + 0x12F_FF30 + rm;
    assert w / 0x10 == cond * 0x100_0000 + 0x12_FFF3;
  }

  // ---- the literal loads, as make_trampoline finds and changes them

  lemma LiteralLoads(cond: int, up: bool, rd: Reg, imm: int, a: Word)
    requires 0 <= cond < 16 && 0 <= imm < 0x1000
    ensures var w := cond * 0x1000_0000 + (if up then 0x59F_0000 else 0x51F_0000) + rd * 0x1000 + imm;
            && 0 <= w < 0x1_0000_0000 && IsLiteralLoad(w)
            && Relocated(w) == cond * 0x1000_0000 + 0x59F_0000 + rd * 0x1000 + 8
            && LiteralAddress(w, a) == (if up then a + 8 + imm else a + 8 - imm) % 0x1_0000_0000
  {
    hide Op, Rn, Rd, Imm12;
    if up { Fields(cond, 0x59, PC, rd, imm); } else { Fields(cond, 0x51, PC, rd, imm); }
  }

  // There are no others, and another word is copied as it is.
  lemma OnlyLiteralLoads(w: Word)
    ensures IsLiteralLoad(w) <==> w / 0x100_0000 % 16 == 5 && w / 0x1_0000 % 0x80 == 0x1F
    ensures !IsLiteralLoad(w) ==> Relocated(w) == w
  {
    var h := w / 0x1_0000;
    HighBits(w, h);
    LowTwelve(h, h % 0x1000);
    Twelve(h % 0x1000);
    hide Op, Rn;
  }

  lemma HighBits(w: Word, h: int)
    requires h == w / 0x1_0000
    ensures Op(w) == h / 0x10 % 0x100 && Rn(w) == h % 0x10 && w / 0x100_0000 == h / 0x100
  {}

  lemma LowTwelve(h: int, q: int)
    requires h >= 0 && q == h % 0x1000
    ensures h / 0x10 % 0x100 == q / 0x10 && h % 0x10 == q % 0x10
    ensures h / 0x100 % 0x10 == q / 0x100 && h % 0x80 == q % 0x80
  {
    var c := h / 0x1000;
    Sixteenth(c, q);
    TwoHundredth(c, q);
    Remainder256(c, q / 0x10);
    Remainder16(c, q / 0x100);
    Remainder16(0x100 * c + q / 0x10, q % 0x10);
    Remainder128(0x20 * c + q / 0x80, q % 0x80);
  }

  lemma Sixteenth(c: int, q: int)
    requires 0 <= q < 0x1000
    ensures (0x1000 * c + q) / 0x10 == 0x100 * c + q / 0x10
  {}

  lemma TwoHundredth(c: int, q: int)
    requires 0 <= q < 0x1000
    ensures (0x1000 * c + q) / 0x100 == 0x10 * c + q / 0x100
  {}

  lemma Remainder16(c: int, x: int)
    requires 0 <= x < 0x10
    ensures (0x10 * c + x) % 0x10 == x
  {}

  lemma Remainder128(c: int, x: int)
    requires 0 <= x < 0x80
    ensures (0x80 * c + x) % 0x80 == x
  {}

  lemma Remainder256(c: int, x: int)
    requires 0 <= x < 0x100
    ensures (0x100 * c + x) % 0x100 == x
  {}

  lemma Twelve(q: int)
    requires 0 <= q < 0x1000
    ensures (q / 0x10 == 0x51 || q / 0x10 == 0x59) && q % 0x10 == 15 <==> q / 0x100 == 5 && q % 0x80 == 0x1F
  {}

  // The thunk, word by word.
  lemma ThunkIs(code: Code, target: Word)
    requires target in code && target + 4 in code
    ensures var t, x, y := Thunk(code, target), code[target], code[target + 4];
            && |t| == (if IsLiteralLoad(x) || IsLiteralLoad(y) then 6 else 4)
            && (!IsLiteralLoad(x) ==> t[0] == x) && (!IsLiteralLoad(y) ==> t[1] == y)
            && t[2] == 0xE51F_F004 && t[3] == (target + 8) % 0x1_0000_0000
            && (IsLiteralLoad(x) ==> t[0] == Relocated(x) && t[4] == Read(code, map[], LiteralAddress(x, target)))
            && (IsLiteralLoad(y) ==> t[1] == Relocated(y) && t[5] == Read(code, map[], LiteralAddress(y, target + 4)))
  {}

  // A function may begin with a literal load of a constant.
  lemma LiteralMovable(code: Code, patched: Code, others: Others, s: Cpu, b: Word, cond: int, up: bool, rd: Reg, imm: int)
    requires 0 <= cond < 15 && rd != PC && 0 <= imm < 0x1000 && s.pc in code
    requires code[s.pc] == cond * 0x1000_0000 + (if up then 0x59F_0000 else 0x51F_0000) + rd * 0x1000 + imm
    requires (if up then s.pc + 8 + imm else s.pc + 8 - imm) % 0x1_0000_0000 in code
    ensures Movable(code, patched, others, s, b)
  {
    hide Op, Rn, Rd, Imm12, IsLiteralLoad, LiteralAddress, Decode, Agrees;
    LiteralLoads(cond, up, rd, imm, s.pc);
    Fields(cond, if up then 0x59 else 0x51, PC, rd, imm);
  }

  lemma Composed(w: Word)
    ensures w == Compose(w / 0x1000_0000, Op(w), Rn(w), Rd(w), Imm12(w))
  {
    var a := w / 0x1000;
    var b := a / 0x10;
    var c := b / 0x10;
    assert w == a * 0x1000 + w % 0x1000 && a == b * 0x10 + a % 0x10;
    assert b == c * 0x10 + b % 0x10 && c == c / 0x100 * 0x100 + c % 0x100;
    assert b == w / 0x1_0000 && c == w / 0x10_0000 && c / 0x100 == w / 0x1000_0000;
  }

  lemma RelocatedFields(w: Word)
    requires IsLiteralLoad(w)
    ensures Relocated(w) == Compose(w / 0x1000_0000, 0x59, PC, Rd(w), 8)
  {
    Composed(w);
  }

  lemma LiteralLoadDecodes(w: Word)
    requires IsLiteralLoad(w) && w / 0x1000_0000 != 15
    ensures Decode(w) == Ldr(w / 0x1000_0000, PC, Rd(w), Op(w) == 0x59, Imm12(w))
  {}

  lemma RelocatedDecodes(w: Word)
    requires IsLiteralLoad(w) && w / 0x1000_0000 != 15
    ensures Decode(Relocated(w)) == Ldr(w / 0x1000_0000, PC, Rd(w), true, 8)
  {
    RelocatedFields(w);
    Fields(w / 0x1000_0000, 0x59, PC, Rd(w), 8);
    LiteralLoadDecodes(Relocated(w));
  }

  // From equal registers, flags and memory, instruction i makes equal ones at address a of one
  // image and at address b of the other, and goes on to the next word.
  predicate Agrees(i: Instr, code: Code, patched: Code, others: Others, core: Core, data: Memory, a: Word, b: Word) {
    var x := Perform(i, Cpu(core, a, data), code, others);
    var y := Perform(i, Cpu(core, b, data), patched, others);
    x.core == y.core && x.data == y.data && x.pc == Wrap(a + 4) && y.pc == Wrap(b + 4)
  }

  // What make_trampoline asks of an instruction that runs in state s: it is a literal load (not
  // into pc) of a constant, or it acts at b, over the patched image, as it does in place.
  ghost predicate Movable(code: Code, patched: Code, others: Others, s: Cpu, b: Word)
    requires s.pc in code
  {
    var w := code[s.pc];
    if IsLiteralLoad(w) then w / 0x1000_0000 != 15 && Rd(w) != PC && LiteralAddress(w, s.pc) in code
    else Agrees(Decode(w), code, patched, others, s.core, s.data, s.pc, b)
  }

  // Both instructions, the second one in the state that the first one leaves.
  ghost predicate BothMovable(code: Code, patched: Code, others: Others, s: Cpu, at: Word)
    requires s.pc in code && s.pc + 4 in code && s.pc + 8 < WORDS && at + 4 < WORDS
  {
    && Movable(code, patched, others, s, at)
    && Movable(code, patched, others, Perform(Decode(code[s.pc]), s, code, others).At(s.pc + 4), at + 4)
  }

  // The instruction at a has its copy at b, and a literal load its literal at b + 16.
  ghost predicate Copied(code: Code, patched: Code, a: int, b: int)
    requires a in code
  {
    && b in patched && patched[b] == Relocated(code[a])
    && (IsLiteralLoad(code[a]) ==> b + 16 in patched && patched[b + 16] == Literal(code, a))
  }

  lemma ThunkWords(code: Code, patched: Code, target: Word, at: Word)
    requires target in code && target + 4 in code && target + 8 < WORDS && Holds(patched, at, Thunk(code, target))
    ensures Copied(code, patched, target, at) && Copied(code, patched, target + 4, at + 4)
  {
    var t := Thunk(code, target);
    assert at + 4 * 0 in patched && patched[at + 4 * 0] == t[0];
    assert at + 4 * 1 in patched && patched[at + 4 * 1] == t[1];
    if AnyLiteral(code, target) {
      assert at + 4 * 4 in patched && patched[at + 4 * 4] == t[4];
      assert at + 4 * 5 in patched && patched[at + 4 * 5] == t[5];
    }
  }

  lemma ThunkTail(code: Code, patched: Code, target: Word, at: Word)
    requires target in code && target + 4 in code && target + 8 < WORDS && Holds(patched, at, Thunk(code, target))
    ensures at + 8 in patched && patched[at + 8] == 0xE51F_F004
    ensures at + 12 in patched && patched[at + 12] == target + 8
  {
    var t := Thunk(code, target);
    assert at + 4 * 2 in patched && patched[at + 4 * 2] == t[2];
    assert at + 4 * 3 in patched && patched[at + 4 * 3] == t[3];
  }

  lemma JumpDecodes()
    ensures Decode(0xE51F_F004) == Ldr(14, PC, PC, false, 4)
  {}

  // The literal load i and its relocated copy at b, whose literal is the word at b + 16.
  lemma LiteralLoadMoves(code: Code, patched: Code, others: Others, s: Cpu, cond: int, rd: Reg, up: bool,
                         imm: Word, b: Word)
    requires cond != 15 && rd != PC && b + 16 in patched && b + 16 < WORDS
    requires var l := Wrap(if up then s.pc + 8 + imm else s.pc + 8 - imm); l in code && patched[b + 16] == code[l]
    ensures var x := Perform(Ldr(cond, PC, rd, up, imm), s, code, others);
            && Perform(Ldr(cond, PC, rd, true, 8), s.At(b), patched, others) == x.At(Wrap(b + 4))
            && x.pc == Wrap(s.pc + 4)
  {}

  // One of the two instructions, at s.pc in the original and at b in the thunk.
  lemma InstructionMoves(code: Code, patched: Code, others: Others, s: Cpu, b: Word)
    requires s.pc in code && Movable(code, patched, others, s, b) && b + 16 < WORDS
    requires Copied(code, patched, s.pc, b)
    ensures var x := Perform(Decode(code[s.pc]), s, code, others);
            && Perform(Decode(Relocated(code[s.pc])), s.At(b), patched, others) == x.At(Wrap(b + 4))
            && x.pc == Wrap(s.pc + 4)
  {
    var w := code[s.pc];
    if IsLiteralLoad(w) {
      LiteralLoadDecodes(w);
      RelocatedDecodes(w);
      LiteralLoadMoves(code, patched, others, s, w / 0x1000_0000, Rd(w), Op(w) == 0x59, Imm12(w), b);
    } else {
      AgreesMoves(Decode(w), code, patched, others, s, b);
    }
  }

  lemma AgreesMoves(i: Instr, code: Code, patched: Code, others: Others, s: Cpu, b: Word)
    requires Agrees(i, code, patched, others, s.core, s.data, s.pc, b)
    ensures var x := Perform(i, s, code, others);
            Perform(i, s.At(b), patched, others) == x.At(Wrap(b + 4)) && x.pc == Wrap(s.pc + 4)
  {}

  // Two instructions in a row take s to x and x to u.
  ghost predicate TwoSteps(img: Image, others: Others, s: Cpu, x: Cpu, u: Cpu) {
    && s.pc in img.prog && Perform(img.prog[s.pc], s, img.code, others) == x
    && x.pc in img.prog && Perform(img.prog[x.pc], x, img.code, others) == u
  }

  lemma RunTwo(img: Image, others: Others, s: Cpu, x: Cpu, u: Cpu)
    requires TwoSteps(img, others, s, x, u)
    ensures Run(img, others, s, 2) == u
  {
    Then(img, others, s, img.prog[s.pc], 1);
    Then(img, others, x, img.prog[x.pc], 0);
  }

  lemma RunJump(img: Image, others: Others, s: Cpu, to: Word)
    requires s.pc in img.prog && img.prog[s.pc] == Ldr(14, PC, PC, false, 4)
    requires s.pc + 4 < WORDS && s.pc + 4 in img.code && img.code[s.pc + 4] == to
    ensures Run(img, others, s, 1) == s.At(to)
  {
    Then(img, others, s, Ldr(14, PC, PC, false, 4), 0);
  }

  // Two moved instructions and the jump back, over decoded images.
  lemma RunMoved(mod: Image, others: Others, s: Cpu, x: Cpu, u: Cpu)
    requires s.pc + 12 < WORDS && x.pc == s.pc + 4 && TwoSteps(mod, others, s, x, u.At(s.pc + 8))
    requires s.pc + 8 in mod.prog && mod.prog[s.pc + 8] == Ldr(14, PC, PC, false, 4)
    requires s.pc + 12 in mod.code && mod.code[s.pc + 12] == u.pc
    ensures Run(mod, others, s, 3) == u
  {
    Then(mod, others, s, mod.prog[s.pc], 2);
    Then(mod, others, x, mod.prog[x.pc], 1);
    RunJump(mod, others, u.At(s.pc + 8), u.pc);
  }

  // An instruction and its copy, in the loaded images.
  lemma LoadedMoves(code: Code, patched: Code, others: Others, s: Cpu, b: Word) returns (x: Cpu)
    requires s.pc in code && Movable(code, patched, others, s, b) && b + 16 < WORDS
    requires Copied(code, patched, s.pc, b)
    ensures x == Perform(Decode(code[s.pc]), s, code, others)
    ensures s.pc in Load(code).prog && Perform(Load(code).prog[s.pc], s, Load(code).code, others) == x
    ensures b in Load(patched).prog
    ensures Perform(Load(patched).prog[b], s.At(b), Load(patched).code, others) == x.At(b + 4)
    ensures x.pc == Wrap(s.pc + 4)
  {
    InstructionMoves(code, patched, others, s, b);
    x := Perform(Decode(code[s.pc]), s, code, others);
  }

  lemma LoadedJump(patched: Code, a: int)
    requires a in patched && patched[a] == 0xE51F_F004
    ensures a in Load(patched).prog && Load(patched).prog[a] == Ldr(14, PC, PC, false, 4)
    ensures Load(patched).code == patched
  {
    JumpDecodes();
  }

  lemma MovableTwice(code: Code, patched: Code, others: Others, s: Cpu, at: Word)
    requires s.pc in code && s.pc + 4 in code && s.pc + 8 < WORDS && at + 4 < WORDS && BothMovable(code, patched, others, s, at)
    ensures Movable(code, patched, others, s, at)
    ensures Movable(code, patched, others, Perform(Decode(code[s.pc]), s, code, others).At(s.pc + 4), at + 4)
  {}

  lemma WordAdd(a: Word)
    ensures a + 4 < WORDS ==> Wrap(a + 4) == a + 4
  {}

  lemma AtOwnPc(x: Cpu)
    ensures x.At(x.pc) == x
  {}

  lemma MovedPc(s: Cpu, x: Cpu, at: Word)
    requires at + 8 < WORDS
    ensures s.At(at).pc == at && x.At(at + 4).pc == at + 4
  {}

  lemma StepsAre(img: Image, others: Others, s: Cpu, x: Cpu, u: Cpu)
    requires s.pc in img.prog && Perform(img.prog[s.pc], s, img.code, others) == x
    requires x.pc in img.prog && Perform(img.prog[x.pc], x, img.code, others) == u
    ensures TwoSteps(img, others, s, x, u)
  {}

  // Both instructions and both copies.
  lemma BothMove(code: Code, patched: Code, others: Others, s: Cpu, at: Word) returns (x: Cpu, u: Cpu)
    requires s.pc in code && s.pc + 4 in code && s.pc + 8 < WORDS && at + 24 < WORDS
    requires Holds(patched, at, Thunk(code, s.pc))
    requires BothMovable(code, patched, others, s, at)
    ensures TwoSteps(Load(code), others, s, x, u) && u.pc == s.pc + 8
    ensures TwoSteps(Load(patched), others, s.At(at), x.At(at + 4), u.At(at + 8))
  {
    hide *;
    ThunkWords(code, patched, s.pc, at);
    MovableTwice(code, patched, others, s, at);
    x := LoadedMoves(code, patched, others, s, at);
    WordAdd(s.pc);
    AtOwnPc(x);
    u := LoadedMoves(code, patched, others, x, at + 4);
    WordAdd(x.pc);
    StepsAre(Load(code), others, s, x, u);
    MovedPc(s, x, at);
    StepsAre(Load(patched), others, s.At(at), x.At(at + 4), u.At(at + 8));
  }

  lemma RunThunk(patched: Code, others: Others, t: Cpu, x: Cpu, u: Cpu)
    requires t.pc + 12 < WORDS && x.pc == t.pc + 4 && TwoSteps(Load(patched), others, t, x, u.At(t.pc + 8))
    requires t.pc + 8 in patched && patched[t.pc + 8] == 0xE51F_F004
    requires t.pc + 12 in patched && patched[t.pc + 12] == u.pc
    ensures Run(Load(patched), others, t, 3) == u
  {
    LoadedJump(patched, t.pc + 8);
    RunMoved(Load(patched), others, t, x, u);
  }

  lemma Join(img: Image, patched: Code, others: Others, s: Cpu, at: Word, x: Cpu, u: Cpu)
    requires TwoSteps(img, others, s, x, u) && at + 12 < WORDS
    requires TwoSteps(Load(patched), others, s.At(at), x.At(at + 4), u.At(at + 8))
    requires at + 8 in patched && patched[at + 8] == 0xE51F_F004
    requires at + 12 in patched && patched[at + 12] == u.pc
    ensures Run(Load(patched), others, s.At(at), 3) == u && Run(img, others, s, 2) == u
  {
    RunTwo(img, others, s, x, u);
    RunThunk(patched, others, s.At(at), x.At(at + 4), u);
  }

  // Executing the trampoline has the effect of the two original instructions, and both
  // executions go on at target + 8 with the same registers, flags and memory.
  lemma Preserves(code: Code, patched: Code, others: Others, s: Cpu, at: Word)
    requires s.pc in code && s.pc + 4 in code && s.pc + 8 < WORDS && at + 24 < WORDS
    requires Holds(patched, at, Thunk(code, s.pc))
    requires BothMovable(code, patched, others, s, at)
    ensures Run(Load(patched), others, s.At(at), 3) == Run(Load(code), others, s, 2)
    ensures Run(Load(code), others, s, 2).pc == s.pc + 8
  {
    hide *;
    var x, u := BothMove(code, patched, others, s, at);
    ThunkTail(code, patched, s.pc, at);
    Join(Load(code), patched, others, s, at, x, u);
  }

  // ---- which instructions can be moved

  function LoadAddress(s: Cpu, rn: Reg, up: bool, imm: Word): Word {
    Wrap(if up then Base(s, rn) + imm else Base(s, rn) - imm)
  }

  // The words that a pop reads are the same in both images.
  ghost predicate SameStack(list: int, i: nat, code: Code, patched: Code, data: Memory, at: int)
    requires i <= 15
    decreases 15 - i
  {
    i == 15 ||
    (if list % 2 == 1 then
       Read(code, data, at) == Read(patched, data, at) && SameStack(list / 2, i + 1, code, patched, data, at + 4)
     else SameStack(list / 2, i + 1, code, patched, data, at))
  }

  lemma {:induction false} TakeKeepsLow(list: int, i: nat, code: Code, k: Cursor, j: nat)
    requires j < i <= 15
    ensures Take(list, i, code, k).r[j] == k.r[j]
    decreases 15 - i
  {
    if i < 15 {
      var r := if list % 2 == 1 then k.(at := k.at + 4, r := k.r[i := Read(code, k.data, k.at)]) else k;
      TakeKeepsLow(list / 2, i + 1, code, r, j);
    }
  }

  // Popping gives the same registers from both images exactly when each word read is the same.
  lemma {:induction false} TakeAgrees(list: int, i: nat, code: Code, patched: Code, k: Cursor)
    requires i <= 15
    ensures Take(list, i, code, k).at == Take(list, i, patched, k).at
    ensures Take(list, i, code, k).r == Take(list, i, patched, k).r <==> SameStack(list, i, code, patched, k.data, k.at)
    decreases 15 - i
  {
    if i < 15 {
      if list % 2 == 1 {
        var x, y := Read(code, k.data, k.at), Read(patched, k.data, k.at);
        var kx, ky := k.(at := k.at + 4, r := k.r[i := x]), k.(at := k.at + 4, r := k.r[i := y]);
        TakeKeepsLow(list / 2, i + 1, code, kx, i);
        TakeKeepsLow(list / 2, i + 1, patched, ky, i);
        TakeAgrees(list / 2, i + 1, code, patched, kx);
        TakeAt(list / 2, i + 1, patched, kx, ky);
      } else {
        TakeAgrees(list / 2, i + 1, code, patched, k);
      }
    }
  }

  lemma {:induction false} TakeAt(list: int, i: nat, code: Code, k: Cursor, l: Cursor)
    requires i <= 15 && k.at == l.at && k.data == l.data
    ensures Take(list, i, code, k).at == Take(list, i, code, l).at
    decreases 15 - i
  {
    if i < 15 {
      if list % 2 == 1 {
        var x := Read(code, k.data, k.at);
        TakeAt(list / 2, i + 1, code, k.(at := k.at + 4, r := k.r[i := x]), l.(at := l.at + 4, r := l.r[i := x]));
      } else {
        TakeAt(list / 2, i + 1, code, k, l);
      }
    }
  }

  // What it takes for an interpreted instruction to act alike at two addresses: a load reads the
  // same word (and does not jump), a pop the same words, and a branch goes to the next word.
  ghost predicate ActsAlike(i: Instr, code: Code, patched: Code, core: Core, data: Memory, a: Word, b: Word) {
    match i
    case Ldr(_, rn, rd, up, imm) =>
      var x := Read(code, data, LoadAddress(Cpu(core, a, data), rn, up, imm));
      var y := Read(patched, data, LoadAddress(Cpu(core, b, data), rn, up, imm));
      if rd == PC then x == Wrap(a + 4) && y == Wrap(b + 4) else x == y
    case Pop(_, list) => SameStack(list, 0, code, patched, data, core.r[SP])
    case B(_, words) => words == -1
    case Blx(_, _) => false
    case _ => true
  }

  // The operands that the encodings leave room for.
  predicate Encodable(i: Instr) {
    match i
    case Cmp(_, rn, _) => rn != PC
    case Mov(_, rd, _) => rd != PC
    case B(_, words) => -0x80_0000 <= words < 0x80_0000
    case Blx(_, rm) => rm != PC
    case Pop(_, list) => list / 0x2000 % 2 == 0
    case _ => true
  }

  lemma DecodedIsEncodable(w: Word)
    ensures Encodable(Decode(w)) && (!Decode(w).Other? ==> 0 <= Decode(w).cond < 15)
  {
    ExtendBound(w % 0x100_0000);
    LowBit(w);
    hide Extend, Rn, Rd, Imm12, Op, IsLdr;
  }

  lemma ExtendBound(x: int)
    requires 0 <= x < 0x100_0000
    ensures -0x80_0000 <= Extend(x) < 0x80_0000
  {}

  lemma LowBit(w: Word)
    ensures w % 0x1_0000 / 0x2000 % 2 == w / 0x2000 % 2 && 0 <= w / 0x1000_0000 < 16
  {}

  function Bit(list: int, n: nat): int
    decreases n
  {
    if n == 0 then list % 2 else Bit(list / 2, n - 1)
  }

  lemma BitFour(list: int, n: nat)
    requires n >= 4
    ensures Bit(list, n) == Bit(list / 0x10, n - 4)
  {
    var a := list / 2;
    var b := a / 2;
    var c := b / 2;
    assert Bit(list, n) == Bit(a, n - 1) && Bit(a, n - 1) == Bit(b, n - 2);
    assert Bit(b, n - 2) == Bit(c, n - 3) && Bit(c, n - 3) == Bit(c / 2, n - 4);
    assert c / 2 == list / 0x10;
  }

  lemma SpBit(list: int)
    ensures Bit(list, 13) == list / 0x2000 % 2
  {
    BitFour(list, 13);
    BitFour(list / 0x10, 9);
    BitFour(list / 0x10 / 0x10, 5);
    var n := list / 0x10 / 0x10 / 0x10;
    assert n == list / 0x1000 && n / 2 == list / 0x2000;
    assert Bit(n, 1) == Bit(n / 2, 0);
  }

  lemma {:induction false} TakeKeepsUnlisted(list: int, i: nat, code: Code, k: Cursor, j: nat)
    requires i <= j < 15 && Bit(list, j - i) == 0
    ensures Take(list, i, code, k).r[j] == k.r[j]
    decreases 15 - i
  {
    var r := if list % 2 == 1 then k.(at := k.at + 4, r := k.r[i := Read(code, k.data, k.at)]) else k;
    if i == j { TakeKeepsLow(list / 2, i + 1, code, k, j); } else { TakeKeepsUnlisted(list / 2, i + 1, code, r, j); }
  }

  lemma PopAgrees(cond: int, list: int, code: Code, patched: Code, others: Others, core: Core, data: Memory, a: Word, b: Word)
    requires list / 0x2000 % 2 == 0
    ensures Agrees(Pop(cond, list), code, patched, others, core, data, a, b)
       <==> (cond != 15 && !Passes(cond, core.f)) || SameStack(list, 0, code, patched, data, core.r[SP])
  {
    var k := Cursor(core.r[SP], core.r, data);
    var x, y := Take(list, 0, code, k), Take(list, 0, patched, k);
    TakeAgrees(list, 0, code, patched, k);
    SpBit(list);
    TakeKeepsUnlisted(list, 0, code, k, SP);
    TakeKeepsUnlisted(list, 0, patched, k, SP);
    SameButOne(x.r, y.r, SP, Wrap(x.at));
  }

  lemma SameButOne(x: Regs, y: Regs, i: nat, z: Word)
    requires i < 15 && x[i] == y[i]
    ensures x[i := z] == y[i := z] <==> x == y
  {
    if x[i := z] == y[i := z] {
      forall j | 0 <= j < 15 ensures x[j] == y[j] { assert j != i ==> x[i := z][j] == y[i := z][j]; }
    }
  }

  lemma LoadAgrees(cond: int, rn: Reg, rd: Reg, up: bool, imm: Word, code: Code, patched: Code, others: Others,
                   core: Core, data: Memory, a: Word, b: Word)
    requires cond < 15
    ensures Agrees(Ldr(cond, rn, rd, up, imm), code, patched, others, core, data, a, b)
       <==> !Passes(cond, core.f) || ActsAlike(Ldr(cond, rn, rd, up, imm), code, patched, core, data, a, b)
  {
    var x := Read(code, data, LoadAddress(Cpu(core, a, data), rn, up, imm));
    var y := Read(patched, data, LoadAddress(Cpu(core, b, data), rn, up, imm));
    if rd != PC && core.r[rd := x] == core.r[rd := y] { assert core.r[rd := x][rd] == core.r[rd := y][rd]; }
  }

  lemma BranchAgrees(cond: int, words: int, code: Code, patched: Code, others: Others, core: Core, data: Memory, a: Word, b: Word)
    requires cond < 15 && -0x80_0000 <= words < 0x80_0000
    ensures Agrees(B(cond, words), code, patched, others, core, data, a, b)
       <==> !Passes(cond, core.f) || words == -1
  {
    SameDistanceOnly(a, 8 + 4 * words, 4);
    SameDistanceOnly(b, 8 + 4 * words, 4);
  }

  lemma SameDistanceOnly(a: Word, d: int, e: int)
    requires -(WORDS / 2) <= d < WORDS / 2 && -(WORDS / 2) <= e < WORDS / 2
    ensures Wrap(a + d) == Wrap(a + e) <==> d == e
  {
    if Wrap(a + d) == Wrap(a + e) { SameDistance(a, d, e); }
  }

  lemma CallDisagrees(cond: int, rm: Reg, code: Code, patched: Code, others: Others, core: Core, data: Memory, a: Word, b: Word)
    requires cond < 15 && rm != PC && a != b
    ensures Agrees(Blx(cond, rm), code, patched, others, core, data, a, b) <==> !Passes(cond, core.f)
  {
    assert core.r[LR := Wrap(a + 4)][LR] != core.r[LR := Wrap(b + 4)][LR];
  }

  // An interpreted instruction can be moved exactly when its condition fails or it acts alike.
  lemma AgreesExactly(i: Instr, code: Code, patched: Code, others: Others, core: Core, data: Memory, a: Word, b: Word)
    requires !i.Other? && Encodable(i) && 0 <= i.cond < 15 && a != b
    ensures Agrees(i, code, patched, others, core, data, a, b)
       <==> !Passes(i.cond, core.f) || ActsAlike(i, code, patched, core, data, a, b)
  {
    match i
    case Pop(_, list) => PopAgrees(i.cond, list, code, patched, others, core, data, a, b);
    case Ldr(_, rn, rd, up, imm) => LoadAgrees(i.cond, rn, rd, up, imm, code, patched, others, core, data, a, b);
    case B(_, words) => BranchAgrees(i.cond, words, code, patched, others, core, data, a, b);
    case Blx(_, rm) => CallDisagrees(i.cond, rm, code, patched, others, core, data, a, b);
    case _ =>
  }

  // So a function may well begin with a register load: it can be moved when the word that it
  // reads is the same in both images, such as any word of data.
  lemma LoadMovable(code: Code, patched: Code, others: Others, s: Cpu, b: Word)
    requires s.pc in code && s.pc != b && IsLdr(code[s.pc]) && code[s.pc] / 0x1000_0000 != 15
    requires Rn(code[s.pc]) != PC && Rd(code[s.pc]) != PC
    ensures var w := code[s.pc];
            var x := LoadAddress(s, Rn(w), Op(w) == 0x59, Imm12(w));
            Movable(code, patched, others, s, b) ==
              (!Passes(w / 0x1000_0000, s.core.f) || Read(code, s.data, x) == Read(patched, s.data, x))
  {
    var w := code[s.pc];
    AgreesExactly(Decode(w), code, patched, others, s.core, s.data, s.pc, b);
  }

  // Hooking a function that is already hooked: the copied "ldr pc,[pc,#-4]" still enters the
  // first hook, from its literal in the new thunk.
  lemma HookOfHook(code: Code, patched: Code, others: Others, s: Cpu, at: Word, first: Word)
    requires s.pc in code && s.pc + 4 in code && s.pc + 8 < WORDS && at + 24 < WORDS
    requires code[s.pc] == 0xE51F_F004 && code[s.pc + 4] == first
    requires Holds(patched, at, Thunk(code, s.pc))
    ensures Run(Load(patched), others, s.At(at), 1) == s.At(first)
  {
    HookCopy(code, s.pc);
    ThunkWords(code, patched, s.pc, at);
    LoadedHookCopy(patched, at);
    RunHookCopy(Load(patched), others, s.At(at), first);
  }

  lemma HookCopy(code: Code, target: Word)
    requires target in code && target + 4 in code && target + 8 < WORDS && code[target] == 0xE51F_F004
    ensures AnyLiteral(code, target) && Relocated(code[target]) == 0xE59F_F008
    ensures Literal(code, target) == code[target + 4]
  {}

  lemma LoadedHookCopy(patched: Code, at: Word)
    requires at in patched && patched[at] == 0xE59F_F008
    ensures at in Load(patched).prog && Load(patched).prog[at] == Ldr(14, PC, PC, true, 8)
    ensures Load(patched).code == patched
  {}

  lemma RunHookCopy(img: Image, others: Others, s: Cpu, to: Word)
    requires s.pc in img.prog && img.prog[s.pc] == Ldr(14, PC, PC, true, 8)
    requires s.pc + 16 < WORDS && s.pc + 16 in img.code && img.code[s.pc + 16] == to
    ensures Run(img, others, s, 1) == s.At(to)
  {
    Then(img, others, s, Ldr(14, PC, PC, true, 8), 0);
  }
}
