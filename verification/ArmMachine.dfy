// A small interpreter for the ARM (A32) instructions that the run-time patcher of
// loader/main.c writes, with their real 32-bit encodings.  Every other encoding is left to a
// parameter, so that what is proved holds whatever those instructions do.

module ArmMachine {
  import opened Words

  type Code = map<int, Word>     // read-only words, keyed by their (word-aligned) address
  type Memory = map<int, Word>   // the writable words

  datatype Flags = Flags(n: bool, z: bool, c: bool, v: bool)

  // The registers r0-r14.
  type Regs = r: seq<Word> | |r| == 15 witness seq(15, _ => 0)

  const SP: int := 13
  const LR: int := 14
  const PC: int := 15

  datatype Core = Core(r: Regs, f: Flags)

  datatype Cpu = Cpu(core: Core, pc: Word, data: Memory) {
    function With(i: int, x: Word): Cpu
      requires 0 <= i < 15
    {
      this.(core := core.(r := core.r[i := x]))
    }

    function Flagged(f: Flags): Cpu { this.(core := core.(f := f)) }

    function At(a: Word): Cpu { this.(pc := a) }

    function Next(): Cpu { At(Wrap(pc + 4)) }
  }

  // ---- instructions and their encodings

  type Reg = i: int | 0 <= i < 16

  // A condition field of 14 is "always"; encodings with 15 are never conditional.
  datatype Instr =
    | Ldr(cond: int, rn: Reg, rd: Reg, up: bool, imm: Word)  // ldr rD,[rN,#+-imm]
    | Cmp(cond: int, rn: Reg, imm: Word)                     // cmp rN,#imm
    | Mov(cond: int, rd: Reg, imm: Word)                     // mov rD,#imm
    | Push(cond: int, list: int)                             // push {list}, pc not in it
    | Pop(cond: int, list: int)                              // pop {list}, sp and pc not in it
    | B(cond: int, words: int)                               // b, in words from pc + 8
    | Blx(cond: int, rm: Reg)                                // blx rM
    | Other(cond: int, w: Word)

  function Op(w: Word): int { w / 0x10_0000 % 0x100 }      // bits 20-27
  function Rn(w: Word): Reg { w / 0x1_0000 % 0x10 }        // bits 16-19
  function Rd(w: Word): Reg { w / 0x1000 % 0x10 }          // bits 12-15
  function Imm12(w: Word): Word { w % 0x1000 }

  // (w & 0x0F700000) == 0x05100000; bit 23 is the sign of the offset
  predicate IsLdr(w: Word) { Op(w) == 0x51 || Op(w) == 0x59 }

  // The 24-bit signed word count of a branch.
  function Extend(imm: int): int { if imm >= 0x80_0000 then imm - 0x100_0000 else imm }

  function Decode(w: Word): Instr {
    var cond := w / 0x1000_0000;
    if cond == 15 then Other(cond, w)
    else if IsLdr(w) then Ldr(cond, Rn(w), Rd(w), Op(w) == 0x59, Imm12(w))
    else if Op(w) == 0x35 && Rd(w) == 0 && Imm12(w) < 0x100 && Rn(w) != PC then Cmp(cond, Rn(w), Imm12(w))
    else if Op(w) == 0x3A && Rn(w) == 0 && Imm12(w) < 0x100 && Rd(w) != PC then Mov(cond, Rd(w), Imm12(w))
    else if Op(w) == 0x92 && Rn(w) == SP && w % 0x1_0000 < 0x8000 then Push(cond, w % 0x1_0000)
    else if Op(w) == 0x8B && Rn(w) == SP && w % 0x1_0000 < 0x8000 && w / 0x2000 % 2 == 0 then Pop(cond, w % 0x1_0000)
    else if Op(w) / 0x10 == 0xA then B(cond, Extend(w % 0x100_0000))
    else if w / 0x10 % 0x100_0000 == 0x12FFF3 && w % 0x10 != PC then Blx(cond, w % 0x10)
    else Other(cond, w)
  }

  // The code words together with the instructions they decode to.
  datatype Image = Image(code: Code, prog: map<int, Instr>)

  function Load(code: Code): Image { Image(code, map a | a in code :: Decode(code[a])) }

  function Read(code: Code, data: Memory, a: int): Word {
    if a in code then code[a] else if a in data then data[a] else 0
  }

  // ---- what the instructions do

  // The condition field, A8.3 of the ARMv7-A Architecture Reference Manual.
  predicate Passes(cond: int, f: Flags) {
    if cond == 0 then f.z else if cond == 1 then !f.z
    else if cond == 2 then f.c else if cond == 3 then !f.c
    else if cond == 4 then f.n else if cond == 5 then !f.n
    else if cond == 6 then f.v else if cond == 7 then !f.v
    else if cond == 8 then f.c && !f.z else if cond == 9 then !f.c || f.z
    else if cond == 10 then f.n == f.v else if cond == 11 then f.n != f.v
    else if cond == 12 then !f.z && f.n == f.v else if cond == 13 then f.z || f.n != f.v
    else true
  }

  function CmpFlags(x: Word, y: Word): Flags {
    var d := Signed(x) - Signed(y);
    Flags(Wrap(x - y) >= WORDS / 2, x == y, x >= y, d < -(WORDS / 2) || d >= WORDS / 2)
  }

  function Base(s: Cpu, rn: Reg): int { if rn == PC then s.pc + 8 else s.core.r[rn] }

  // push and pop: one list bit at a time, the lowest register at the lowest address
  datatype Cursor = Cursor(at: int, r: Regs, data: Memory)

  function Put(list: int, i: nat, k: Cursor): Cursor
    requires i <= 15
    decreases 15 - i
  {
    if i == 15 then k
    else if list % 2 == 1 then Put(list / 2, i + 1, k.(at := k.at + 4, data := k.data[k.at := k.r[i]]))
    else Put(list / 2, i + 1, k)
  }

  function Take(list: int, i: nat, code: Code, k: Cursor): Cursor
    requires i <= 15
    decreases 15 - i
  {
    if i == 15 then k
    else if list % 2 == 1 then Take(list / 2, i + 1, code, k.(at := k.at + 4, r := k.r[i := Read(code, k.data, k.at)]))
    else Take(list / 2, i + 1, code, k)
  }

  function ListSize(list: int, i: nat): int
    requires i <= 15
    decreases 15 - i
  {
    if i == 15 then 0 else (if list % 2 == 1 then 4 else 0) + ListSize(list / 2, i + 1)
  }

  // The meaning of the encodings that are not interpreted here.
  type Others = (Word, Cpu) -> Cpu

  function Perform(i: Instr, s: Cpu, code: Code, others: Others): Cpu {
    if i.cond != 15 && !Passes(i.cond, s.core.f) then s.Next()
    else
      match i
      case Ldr(_, rn, rd, up, imm) =>
        var x := Read(code, s.data, Wrap(if up then Base(s, rn) + imm else Base(s, rn) - imm));
        if rd == PC then s.At(x) else s.With(rd, x).Next()
      case Cmp(_, rn, imm) => if rn == PC then s else s.Flagged(CmpFlags(s.core.r[rn], imm)).Next()
      case Mov(_, rd, imm) => if rd == PC then s else s.With(rd, imm).Next()
      case Push(_, list) =>
        var base := Wrap(s.core.r[SP] - ListSize(list, 0));
        s.With(SP, base).(data := Put(list, 0, Cursor(base, s.core.r, s.data)).data).Next()
      case Pop(_, list) =>
        var k := Take(list, 0, code, Cursor(s.core.r[SP], s.core.r, s.data));
        s.(core := s.core.(r := k.r)).With(SP, Wrap(k.at)).Next()
      case B(_, words) => s.At(Wrap(s.pc + 8 + 4 * words))
      case Blx(_, rm) => if rm == PC then s else s.With(LR, Wrap(s.pc + 4)).At(s.core.r[rm])
      case Other(_, w) => others(w, s)
  }

  function Step(img: Image, others: Others, s: Cpu): Cpu
    requires s.pc in img.prog
  {
    Perform(img.prog[s.pc], s, img.code, others)
  }

  // n instructions; execution stops where there is no code.
  function Run(img: Image, others: Others, s: Cpu, n: nat): Cpu
    decreases n
  {
    if n == 0 || s.pc !in img.prog then s else Run(img, others, Step(img, others, s), n - 1)
  }

  // One instruction, then the others.
  lemma Then(img: Image, others: Others, s: Cpu, i: Instr, n: nat)
    requires s.pc in img.prog && img.prog[s.pc] == i
    ensures Run(img, others, s, n + 1) == Run(img, others, Perform(i, s, img.code, others), n)
  {}

  // The words lie in the code from address at on.
  ghost predicate Holds(code: Code, at: int, words: seq<Word>) {
    forall k :: 0 <= k < |words| ==> at + 4 * k in code && code[at + 4 * k] == words[k]
  }

  lemma LoadedWord(code: Code, at: int, words: seq<Word>, k: nat)
    requires Holds(code, at, words) && k < |words|
    ensures at + 4 * k in Load(code).prog && Load(code).prog[at + 4 * k] == Decode(words[k])
    ensures Load(code).code[at + 4 * k] == words[k]
  {}

  // ---- the branch that the patcher writes at a site to reach a thunk

  // 0xEA000000 | (((int32_t)(at - (site + 8)) >> 2) & 0x00FFFFFF); the shift rounds down.
  function EncodeBranch(site: Word, at: Word): Word {
    0xEA00_0000 + Signed(Wrap(at - (site + 8))) / 4 % 0x100_0000
  }

  // The distance is a word-aligned 26-bit number.
  predicate InRange(site: Word, at: Word) {
    var d := Signed(Wrap(at - (site + 8)));
    d % 4 == 0 && -0x200_0000 <= d < 0x200_0000
  }

  function BranchInstr(site: Word, at: Word): Instr {
    B(14, Extend(Signed(Wrap(at - (site + 8))) / 4 % 0x100_0000))
  }

  lemma BranchDecodes(site: Word, at: Word)
    ensures Decode(EncodeBranch(site, at)) == BranchInstr(site, at)
  {
    var w := EncodeBranch(site, at);
    assert w / 0x100_0000 == 0xEA && w % 0x100_0000 == Signed(Wrap(at - (site + 8))) / 4 % 0x100_0000;
  }

  // It lands on the thunk exactly when the distance fits.
  lemma BranchLands(site: Word, at: Word)
    ensures Wrap(site + 8 + 4 * BranchInstr(site, at).words) == at <==> InRange(site, at)
  {
    var d := Signed(Wrap(at - (site + 8)));
    assert Wrap(site + 8 + d) == at;
    ExtendRoundTrip(d);
    var e := 4 * BranchInstr(site, at).words;
    assert -0x200_0000 <= e < 0x200_0000;
    if Wrap(site + 8 + e) == at { SameDistance(site + 8, d, e); }
  }

  // The shift and the sign extension bring back the distance exactly when it fits.
  lemma ExtendRoundTrip(d: int)
    ensures 4 * Extend(d / 4 % 0x100_0000) == d <==> d % 4 == 0 && -0x200_0000 <= d < 0x200_0000
  {}

  lemma SameDistance(a: int, d: int, e: int)
    requires Wrap(a + d) == Wrap(a + e) && -(WORDS / 2) <= d < WORDS / 2 && -(WORDS / 2) <= e < WORDS / 2
    ensures d == e
  {}

  lemma TakeBranch(img: Image, others: Others, s: Cpu, at: Word, n: nat)
    requires s.pc in img.prog && img.prog[s.pc] == BranchInstr(s.pc, at) && InRange(s.pc, at)
    ensures Run(img, others, s, n + 1) == Run(img, others, s.At(at), n)
  {
    BranchLands(s.pc, at);
    Then(img, others, s, BranchInstr(s.pc, at), n);
  }
}
