// hook_addr, hook_arm and hook_thumb of loader/so_util.c: the first bytes of a function are
// overwritten so that calling it enters dst instead.  Code is kept in halfwords here, since a
// Thumb function may start on either halfword of a word.

module HookAddr {
  import opened Words

  type Halfwords = map<int, int>   // keyed by even addresses

  function Load16(m: Halfwords, a: int): int { if a in m then m[a] else 0 }

  function Load32(m: Halfwords, a: int): int { Load16(m, a) + 0x1_0000 * Load16(m, a + 2) }

  function Store16(m: Halfwords, a: int, x: int): Halfwords { m[a := x] }

  function Store32(m: Halfwords, a: int, w: Word): Halfwords {
    Store16(Store16(m, a, w % 0x1_0000), a + 2, w / 0x1_0000)
  }

  // ---- execution, as far as the hooks need it

  datatype Entry = Entry(pc: int, thumb: bool)

  // Loading x into pc also selects the instruction set.
  function Interwork(x: Word): Entry { Entry(x - x % 2, x % 2 == 1) }

  datatype Outcome = Goes(e: Entry) | Elsewhere   // Elsewhere: not one of the hook's instructions

  function Execute(m: Halfwords, e: Entry): Outcome {
    var h := Load16(m, e.pc);
    if e.thumb && h == 0xBF00 then Goes(Entry(e.pc + 2, true))                        // nop
    else if e.thumb && h == 0xF8DF && Load16(m, e.pc + 2) / 0x1000 == 15 then         // ldr.w pc,[pc,#imm12]
      var base := e.pc + 4;
      var x := Load32(m, base - base % 4 + Load16(m, e.pc + 2) % 0x1000);
      if 0 <= x < WORDS then Goes(Interwork(x)) else Elsewhere
    else if !e.thumb && Load32(m, e.pc) == 0xE51F_F004 then                           // ldr pc,[pc,#-4]
      var x := Load32(m, e.pc + 4);
      if 0 <= x < WORDS then Goes(Interwork(x)) else Elsewhere
    else Elsewhere
  }

  // ---- the hook writers

  function HookThumb(m: Halfwords, addr: Word, dst: Word): Halfwords {
    if addr == 0 then m
    else
      var a := addr - addr % 2;
      if a / 2 % 2 == 1 then Store32(Store32(Store16(m, a, 0xBF00), a + 2, 0xF000_F8DF), a + 2 + 4, dst)
      else Store32(Store32(m, a, 0xF000_F8DF), a + 4, dst)
  }

  function HookArm(m: Halfwords, addr: Word, dst: Word): Halfwords {
    if addr == 0 then m else Store32(Store32(m, addr, 0xE51F_F004), addr + 4, dst)
  }

  function Hook(m: Halfwords, addr: Word, dst: Word): Halfwords {
    if addr == 0 then m else if addr % 2 == 1 then HookThumb(m, addr, dst) else HookArm(m, addr, dst)
  }

  lemma StoreLoad32(m: Halfwords, a: int, w: Word)
    ensures Load32(Store32(m, a, w), a) == w
    ensures Load16(Store32(m, a, w), a) == w % 0x1_0000 && Load16(Store32(m, a, w), a + 2) == w / 0x1_0000
    ensures forall b :: b != a && b != a + 2 ==> Load16(Store32(m, a, w), b) == Load16(m, b)
  {}

  lemma ThumbLoad(h: Halfwords, at: int, dst: Word)
    requires at % 4 == 0 && Load16(h, at) == 0xF8DF && Load16(h, at + 2) == 0xF000 && Load32(h, at + 4) == dst
    ensures Execute(h, Entry(at, true)) == Goes(Interwork(dst))
  {}

  lemma ArmLoad(h: Halfwords, at: int, dst: Word)
    requires Load32(h, at) == 0xE51F_F004 && Load32(h, at + 4) == dst
    ensures Execute(h, Entry(at, false)) == Goes(Interwork(dst))
  {}

  lemma ThumbNop(h: Halfwords, at: int)
    requires Load16(h, at) == 0xBF00
    ensures Execute(h, Entry(at, true)) == Goes(Entry(at + 2, true))
  {}

  // The two words of a hook, as they are read back.
  lemma HookWords(m: Halfwords, at: int, insn: Word, dst: Word)
    ensures var h := Store32(Store32(m, at, insn), at + 4, dst);
            && Load32(h, at) == insn && Load32(h, at + 4) == dst
            && Load16(h, at) == insn % 0x1_0000 && Load16(h, at + 2) == insn / 0x1_0000
            && forall b :: b < at ==> Load16(h, b) == Load16(m, b)
  {
    StoreLoad32(m, at, insn);
    StoreLoad32(Store32(m, at, insn), at + 4, dst);
  }

  // Calling a hooked function, through a pointer whose bit 0 says ARM or Thumb, enters dst in
  // the instruction set that dst's bit 0 says, in one instruction; a Thumb function that starts
  // on the second halfword of a word has a nop before it.
  lemma HookEnters(m: Halfwords, addr: Word, dst: Word)
    requires addr != 0 && (addr % 2 == 0 ==> addr % 4 == 0)
    ensures var h := Hook(m, addr, dst);
            var first := Execute(h, Interwork(addr));
            if addr % 4 == 3 then
              first == Goes(Entry(addr + 1, true)) && Execute(h, first.e) == Goes(Interwork(dst))
            else first == Goes(Interwork(dst))
  {
    var h := Hook(m, addr, dst);
    hide Execute;
    hide Store32;
    hide Load32;
    if addr % 2 == 0 {
      HookWords(m, addr, 0xE51F_F004, dst);
      ArmLoad(h, addr, dst);
    } else if addr % 4 == 1 {
      var a := addr - 1;
      assert a / 2 % 2 == 0 && a % 4 == 0;
      HookWords(m, a, 0xF000_F8DF, dst);
      ThumbLoad(h, a, dst);
    } else {
      var a := addr - 1;
      assert a / 2 % 2 == 1 && (a + 2) % 4 == 0;
      HookWords(Store16(m, a, 0xBF00), a + 2, 0xF000_F8DF, dst);
      ThumbNop(h, a);
      ThumbLoad(h, a + 2, dst);
    }
  }

  // What is written where: "ldr pc,[pc,#-4]" and dst for an ARM function; "ldr.w pc,[pc]" and dst
  // for a Thumb function, on the next word with a nop before it when it starts in the middle of one.
  lemma HookIsWritten(m: Halfwords, addr: Word, dst: Word)
    requires addr != 0
    ensures var h := Hook(m, addr, dst);
            && (addr % 2 == 0 ==> Load32(h, addr) == 0xE51F_F004 && Load32(h, addr + 4) == dst)
            && (addr % 4 == 1 ==> Load32(h, addr - 1) == 0xF000_F8DF && Load32(h, addr + 3) == dst)
            && (addr % 4 == 3 ==> Load16(h, addr - 1) == 0xBF00 && Load32(h, addr + 1) == 0xF000_F8DF && Load32(h, addr + 5) == dst)
    ensures Hook(m, 0, dst) == m
  {
    hide Store32, Load32;
    if addr % 2 == 0 {
      HookWords(m, addr, 0xE51F_F004, dst);
    } else if addr % 4 == 1 {
      assert (addr - 1) / 2 % 2 == 0;
      HookWords(m, addr - 1, 0xF000_F8DF, dst);
    } else {
      assert (addr - 1) / 2 % 2 == 1;
      HookWords(Store16(m, addr - 1, 0xBF00), addr + 1, 0xF000_F8DF, dst);
    }
  }

  // Nothing but the eight bytes at the (halfword-aligned) address and the nop is overwritten.
  lemma HookIsLocal(m: Halfwords, addr: Word, dst: Word, b: int)
    requires b < addr - addr % 2 || b >= addr - addr % 2 + (if addr % 4 == 3 then 10 else 8)
    ensures Load16(Hook(m, addr, dst), b) == Load16(m, b)
  {}
}
