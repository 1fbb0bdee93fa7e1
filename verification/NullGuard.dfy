// patch_null_guard of loader/main.c: a load "ldr r3,[r0]" is replaced by a branch to a thunk
// that leaves the function when r0 is NULL.

module NullGuard {
  import opened Words
  import opened ArmMachine

  const LOAD: Word := 0xE590_3000   // ldr r3,[r0]

  // Index 2 is a literal that is also fallen into when r0 is not NULL.
  function Thunk(ret: Word, resume: Word): seq<Word> {
    [ 0xE350_0000,   // cmp r0,#0
      0x051F_F004,   // ldreq pc,[pc,#-4]
      ret,
      LOAD,
      0xE51F_F004,   // ldr pc,[pc,#-4]
      resume ]
  }

  lemma ThunkDecodes()
    ensures Decode(0xE350_0000) == Cmp(14, 0, 0)
    ensures Decode(0x051F_F004) == Ldr(0, PC, PC, false, 4)
    ensures Decode(LOAD) == Ldr(14, 0, 3, true, 0)
    ensures Decode(0xE51F_F004) == Ldr(14, PC, PC, false, 4)
  {}

  // What the CPU finds at the thunk: word 2 is whatever instruction the address ret encodes.
  ghost predicate Listing(img: Image, at: int, ret: Word, resume: Word) {
    && 0 <= at && at + 24 < WORDS
    && at in img.prog && img.prog[at] == Cmp(14, 0, 0)
    && at + 4 in img.prog && img.prog[at + 4] == Ldr(0, PC, PC, false, 4)
    && at + 8 in img.prog && img.prog[at + 8].cond == 9 && at + 8 in img.code && img.code[at + 8] == ret
    && at + 12 in img.prog && img.prog[at + 12] == Ldr(14, 0, 3, true, 0)
    && at + 16 in img.prog && img.prog[at + 16] == Ldr(14, PC, PC, false, 4)
    && at + 20 in img.code && img.code[at + 20] == resume
  }

  // The game is loaded at 0x94000000, so every address in it starts with nibble 9, which as a
  // condition is LS.
  lemma Lists(code: Code, at: int, ret: Word, resume: Word)
    requires Holds(code, at, Thunk(ret, resume)) && 0 <= at && at + 24 < WORDS
    requires ret / 0x1000_0000 == 9
    ensures Listing(Load(code), at, ret, resume)
  {
    var t := Thunk(ret, resume);
    ThunkDecodes();
    LoadedWord(code, at, t, 0);
    LoadedWord(code, at, t, 1);
    LoadedWord(code, at, t, 2);
    LoadedWord(code, at, t, 3);
    LoadedWord(code, at, t, 4);
    LoadedWord(code, at, t, 5);
    assert Decode(ret).cond == 9;
  }

  lemma RunExit(img: Image, others: Others, s: Cpu, ret: Word, resume: Word, n: nat)
    requires Listing(img, s.pc, ret, resume)
    ensures var t := s.Flagged(CmpFlags(s.core.r[0], 0));
            Run(img, others, s, n + 2) == Run(img, others, t.At(if s.core.r[0] == 0 then ret else s.pc + 8), n)
  {
    var i, j := Cmp(14, 0, 0), Ldr(0, PC, PC, false, 4);
    Then(img, others, s, i, n + 1);
    Then(img, others, Perform(i, s, img.code, others), j, n);
  }

  // After cmp r0,#0 with r0 not 0 the carry is set and Z is clear: LS fails.
  lemma AddressIsSkipped(img: Image, others: Others, s: Cpu, ret: Word, resume: Word, n: nat)
    requires s.pc >= 8 && Listing(img, s.pc - 8, ret, resume)
    requires s.core.f == CmpFlags(s.core.r[0], 0) && s.core.r[0] != 0
    ensures Run(img, others, s, n + 1) == Run(img, others, s.At(s.pc + 4), n)
  {
    Then(img, others, s, img.prog[s.pc], n);
  }

  // The load addresses for which the literal is skipped whatever r0 is: the first nibble has
  // to be 0, 3, 6 or 9 (EQ, CC, VS or LS).
  lemma SafeNibbles(nibble: int)
    requires 0 <= nibble < 16
    ensures (forall x: Word :: x != 0 ==> !Passes(nibble, CmpFlags(x, 0))) <==> nibble in {0, 3, 6, 9}
  {
    var low: Word, high: Word := 1, 0xFFFF_FFFF;
    assert CmpFlags(low, 0) == Flags(false, false, true, false);
    assert CmpFlags(high, 0) == Flags(true, false, true, false);
    if nibble !in {0, 3, 6, 9} {
      assert Passes(nibble, CmpFlags(low, 0)) || Passes(nibble, CmpFlags(high, 0));
    }
  }

  lemma RunLoad(img: Image, others: Others, s: Cpu, ret: Word, resume: Word)
    requires s.pc >= 12 && Listing(img, s.pc - 12, ret, resume)
    ensures Run(img, others, s, 2) == s.With(3, Read(img.code, s.data, s.core.r[0])).At(resume)
  {
    var i, j := Ldr(14, 0, 3, true, 0), Ldr(14, PC, PC, false, 4);
    Then(img, others, s, i, 1);
    Then(img, others, Perform(i, s, img.code, others), j, 0);
  }

  // The site as patch_null_guard leaves it.
  ghost predicate Installed(code: Code, site: Word, at: Word, ret: Word) {
    && site in code && code[site] == EncodeBranch(site, at) && InRange(site, at)
    && Holds(code, at, Thunk(ret, Wrap(site + 4)))
    && at + 24 < WORDS && ret / 0x1000_0000 == 9
  }

  lemma RunThunkNull(img: Image, others: Others, s: Cpu, ret: Word, resume: Word)
    requires Listing(img, s.pc, ret, resume) && s.core.r[0] == 0
    ensures Run(img, others, s, 2) == s.Flagged(CmpFlags(0, 0)).At(ret)
  {
    RunExit(img, others, s, ret, resume, 0);
  }

  lemma RunThunk(img: Image, others: Others, s: Cpu, ret: Word, resume: Word)
    requires Listing(img, s.pc, ret, resume) && s.core.r[0] != 0
    ensures Run(img, others, s, 5)
            == s.Flagged(CmpFlags(s.core.r[0], 0)).With(3, Read(img.code, s.data, s.core.r[0])).At(resume)
  {
    var u := s.Flagged(CmpFlags(s.core.r[0], 0));
    RunExit(img, others, s, ret, resume, 3);
    AddressIsSkipped(img, others, u.At(s.pc + 8), ret, resume, 2);
    RunLoad(img, others, u.At(s.pc + 12), ret, resume);
  }

  lemma LoadedSite(code: Code, site: Word, at: Word)
    requires site in code && code[site] == EncodeBranch(site, at)
    ensures site in Load(code).prog && Load(code).prog[site] == BranchInstr(site, at) && Load(code).code == code
  {
    BranchDecodes(site, at);
  }

  // What the site does once patched, for all register values and whatever surrounds it: it
  // goes to ret exactly when r0 is NULL, and else does the load and resumes; the flags are
  // those of the comparison.
  lemma Behaviour(code: Code, others: Others, s: Cpu, at: Word, ret: Word)
    requires Installed(code, s.pc, at, ret)
    ensures s.core.r[0] == 0 ==>
              Run(Load(code), others, s, 3) == s.Flagged(CmpFlags(0, 0)).At(ret)
    ensures s.core.r[0] != 0 ==>
              Run(Load(code), others, s, 6)
              == s.Flagged(CmpFlags(s.core.r[0], 0)).With(3, Read(code, s.data, s.core.r[0])).At(Wrap(s.pc + 4))
  {
    var resume := Wrap(s.pc + 4);
    Lists(code, at, ret, resume);
    LoadedSite(code, s.pc, at);
    if s.core.r[0] == 0 {
      TakeBranch(Load(code), others, s, at, 2);
      RunThunkNull(Load(code), others, s.At(at), ret, resume);
    } else {
      TakeBranch(Load(code), others, s, at, 5);
      RunThunk(Load(code), others, s.At(at), ret, resume);
    }
  }

  lemma RunOne(img: Image, others: Others, s: Cpu)
    requires s.pc in img.prog && img.prog[s.pc] == Ldr(14, 0, 3, true, 0)
    ensures Run(img, others, s, 1) == s.With(3, Read(img.code, s.data, s.core.r[0])).Next()
  {
    Then(img, others, s, Ldr(14, 0, 3, true, 0), 0);
  }

  lemma OriginalDecodes(code: Code, a: int)
    requires a in code && code[a] == LOAD
    ensures a in Load(code).prog && Load(code).prog[a] == Ldr(14, 0, 3, true, 0) && Load(code).code == code
  {
    ThunkDecodes();
  }

  // The original instruction, for comparison: the same r3, the same next address.
  lemma Original(code: Code, others: Others, s: Cpu)
    requires s.pc in code && code[s.pc] == LOAD
    ensures Run(Load(code), others, s, 1) == s.With(3, Read(code, s.data, s.core.r[0])).Next()
  {
    OriginalDecodes(code, s.pc);
    RunOne(Load(code), others, s);
  }
}
