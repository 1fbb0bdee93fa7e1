// patch_spin of loader/main.c: a loop that spins until a shared word becomes 2 is replaced by
// a thunk that sleeps between its checks.  Both run beside an environment that may change any
// shared word between any two instructions; the thunk is shown to refine the loop.

module SpinThunk {
  import opened Words
  import opened ArmMachine

  // Where the pieces are: the loop's site, the thunk, the sleep routine.
  datatype Layout = Layout(site: Word, at: Word, delay: Word)

  function Loop(): seq<Word> {
    [ 0xE591_3024,     // ldr r3,[r1,#0x24]
      0xE353_0002,     // cmp r3,#2
      0x1AFF_FFFC ]    // bne site
  }

  function Thunk(y: Layout): seq<Word> {
    [ 0xE591_3024,     // ldr r3,[r1,#0x24]
      0xE353_0002,     // cmp r3,#2
      0x0A00_0005,     // beq done
      0xE92D_500F,     // push {r0-r3,ip,lr}
      0xE3A0_00C8,     // mov r0,#200
      0xE59F_C010,     // ldr ip,[pc,#16]
      0xE12F_FF3C,     // blx ip
      0xE8BD_500F,     // pop {r0-r3,ip,lr}
      0xEAFF_FFF6,     // b loop
      0xE51F_F004,     // done: ldr pc,[pc,#-4]
      Wrap(y.site + 12),
      y.delay ]
  }

  const SAVED: int := 0x500F   // r0-r3, r12, lr

  lemma LoopDecodes()
    ensures Decode(0xE591_3024) == Ldr(14, 1, 3, true, 0x24)
    ensures Decode(0xE353_0002) == Cmp(14, 3, 2)
    ensures Decode(0x1AFF_FFFC) == B(1, -4)
  {}

  lemma ThunkDecodes()
    ensures Decode(0x0A00_0005) == B(0, 5)
    ensures Decode(0xE92D_500F) == Push(14, SAVED)
    ensures Decode(0xE3A0_00C8) == Mov(14, 0, 200)
    ensures Decode(0xE59F_C010) == Ldr(14, PC, 12, true, 16)
  {}

  lemma ThunkDecodesRest()
    ensures Decode(0xE12F_FF3C) == Blx(14, 12)
    ensures Decode(0xE8BD_500F) == Pop(14, SAVED)
    ensures Decode(0xEAFF_FFF6) == B(14, -10)
    ensures Decode(0xE51F_F004) == Ldr(14, PC, PC, false, 4)
  {}

  // ---- the register list of the push and the pop

  function Saved(base: int, r: Regs, data: Memory): Memory {
    data[base := r[0]][base + 4 := r[1]][base + 8 := r[2]][base + 12 := r[3]][base + 16 := r[12]][base + 20 := r[14]]
  }

  lemma SavedSize()
    ensures ListSize(SAVED, 0) == 24
  {
    assert ListSize(0x5, 12) == 8;
    assert ListSize(0x50, 8) == 8;
    assert ListSize(0x500, 4) == 8;
  }

  lemma PutSaved(base: int, r: Regs, data: Memory)
    ensures Put(SAVED, 0, Cursor(base, r, data)).data == Saved(base, r, data)
  {
    var k := Cursor(base, r, data);
    var k1 := k.(at := base + 4, data := k.data[base := r[0]]);
    var k2 := k1.(at := base + 8, data := k1.data[base + 4 := r[1]]);
    var k3 := k2.(at := base + 12, data := k2.data[base + 8 := r[2]]);
    var k4 := k3.(at := base + 16, data := k3.data[base + 12 := r[3]]);
    var k5 := k4.(at := base + 20, data := k4.data[base + 16 := r[12]]);
    assert Put(0x500F, 0, k) == Put(0x2807, 1, k1) == Put(0x1403, 2, k2);
    assert Put(0x1403, 2, k2) == Put(0xA01, 3, k3) == Put(0x500, 4, k4);
    assert Put(0x500, 4, k4) == Put(0x280, 5, k4) == Put(0x140, 6, k4);
    assert Put(0x140, 6, k4) == Put(0xA0, 7, k4) == Put(0x50, 8, k4);
    assert Put(0x50, 8, k4) == Put(0x28, 9, k4) == Put(0x14, 10, k4);
    assert Put(0x14, 10, k4) == Put(0xA, 11, k4) == Put(0x5, 12, k4);
    assert Put(0x5, 12, k4) == Put(0x2, 13, k5) == Put(0x1, 14, k5);
  }

  // What the pop makes of the registers when it finds the words w0 .. w5 on the stack.
  lemma TakeSaved(base: int, r: Regs, code: Code, data: Memory, w: seq<Word>)
    requires |w| == 6 && forall j :: 0 <= j < 6 ==> Read(code, data, base + 4 * j) == w[j]
    ensures Take(SAVED, 0, code, Cursor(base, r, data))
            == Cursor(base + 24, r[0 := w[0]][1 := w[1]][2 := w[2]][3 := w[3]][12 := w[4]][14 := w[5]], data)
  {
    var k := Cursor(base, r, data);
    var k1 := k.(at := base + 4, r := k.r[0 := w[0]]);
    var k2 := k1.(at := base + 8, r := k1.r[1 := w[1]]);
    var k3 := k2.(at := base + 12, r := k2.r[2 := w[2]]);
    var k4 := k3.(at := base + 16, r := k3.r[3 := w[3]]);
    var k5 := k4.(at := base + 20, r := k4.r[12 := w[4]]);
    assert forall j :: 0 <= j < 6 ==> Read(code, data, base + 4 * j) == w[j];
    assert Read(code, data, base + 4 * 0) == w[0] && Read(code, data, base + 4 * 1) == w[1];
    assert Read(code, data, base + 4 * 2) == w[2] && Read(code, data, base + 4 * 3) == w[3];
    assert Read(code, data, base + 4 * 4) == w[4] && Read(code, data, base + 4 * 5) == w[5];
    assert Take(0x500F, 0, code, k) == Take(0x2807, 1, code, k1) == Take(0x1403, 2, code, k2);
    assert Take(0x1403, 2, code, k2) == Take(0xA01, 3, code, k3) == Take(0x500, 4, code, k4);
    assert Take(0x500, 4, code, k4) == Take(0x280, 5, code, k4) == Take(0x140, 6, code, k4);
    assert Take(0x140, 6, code, k4) == Take(0xA0, 7, code, k4) == Take(0x50, 8, code, k4);
    assert Take(0x50, 8, code, k4) == Take(0x28, 9, code, k4) == Take(0x14, 10, code, k4);
    assert Take(0x14, 10, code, k4) == Take(0xA, 11, code, k4) == Take(0x5, 12, code, k4);
    assert Take(0x5, 12, code, k4) == Take(0x2, 13, code, k5) == Take(0x1, 14, code, k5);
  }

  lemma PushSaved(m: Cpu, code: Code, others: Others)
    requires m.core.r[SP] >= 24
    ensures var base := m.core.r[SP] - 24;
            Perform(Push(14, SAVED), m, code, others)
            == m.With(SP, base).(data := Saved(base, m.core.r, m.data)).Next()
  {
    SavedSize();
    PutSaved(m.core.r[SP] - 24, m.core.r, m.data);
  }

  lemma PopSaved(m: Cpu, code: Code, others: Others, base: int, w: seq<Word>)
    requires |w| == 6 && forall j :: 0 <= j < 6 ==> Read(code, m.data, base + 4 * j) == w[j]
    requires m.core.r[SP] == base && base + 24 < WORDS
    ensures Perform(Pop(14, SAVED), m, code, others)
            == m.With(0, w[0]).With(1, w[1]).With(2, w[2]).With(3, w[3]).With(12, w[4]).With(LR, w[5])
               .With(SP, base + 24).Next()
  {
    TakeSaved(base, m.core.r, code, m.data, w);
  }

  // ---- what the CPU finds

  ghost predicate ThunkListing(img: Image, y: Layout) {
    var a := y.at;
    && a + 48 < WORDS
    && a in img.prog && img.prog[a] == Ldr(14, 1, 3, true, 0x24)
    && a + 4 in img.prog && img.prog[a + 4] == Cmp(14, 3, 2)
    && a + 8 in img.prog && img.prog[a + 8] == B(0, 5)
    && a + 12 in img.prog && img.prog[a + 12] == Push(14, SAVED)
    && a + 16 in img.prog && img.prog[a + 16] == Mov(14, 0, 200)
    && a + 20 in img.prog && img.prog[a + 20] == Ldr(14, PC, 12, true, 16)
    && a + 24 in img.prog && img.prog[a + 24] == Blx(14, 12)
    && a + 28 in img.prog && img.prog[a + 28] == Pop(14, SAVED)
    && a + 32 in img.prog && img.prog[a + 32] == B(14, -10)
    && a + 36 in img.prog && img.prog[a + 36] == Ldr(14, PC, PC, false, 4)
    && a + 40 in img.code && img.code[a + 40] == Wrap(y.site + 12)
    && a + 44 in img.code && img.code[a + 44] == y.delay
    && y.site in img.prog && img.prog[y.site] == BranchInstr(y.site, a) && InRange(y.site, a)
  }

  ghost predicate LoopListing(img: Image, y: Layout) {
    var a := y.site;
    && a + 12 < WORDS
    && a in img.prog && img.prog[a] == Ldr(14, 1, 3, true, 0x24)
    && a + 4 in img.prog && img.prog[a + 4] == Cmp(14, 3, 2)
    && a + 8 in img.prog && img.prog[a + 8] == B(1, -4)
  }

  // ---- execution beside an environment

  // seen lists the values that the check at the loop's head has read so far.
  datatype Spin = Spin(cpu: Cpu, seen: seq<Word>)

  // The thread's dead stack words just below sp, which no other thread touches.
  function Own(sp: int): set<int> {
    {sp - 24, sp - 20, sp - 16, sp - 12, sp - 8, sp - 4}
  }

  ghost predicate SameAt(a: Memory, b: Memory, x: int) {
    (x in a <==> x in b) && (x in a ==> a[x] == b[x])
  }

  // The environment changed memory, but not the thread's own words.
  ghost predicate Meddled(s: Cpu, m: Cpu, own: set<int>) {
    m == s.(data := m.data) && forall x :: x in own ==> SameAt(s.data, m.data, x)
  }

  // The sleep routine returned, keeping what the ARM procedure call standard makes it keep.
  ghost predicate Returned(m: Cpu, t: Cpu, own: set<int>) {
    && t.pc == m.core.r[LR] && t.core.r[SP] == m.core.r[SP]
    && (forall i :: 4 <= i < 12 ==> t.core.r[i] == m.core.r[i])
    && (forall x :: x in own ==> SameAt(m.data, t.data, x))
  }

  function WatchedAddress(base: int): int { Wrap(base + 0x24) }

  function Watched(img: Image, m: Cpu): Word { Read(img.code, m.data, WatchedAddress(m.core.r[1])) }

  // One instruction, or one whole call of the sleep routine.
  ghost predicate Acts(img: Image, others: Others, delay: Word, head: Word, own: set<int>, m: Spin, t: Spin) {
    if m.cpu.pc == delay then Returned(m.cpu, t.cpu, own) && t.seen == m.seen
    else m.cpu.pc in img.prog && t.cpu == Step(img, others, m.cpu)
         && t.seen == if m.cpu.pc == head then m.seen + [Watched(img, m.cpu)] else m.seen
  }

  // The environment moves, then the thread.
  ghost predicate Moves(img: Image, others: Others, delay: Word, head: Word, own: set<int>, s: Spin, t: Spin) {
    exists m: Cpu :: Meddled(s.cpu, m, own) && Acts(img, others, delay, head, own, Spin(m, s.seen), t)
  }

  // The same, or the environment alone.
  ghost predicate MayMove(img: Image, others: Others, delay: Word, head: Word, own: set<int>, s: Spin, t: Spin) {
    Moves(img, others, delay, head, own, s, t) || (Meddled(s.cpu, t.cpu, own) && t.seen == s.seen)
  }

  // ---- the simulation

  datatype Setting = Setting(y: Layout, sp: Word, r1: Word, img: Image, loop: Image, others: Others)

  // Both texts are in place and apart from each other and from the sleep routine.
  ghost predicate Fetched(c: Setting) {
    && ThunkListing(c.img, c.y) && LoopListing(c.loop, c.y)
    && c.y.delay != c.y.site + 12 && (c.y.site + 12 < c.y.at || c.y.at + 48 <= c.y.site)
    && c.sp >= 24 && c.y.delay !in c.img.prog && c.y.delay !in c.loop.prog
  }

  // The stack and the watched word lie outside the text and apart from each other.
  ghost predicate Ready(c: Setting) {
    && Fetched(c)
    && (forall x :: x in Own(c.sp) ==> x !in c.img.code)
    && WatchedAddress(c.r1) !in Own(c.sp) && WatchedAddress(c.r1) !in c.img.code && WatchedAddress(c.r1) !in c.loop.code
  }

  // Memory agrees except for the thread's own dead words.
  ghost predicate Alike(a: Memory, b: Memory, own: set<int>) {
    forall x :: x !in own ==> SameAt(a, b, x)
  }

  // Memory a, but with b's own words.
  function Blend(a: Memory, b: Memory, own: set<int>): Memory {
    map x | x in a.Keys + b.Keys && (if x in own then x in b else x in a) :: if x in own then b[x] else a[x]
  }

  lemma Blended(o: Cpu, a: Memory, own: set<int>)
    ensures var m := o.(data := Blend(a, o.data, own)); Meddled(o, m, own) && Alike(a, m.data, own)
  {}

  // Where the two executions are: the patched site, thunk words 0-9, behind the loop, asleep.
  datatype Place = Site | In(k: int) | Out | Asleep

  function ThunkPc(y: Layout, at: Place): int {
    match at
    case Site => y.site
    case In(k) => y.at + 4 * k
    case Out => y.site + 12
    case Asleep => y.delay
  }

  function LoopPc(y: Layout, at: Place): int {
    match at
    case In(1) => y.site + 4
    case In(2) => y.site + 8
    case In(9) => y.site + 12
    case Out => y.site + 12
    case _ => y.site
  }

  // Between the push and the pop.
  predicate Inside(at: Place) { at == Asleep || (at.In? && 4 <= at.k <= 7) }

  predicate OnStack(data: Memory, a: int, x: Word) { a in data && data[a] == x }

  ghost predicate Pushed(c: Setting, p: Cpu, o: Cpu) {
    var r := o.core.r;
    && p.core.r[SP] == c.sp - 24
    && (forall i :: 4 <= i < 12 ==> p.core.r[i] == r[i])
    && OnStack(p.data, c.sp - 24, r[0]) && OnStack(p.data, c.sp - 20, r[1]) && OnStack(p.data, c.sp - 16, r[2])
    && OnStack(p.data, c.sp - 12, r[3]) && OnStack(p.data, c.sp - 8, r[12]) && OnStack(p.data, c.sp - 4, r[14])
  }

  // The check has not seen a 2 yet.
  predicate Waiting(seen: seq<Word>) { forall j :: 0 <= j < |seen| ==> seen[j] != 2 }

  // The last value was just read, the ones before it were not 2.
  predicate Checking(seen: seq<Word>, r: Regs) {
    |seen| > 0 && r[3] == seen[|seen| - 1] && forall j :: 0 <= j < |seen| - 1 ==> seen[j] != 2
  }

  ghost predicate Related(c: Setting, at: Place, p: Spin, o: Spin) {
    && p.seen == o.seen && Alike(p.cpu.data, o.cpu.data, Own(c.sp))
    && p.cpu.pc == ThunkPc(c.y, at) && o.cpu.pc == LoopPc(c.y, at)
    && o.cpu.core.r[SP] == c.sp && o.cpu.core.r[1] == c.r1
    && (if Inside(at) then Pushed(c, p.cpu, o.cpu) else p.cpu.core.r == o.cpu.core.r)
    && match at
       case Site => p.cpu.core == o.cpu.core && p.seen == []
       case In(1) => Checking(p.seen, p.cpu.core.r)
       case In(2) => Checking(p.seen, p.cpu.core.r) && p.cpu.core.f == o.cpu.core.f == CmpFlags(p.cpu.core.r[3], 2)
       case In(5) => Waiting(p.seen) && p.cpu.core.r[0] == 200
       case In(6) => Waiting(p.seen) && p.cpu.core.r[0] == 200 && p.cpu.core.r[12] == c.y.delay
       case Asleep => Waiting(p.seen) && p.cpu.core.r[0] == 200 && p.cpu.core.r[LR] == c.y.at + 28
       case In(9) => Checking(p.seen, p.cpu.core.r) && p.cpu.core.r[3] == 2
                       && p.cpu.core.f == o.cpu.core.f == CmpFlags(2, 2)
       case Out => Checking(p.seen, p.cpu.core.r) && p.cpu.core.r[3] == 2
                   && p.cpu.core.f == o.cpu.core.f == CmpFlags(2, 2)
       case In(k) => k in {0, 3, 4, 7, 8} && Waiting(p.seen)
  }

  // The loop's counterpart of a move of the thunk: the environment does the same to the shared
  // words, and the loop itself does nothing.
  function Idle(c: Setting, q: Spin, o: Spin): Spin {
    o.(cpu := o.cpu.(data := Blend(q.cpu.data, o.cpu.data, Own(c.sp))))
  }

  ghost predicate ThunkActs(c: Setting, m: Spin, q: Spin) {
    Acts(c.img, c.others, c.y.delay, c.y.at, Own(c.sp), m, q)
  }

  ghost predicate LoopActs(c: Setting, m: Spin, q: Spin) {
    Acts(c.loop, c.others, c.y.delay, c.y.site, Own(c.sp), m, q)
  }

  lemma MeddledRelated(c: Setting, at: Place, p: Spin, m: Cpu, o: Spin) returns (om: Spin)
    requires Ready(c) && Related(c, at, p, o) && Meddled(p.cpu, m, Own(c.sp))
    ensures om == Idle(c, Spin(m, p.seen), o) && Meddled(o.cpu, om.cpu, Own(c.sp)) && om.seen == o.seen
    ensures Related(c, at, Spin(m, p.seen), om)
  {
    om := Idle(c, Spin(m, p.seen), o);
    Blended(o.cpu, m.data, Own(c.sp));
    if Inside(at) {
      forall x | x in Own(c.sp) ensures SameAt(p.cpu.data, m.data, x) {}
    }
  }

  // -- what each thunk word does to the CPU

  lemma ActsIs(c: Setting, p: Spin, q: Spin, i: Instr)
    requires ThunkActs(c, p, q) && p.cpu.pc in c.img.prog && c.img.prog[p.cpu.pc] == i && p.cpu.pc != c.y.delay
    ensures q.cpu == Perform(i, p.cpu, c.img.code, c.others)
    ensures q.seen == if p.cpu.pc == c.y.at then p.seen + [Watched(c.img, p.cpu)] else p.seen
  {}

  lemma ActSite(c: Setting, p: Spin, q: Spin)
    requires Fetched(c) && ThunkActs(c, p, q) && p.cpu.pc == c.y.site
    ensures q == Spin(p.cpu.At(c.y.at), p.seen)
  {
    hide Acts;
    hide Step;
    BranchLands(c.y.site, c.y.at);
    ActsIs(c, p, q, BranchInstr(c.y.site, c.y.at));
  }

  lemma ActLoad(c: Setting, p: Spin, q: Spin)
    requires Fetched(c) && ThunkActs(c, p, q) && p.cpu.pc == c.y.at
    ensures var v := Watched(c.img, p.cpu); q == Spin(p.cpu.With(3, v).At(c.y.at + 4), p.seen + [v])
  {
    hide Acts;
    hide Step;
    ActsIs(c, p, q, Ldr(14, 1, 3, true, 0x24));
  }

  lemma ActCompare(c: Setting, p: Spin, q: Spin)
    requires Fetched(c) && ThunkActs(c, p, q) && p.cpu.pc == c.y.at + 4
    ensures q == Spin(p.cpu.Flagged(CmpFlags(p.cpu.core.r[3], 2)).At(c.y.at + 8), p.seen)
  {
    hide Acts;
    hide Step;
    ActsIs(c, p, q, Cmp(14, 3, 2));
  }

  lemma ActBranch(c: Setting, p: Spin, q: Spin)
    requires Fetched(c) && ThunkActs(c, p, q) && p.cpu.pc == c.y.at + 8
    ensures q == Spin(p.cpu.At(if p.cpu.core.f.z then c.y.at + 36 else c.y.at + 12), p.seen)
  {
    hide Acts;
    hide Step;
    ActsIs(c, p, q, B(0, 5));
  }

  lemma ActPush(c: Setting, p: Spin, q: Spin)
    requires Fetched(c) && ThunkActs(c, p, q) && p.cpu.pc == c.y.at + 12 && p.cpu.core.r[SP] == c.sp
    ensures q == Spin(p.cpu.With(SP, c.sp - 24).(data := Saved(c.sp - 24, p.cpu.core.r, p.cpu.data)).At(c.y.at + 16), p.seen)
  {
    hide Acts;
    hide Step;
    hide Perform;
    ActsIs(c, p, q, Push(14, SAVED));
    PushSaved(p.cpu, c.img.code, c.others);
  }

  lemma ActArgument(c: Setting, p: Spin, q: Spin)
    requires Fetched(c) && ThunkActs(c, p, q) && p.cpu.pc == c.y.at + 16
    ensures q == Spin(p.cpu.With(0, 200).At(c.y.at + 20), p.seen)
  {
    hide Acts;
    hide Step;
    ActsIs(c, p, q, Mov(14, 0, 200));
  }

  lemma ActRoutine(c: Setting, p: Spin, q: Spin)
    requires Fetched(c) && ThunkActs(c, p, q) && p.cpu.pc == c.y.at + 20
    ensures q == Spin(p.cpu.With(12, c.y.delay).At(c.y.at + 24), p.seen)
  {
    hide Acts;
    hide Step;
    ActsIs(c, p, q, Ldr(14, PC, 12, true, 16));
  }

  lemma ActCall(c: Setting, p: Spin, q: Spin)
    requires Fetched(c) && ThunkActs(c, p, q) && p.cpu.pc == c.y.at + 24
    ensures q == Spin(p.cpu.With(LR, c.y.at + 28).At(p.cpu.core.r[12]), p.seen)
  {
    hide Acts;
    hide Step;
    ActsIs(c, p, q, Blx(14, 12));
  }

  lemma ActPop(c: Setting, p: Spin, q: Spin, w: seq<Word>)
    requires Fetched(c) && ThunkActs(c, p, q) && p.cpu.pc == c.y.at + 28 && p.cpu.core.r[SP] == c.sp - 24
    requires |w| == 6 && forall j :: 0 <= j < 6 ==> Read(c.img.code, p.cpu.data, c.sp - 24 + 4 * j) == w[j]
    ensures q == Spin(p.cpu.With(0, w[0]).With(1, w[1]).With(2, w[2]).With(3, w[3]).With(12, w[4])
                      .With(LR, w[5]).With(SP, c.sp).At(c.y.at + 32), p.seen)
  {
    hide Acts;
    hide Step;
    hide Perform;
    ActsIs(c, p, q, Pop(14, SAVED));
    PopSaved(p.cpu, c.img.code, c.others, c.sp - 24, w);
  }

  lemma ActAgain(c: Setting, p: Spin, q: Spin)
    requires Fetched(c) && ThunkActs(c, p, q) && p.cpu.pc == c.y.at + 32
    ensures q == Spin(p.cpu.At(c.y.at), p.seen)
  {
    hide Acts;
    hide Step;
    ActsIs(c, p, q, B(14, -10));
  }

  lemma ActDone(c: Setting, p: Spin, q: Spin)
    requires Fetched(c) && ThunkActs(c, p, q) && p.cpu.pc == c.y.at + 36
    ensures q == Spin(p.cpu.At(c.y.site + 12), p.seen)
  {
    hide Acts;
    hide Step;
    ActsIs(c, p, q, Ldr(14, PC, PC, false, 4));
  }

  // -- and each word of the loop

  function LoopLoad(c: Setting, o: Spin, v: Word): Spin {
    Spin(o.cpu.With(3, v).At(Wrap(c.y.site + 4)), o.seen + [v])
  }

  function LoopCompare(c: Setting, o: Spin): Spin {
    o.(cpu := o.cpu.Flagged(CmpFlags(o.cpu.core.r[3], 2)).At(Wrap(c.y.site + 8)))
  }

  function LoopBranch(c: Setting, o: Spin): Spin {
    o.(cpu := o.cpu.At(if o.cpu.core.f.z then Wrap(c.y.site + 12) else c.y.site))
  }

  lemma LoopActsAll(c: Setting, o: Spin)
    requires Ready(c)
    ensures o.cpu.pc == c.y.site ==> LoopActs(c, o, LoopLoad(c, o, Watched(c.loop, o.cpu)))
    ensures o.cpu.pc == c.y.site + 4 ==> LoopActs(c, o, LoopCompare(c, o))
    ensures o.cpu.pc == c.y.site + 8 ==> LoopActs(c, o, LoopBranch(c, o))
  {}

  // -- the relation is kept

  lemma SameWatched(c: Setting, p: Spin, o: Spin)
    requires Ready(c) && Related(c, In(0), p, o)
    ensures Watched(c.img, p.cpu) == Watched(c.loop, o.cpu)
  {
    assert SameAt(p.cpu.data, o.cpu.data, WatchedAddress(c.r1));
  }

  lemma SimLoad(c: Setting, p: Spin, o: Spin, v: Word)
    requires c.y.site + 12 < WORDS && c.y.at + 48 < WORDS && Related(c, In(0), p, o)
    ensures Related(c, In(1), Spin(p.cpu.With(3, v).At(c.y.at + 4), p.seen + [v]), LoopLoad(c, o, v))
  {}

  lemma SimCompare(c: Setting, p: Spin, o: Spin)
    requires Ready(c) && Related(c, In(1), p, o)
    ensures Related(c, In(2), Spin(p.cpu.Flagged(CmpFlags(p.cpu.core.r[3], 2)).At(c.y.at + 8), p.seen), LoopCompare(c, o))
  {}

  lemma SimBranch(c: Setting, p: Spin, o: Spin)
    requires Ready(c) && Related(c, In(2), p, o)
    ensures var z := p.cpu.core.f.z;
            Related(c, if z then In(9) else In(3), Spin(p.cpu.At(if z then c.y.at + 36 else c.y.at + 12), p.seen),
                    LoopBranch(c, o))
  {}

  // Only the thread's own dead words change.
  lemma SimPush(c: Setting, p: Spin, o: Spin)
    requires Ready(c) && Related(c, In(3), p, o)
    ensures var base := c.sp - 24;
            Related(c, In(4), Spin(p.cpu.With(SP, base).(data := Saved(base, p.cpu.core.r, p.cpu.data)).At(c.y.at + 16),
                                   p.seen), o)
  {
    var data := Saved(c.sp - 24, p.cpu.core.r, p.cpu.data);
    forall x | x !in Own(c.sp) ensures SameAt(data, o.cpu.data, x) {
      assert SameAt(p.cpu.data, o.cpu.data, x);
    }
  }

  lemma SimReturn(c: Setting, p: Spin, q: Spin, o: Spin) returns (o': Spin)
    requires Ready(c) && Related(c, Asleep, p, o) && Returned(p.cpu, q.cpu, Own(c.sp)) && q.seen == p.seen
    ensures Meddled(o.cpu, o'.cpu, Own(c.sp)) && o'.seen == o.seen && Related(c, In(7), q, o')
  {
    o' := Idle(c, q, o);
    Blended(o.cpu, q.cpu.data, Own(c.sp));
    forall x | x in Own(c.sp) ensures SameAt(p.cpu.data, q.cpu.data, x) {}
  }

  // Every register of the loop is back.
  lemma SimPop(c: Setting, p: Spin, q: Spin, o: Spin)
    requires Ready(c) && Related(c, In(7), p, o) && ThunkActs(c, p, q)
    ensures Related(c, In(8), q, o)
  {
    var r := o.cpu.core.r;
    var w := [r[0], r[1], r[2], r[3], r[12], r[14]];
    SavedReads(c, p.cpu, o.cpu, w);
    ActPop(c, p, q, w);
    hide Ready;
    hide ThunkActs;
    assert q.cpu.core.r == r;
  }

  lemma SavedReads(c: Setting, p: Cpu, o: Cpu, w: seq<Word>)
    requires Ready(c) && Pushed(c, p, o)
    requires w == [o.core.r[0], o.core.r[1], o.core.r[2], o.core.r[3], o.core.r[12], o.core.r[14]]
    ensures forall j :: 0 <= j < 6 ==> Read(c.img.code, p.data, c.sp - 24 + 4 * j) == w[j]
  {
    forall j | 0 <= j < 6 ensures Read(c.img.code, p.data, c.sp - 24 + 4 * j) == w[j] {
      assert c.sp - 24 + 4 * j in Own(c.sp);
    }
  }

  ghost predicate ThunkMoves(c: Setting, p: Spin, q: Spin) {
    Moves(c.img, c.others, c.y.delay, c.y.at, Own(c.sp), p, q)
  }

  ghost predicate LoopMoves(c: Setting, p: Spin, q: Spin) {
    MayMove(c.loop, c.others, c.y.delay, c.y.site, Own(c.sp), p, q)
  }

  predicate Seen2(seen: seq<Word>) { seen != [] && seen[|seen| - 1] == 2 }

  // Where the thread goes from there.
  function After(at: Place, seen: seq<Word>): Place {
    match at
    case Site => In(0)
    case Asleep => In(7)
    case Out => Out
    case In(k) =>
      if k == 2 then if Seen2(seen) then In(9) else In(3)
      else if k == 6 then Asleep else if k == 8 then In(0) else if k == 9 then Out else In(k + 1)
  }

  // The moves of the thunk that the loop does not take part in.
  lemma SimQuiet(c: Setting, at: Place, p: Spin, q: Spin, o: Spin) returns (at': Place)
    requires Ready(c) && Related(c, at, p, o) && ThunkActs(c, p, q)
    requires at !in {In(0), In(1), In(2), Asleep, Out}
    ensures Related(c, at', q, o) && at' == After(at, q.seen) && q.seen == p.seen
  {
    hide Acts;
    RelatedPlace(c, at, p, o);
    match at {
      case Site => ActSite(c, p, q); at' := In(0);
      case In(3) => ActPush(c, p, q); SimPush(c, p, o); at' := In(4);
      case In(4) => ActArgument(c, p, q); at' := In(5);
      case In(5) => ActRoutine(c, p, q); at' := In(6);
      case In(6) => ActCall(c, p, q); at' := Asleep;
      case In(7) => SimPop(c, p, q, o); at' := In(8);
      case In(8) => ActAgain(c, p, q); at' := In(0);
      case In(9) => ActDone(c, p, q); at' := Out;
    }
  }

  lemma RelatedPlace(c: Setting, at: Place, p: Spin, o: Spin)
    requires Related(c, at, p, o)
    ensures at.In? ==> 0 <= at.k < 10
    ensures at == In(2) ==> (p.cpu.core.f.z <==> Seen2(p.seen))
    ensures at == Site ==> p.seen == []
    ensures at in {In(3), In(4), In(5), In(6), In(7), In(8), In(0), Asleep} ==> !Seen2(p.seen)
    ensures at in {In(9), Out} ==> Seen2(p.seen)
  {}

  lemma RelatedPcs(c: Setting, at: Place, p: Spin, o: Spin)
    requires Related(c, at, p, o)
    ensures p.cpu.pc == ThunkPc(c.y, at) && o.cpu.pc == LoopPc(c.y, at) && p.seen == o.seen
    ensures at == In(2) ==> p.cpu.core.f == o.cpu.core.f
  {}

  lemma SimJoint(c: Setting, at: Place, p: Spin, q: Spin, o: Spin) returns (at': Place, o': Spin)
    requires Ready(c) && Related(c, at, p, o) && ThunkActs(c, p, q)
    requires at in {In(0), In(1), In(2)}
    ensures LoopActs(c, o, o') && Related(c, at', q, o')
    ensures at' == After(at, q.seen) && |q.seen| == |p.seen| + if at == In(0) then 1 else 0
  {
    LoopActsAll(c, o);
    RelatedPlace(c, at, p, o);
    RelatedPcs(c, at, p, o);
    hide Related, LoopActs, ThunkActs, Watched;
    match at {
      case In(0) => ActLoad(c, p, q); SameWatched(c, p, o); SimLoad(c, p, o, Watched(c.img, p.cpu));
                    at', o' := In(1), LoopLoad(c, o, Watched(c.loop, o.cpu));
      case In(1) => ActCompare(c, p, q); SimCompare(c, p, o); at', o' := In(2), LoopCompare(c, o);
      case In(2) => ActBranch(c, p, q); SimBranch(c, p, o);
                    at', o' := if p.cpu.core.f.z then In(9) else In(3), LoopBranch(c, o);
    }
  }

  lemma MeddledTwice(a: Cpu, b: Cpu, d: Cpu, own: set<int>)
    requires Meddled(a, b, own) && Meddled(b, d, own)
    ensures Meddled(a, d, own)
  {
    forall x | x in own ensures SameAt(a.data, d.data, x) {
      assert SameAt(a.data, b.data, x) && SameAt(b.data, d.data, x);
    }
  }

  lemma SimulatesAfter(c: Setting, at: Place, p: Spin, m: Cpu, q: Spin, o: Spin) returns (at': Place, o': Spin)
    requires Ready(c) && Related(c, at, p, o) && at != Out
    requires Meddled(p.cpu, m, Own(c.sp)) && ThunkActs(c, Spin(m, p.seen), q)
    ensures LoopMoves(c, o, o') && Related(c, at', q, o')
    ensures at' == After(at, q.seen) && |q.seen| == |p.seen| + if at == In(0) then 1 else 0
  {
    hide Related;
    hide Ready;
    hide Acts;
    hide Meddled;
    hide Own;
    var om := MeddledRelated(c, at, p, m, o);
    if at in {In(0), In(1), In(2)} {
      at', o' := SimJoint(c, at, Spin(m, p.seen), q, om);
      assert om == Spin(om.cpu, o.seen);
    } else if at == Asleep {
      SleepReturns(c, p, m, q, o);
      o' := SimReturn(c, Spin(m, p.seen), q, om);
      at' := In(7);
      MeddledTwice(o.cpu, om.cpu, o'.cpu, Own(c.sp));
    } else {
      at' := SimQuiet(c, at, Spin(m, p.seen), q, om);
      o' := om;
    }
  }

  lemma SleepReturns(c: Setting, p: Spin, m: Cpu, q: Spin, o: Spin)
    requires Related(c, Asleep, p, o) && Meddled(p.cpu, m, Own(c.sp)) && ThunkActs(c, Spin(m, p.seen), q)
    ensures Returned(m, q.cpu, Own(c.sp)) && q.seen == p.seen
  {}

  // Whatever the patched code does next, beside whatever the environment does, the original
  // loop can follow.
  lemma Simulates(c: Setting, at: Place, p: Spin, q: Spin, o: Spin) returns (at': Place, o': Spin)
    requires Ready(c) && Related(c, at, p, o) && ThunkMoves(c, p, q) && at != Out
    ensures LoopMoves(c, o, o') && Related(c, at', q, o')
    ensures at' == After(at, q.seen) && |q.seen| == |p.seen| + if at == In(0) then 1 else 0
  {
    hide Related;
    hide Ready;
    hide LoopMoves;
    var m: Cpu :| Meddled(p.cpu, m, Own(c.sp)) && ThunkActs(c, Spin(m, p.seen), q);
    at', o' := SimulatesAfter(c, at, p, m, q, o);
  }

  // A run up to the moment it first stands behind the loop, and a run of the loop.
  ghost predicate ThunkRun(c: Setting, ps: seq<Spin>) {
    |ps| > 0 && forall j :: 0 <= j < |ps| - 1 ==> ThunkMoves(c, ps[j], ps[j + 1]) && ps[j].cpu.pc != c.y.site + 12
  }

  ghost predicate LoopRun(c: Setting, os: seq<Spin>) {
    |os| > 0 && forall j :: 0 <= j < |os| - 1 ==> LoopMoves(c, os[j], os[j + 1])
  }

  lemma LoopRunGrows(c: Setting, os: seq<Spin>, o: Spin)
    requires LoopRun(c, os) && LoopMoves(c, os[|os| - 1], o)
    ensures LoopRun(c, os + [o])
  {
    var t := os + [o];
    forall j | 0 <= j < |t| - 1 ensures LoopMoves(c, t[j], t[j + 1]) {
      assert j < |os| - 1 ==> t[j + 1] == os[j + 1];
    }
  }

  lemma ThunkRunPrefix(c: Setting, ps: seq<Spin>)
    requires ThunkRun(c, ps) && |ps| > 1
    ensures ThunkRun(c, ps[..|ps| - 1]) && ThunkMoves(c, ps[|ps| - 2], ps[|ps| - 1])
    ensures ps[|ps| - 2].cpu.pc != c.y.site + 12
  {
    var n := |ps| - 1;
    var u := ps[..n];
    assert ThunkMoves(c, ps[n - 1], ps[n - 1 + 1]);
    forall j | 0 <= j < n - 1 ensures ThunkMoves(c, u[j], u[j + 1]) && u[j].cpu.pc != c.y.site + 12 {
      assert ThunkMoves(c, ps[j], ps[j + 1]);
    }
  }

  // How many moves it takes to be there after k checks.
  function Clock(at: Place, k: nat): int {
    match at
    case Site => 0
    case Asleep => 10 * k - 2
    case Out => 10 * k - 5
    case In(j) =>
      if j == 0 then 10 * k + 1 else if j == 9 then 10 * k - 6 else if j <= 6 then 10 * k - 9 + j else 10 * k - 8 + j
  }

  lemma FirstTick()
    ensures Clock(Site, 0) == 0
  {}

  lemma Tick(at: Place, k: nat, seen: seq<Word>)
    requires at != Out && (at == Site ==> k == 0) && (at.In? ==> 0 <= at.k < 10)
    ensures Clock(After(at, seen), k + if at == In(0) then 1 else 0) == Clock(at, k) + 1
  {}

  lemma RunIsSome(c: Setting, ps: seq<Spin>)
    requires ThunkRun(c, ps)
    ensures |ps| > 0
  {}

  lemma RunStarts(c: Setting, o: Spin)
    ensures LoopRun(c, [o])
  {}

  lemma NotOut(c: Setting, at: Place, p: Spin, o: Spin)
    requires Related(c, at, p, o) && p.cpu.pc != c.y.site + 12
    ensures at != Out
  {}

  lemma {:induction false} RunSimulates(c: Setting, ps: seq<Spin>, o: Spin) returns (os: seq<Spin>, at: Place)
    requires Ready(c) && ThunkRun(c, ps) && Related(c, Site, ps[0], o)
    ensures LoopRun(c, os) && |os| == |ps| && os[0] == o && Related(c, at, ps[|ps| - 1], os[|os| - 1])
    ensures |ps| - 1 == Clock(at, |ps[|ps| - 1].seen|)
  {
    hide *;
    RunIsSome(c, ps);
    if |ps| == 1 {
      RunStarts(c, o);
      RelatedPlace(c, Site, ps[0], o);
      FirstTick();
      return [o], Site;
    }
    var n := |ps| - 1;
    ThunkRunPrefix(c, ps);
    assert ps[..n][0] == ps[0] && ps[..n][n - 1] == ps[n - 1];
    os, at := RunSimulates(c, ps[..n], o);
    var o';
    NotOut(c, at, ps[n - 1], os[n - 1]);
    RelatedPlace(c, at, ps[n - 1], os[n - 1]);
    Tick(at, |ps[n - 1].seen|, ps[n].seen);
    at, o' := Simulates(c, at, ps[n - 1], ps[n], os[n - 1]);
    LoopRunGrows(c, os, o');
    os := os + [o'];
  }

  ghost predicate SameExit(c: Setting, p: Spin, o: Spin) {
    && o.cpu.pc == p.cpu.pc && o.cpu.core == p.cpu.core && o.seen == p.seen
    && Alike(p.cpu.data, o.cpu.data, Own(c.sp))
  }

  // The patched code refines the busy loop: every run of it, beside any environment, that
  // comes out behind the loop has a run of the original loop that reads the same values,
  // comes out too, and leaves the same registers and flags, and the same memory but for the
  // thread's own dead stack words.  It comes out exactly on the first 2.
  lemma Refines(c: Setting, ps: seq<Spin>)
    requires Ready(c) && ThunkRun(c, ps) && ps[0].seen == []
    requires ps[0].cpu.pc == c.y.site && ps[0].cpu.core.r[SP] == c.sp && ps[0].cpu.core.r[1] == c.r1
    ensures var p := ps[|ps| - 1];
            p.cpu.pc == c.y.site + 12 ==>
              && Checking(p.seen, p.cpu.core.r) && p.cpu.core.r[3] == 2 && p.cpu.core.f == CmpFlags(2, 2)
              && exists os :: LoopRun(c, os) && os[0] == ps[0] && SameExit(c, p, os[|os| - 1])
  {
    var os, at := RunSimulates(c, ps, ps[0]);
  }

  // Its timetable: a check every ten moves, the sleep counted as one, and three moves after the
  // first 2 was read, no sooner and no later, it is out.
  lemma Timetable(c: Setting, ps: seq<Spin>)
    requires Ready(c) && ThunkRun(c, ps) && ps[0].seen == []
    requires ps[0].cpu.pc == c.y.site && ps[0].cpu.core.r[SP] == c.sp && ps[0].cpu.core.r[1] == c.r1
    ensures var n, p := |ps| - 1, ps[|ps| - 1];
            var k := |p.seen|;
            && k == (n + 8) / 10
            && (p.cpu.pc == c.y.site + 12 <==> Seen2(p.seen) && n == 10 * k - 5)
            && (Seen2(p.seen) ==> n <= 10 * k - 5) && (forall j :: 0 <= j < k - 1 ==> p.seen[j] != 2)
  {
    var os, at := RunSimulates(c, ps, ps[0]);
    var p, o := ps[|ps| - 1], os[|os| - 1];
    RelatedPlace(c, at, p, o);
    PlaceIsOut(c, at, p, o);
    hide ThunkRun, LoopRun, Ready;
  }

  // The sleep routine is always called for 200 microseconds, and to return into the thunk.
  lemma SleepsTwoHundred(c: Setting, ps: seq<Spin>)
    requires Ready(c) && ThunkRun(c, ps) && ps[0].seen == []
    requires ps[0].cpu.pc == c.y.site && ps[0].cpu.core.r[SP] == c.sp && ps[0].cpu.core.r[1] == c.r1
    requires ps[|ps| - 1].cpu.pc == c.y.delay
    ensures var p := ps[|ps| - 1].cpu; p.core.r[0] == 200 && p.core.r[14] == c.y.at + 28 && p.core.r[13] == c.sp - 24
  {
    var os, at := RunSimulates(c, ps, ps[0]);
    RelatedPlace(c, at, ps[|ps| - 1], os[|os| - 1]);
    PlaceIsAsleep(c, at, ps[|ps| - 1], os[|os| - 1]);
  }

  lemma PlaceIsAsleep(c: Setting, at: Place, p: Spin, o: Spin)
    requires Ready(c) && Related(c, at, p, o) && p.cpu.pc == c.y.delay
    ensures at == Asleep
  {
    RelatedPlace(c, at, p, o);
    if at != Asleep && at != Out { InProgram(c, at); }
  }

  lemma PlaceIsOut(c: Setting, at: Place, p: Spin, o: Spin)
    requires Ready(c) && Related(c, at, p, o)
    ensures at == Out <==> p.cpu.pc == c.y.site + 12
  {}

  // And until then the thread can always move.
  lemma NeverStuck(c: Setting, ps: seq<Spin>) returns (q: Spin)
    requires Ready(c) && ThunkRun(c, ps) && ps[0].seen == []
    requires ps[0].cpu.pc == c.y.site && ps[0].cpu.core.r[SP] == c.sp && ps[0].cpu.core.r[1] == c.r1
    requires ps[|ps| - 1].cpu.pc != c.y.site + 12
    ensures ThunkRun(c, ps + [q])
  {
    var os, at := RunSimulates(c, ps, ps[0]);
    var p := ps[|ps| - 1];
    q := CanMove(c, at, p, os[|os| - 1]);
    var qs := ps + [q];
    hide ThunkMoves;
    forall j | 0 <= j < |qs| - 1 ensures ThunkMoves(c, qs[j], qs[j + 1]) && qs[j].cpu.pc != c.y.site + 12 {
      assert j < |ps| - 1 ==> ThunkMoves(c, ps[j], ps[j + 1]);
    }
  }

  lemma CanMove(c: Setting, at: Place, p: Spin, o: Spin) returns (q: Spin)
    requires Ready(c) && Related(c, at, p, o) && p.cpu.pc != c.y.site + 12
    ensures ThunkMoves(c, p, q)
  {
    RelatedPlace(c, at, p, o);
    if at == Asleep {
      q := Spin(p.cpu.At(p.cpu.core.r[LR]), p.seen);
    } else {
      InProgram(c, at);
      q := Spin(Step(c.img, c.others, p.cpu), if p.cpu.pc == c.y.at then p.seen + [Watched(c.img, p.cpu)] else p.seen);
    }
    hide Step;
    assert Meddled(p.cpu, p.cpu, Own(c.sp)) && ThunkActs(c, Spin(p.cpu, p.seen), q);
  }

  lemma InProgram(c: Setting, at: Place)
    requires Fetched(c) && at != Asleep && at != Out && (at.In? ==> 0 <= at.k < 10)
    ensures ThunkPc(c.y, at) in c.img.prog && ThunkPc(c.y, at) != c.y.delay
  {}

  // The code as patch_spin leaves it, and the code as it was.
  ghost predicate Installed(y: Layout, code: Code, original: Code) {
    && Holds(code, y.at, Thunk(y)) && y.at + 48 < WORDS
    && y.site in code && code[y.site] == EncodeBranch(y.site, y.at) && InRange(y.site, y.at)
    && Holds(original, y.site, Loop()) && y.site + 12 < WORDS
    && (y.site + 12 < y.at || y.at + 48 <= y.site)
  }

  lemma LoopLists(y: Layout, original: Code)
    requires Holds(original, y.site, Loop()) && y.site + 12 < WORDS
    ensures LoopListing(Load(original), y)
  {
    LoopDecodes();
    LoadedWord(original, y.site, Loop(), 0);
    LoadedWord(original, y.site, Loop(), 1);
    LoadedWord(original, y.site, Loop(), 2);
  }

  lemma ThunkListsLow(y: Layout, code: Code)
    requires Holds(code, y.at, Thunk(y))
    ensures var a, img := y.at, Load(code);
            && a in img.prog && img.prog[a] == Ldr(14, 1, 3, true, 0x24)
            && a + 4 in img.prog && img.prog[a + 4] == Cmp(14, 3, 2)
            && a + 8 in img.prog && img.prog[a + 8] == B(0, 5)
            && a + 12 in img.prog && img.prog[a + 12] == Push(14, SAVED)
            && a + 16 in img.prog && img.prog[a + 16] == Mov(14, 0, 200)
            && a + 20 in img.prog && img.prog[a + 20] == Ldr(14, PC, 12, true, 16)
  {
    LoopDecodes();
    ThunkDecodes();
    LoadedWord(code, y.at, Thunk(y), 0);
    LoadedWord(code, y.at, Thunk(y), 1);
    LoadedWord(code, y.at, Thunk(y), 2);
    LoadedWord(code, y.at, Thunk(y), 3);
    LoadedWord(code, y.at, Thunk(y), 4);
    LoadedWord(code, y.at, Thunk(y), 5);
  }

  lemma ThunkListsHigh(y: Layout, code: Code)
    requires Holds(code, y.at, Thunk(y))
    ensures var a, img := y.at, Load(code);
            && a + 24 in img.prog && img.prog[a + 24] == Blx(14, 12)
            && a + 28 in img.prog && img.prog[a + 28] == Pop(14, SAVED)
            && a + 32 in img.prog && img.prog[a + 32] == B(14, -10)
            && a + 36 in img.prog && img.prog[a + 36] == Ldr(14, PC, PC, false, 4)
            && a + 40 in img.code && img.code[a + 40] == Wrap(y.site + 12)
            && a + 44 in img.code && img.code[a + 44] == y.delay
  {
    ThunkDecodesRest();
    LoadedWord(code, y.at, Thunk(y), 6);
    LoadedWord(code, y.at, Thunk(y), 7);
    LoadedWord(code, y.at, Thunk(y), 8);
    LoadedWord(code, y.at, Thunk(y), 9);
    LoadedWord(code, y.at, Thunk(y), 10);
    LoadedWord(code, y.at, Thunk(y), 11);
  }

  lemma ThunkLists(y: Layout, code: Code, original: Code)
    requires Installed(y, code, original)
    ensures ThunkListing(Load(code), y)
  {
    ThunkListsLow(y, code);
    ThunkListsHigh(y, code);
    BranchDecodes(y.site, y.at);
  }

  // With the stack and the watched word outside the text and apart from each other, what was
  // proved about decoded images holds of the patched code itself.
  lemma ReadyWhenInstalled(y: Layout, sp: Word, r1: Word, code: Code, original: Code, others: Others)
    requires Installed(y, code, original) && sp >= 24
    requires y.delay !in code && y.delay !in original && y.delay != y.site + 12
    requires forall x :: x in Own(sp) ==> x !in code
    requires var a := WatchedAddress(r1); a !in Own(sp) && a !in code && a !in original
    ensures Ready(Setting(y, sp, r1, Load(code), Load(original), others))
  {
    LoopLists(y, original);
    ThunkLists(y, code, original);
  }
}
