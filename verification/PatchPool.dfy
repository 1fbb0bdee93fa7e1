// The thunk pool of loader/main.c: the page-rounding slack behind the game's text, handed out
// front to back by make_trampoline, patch_spin and patch_null_guard.

module PatchPool {
  import opened Words
  import opened ArmMachine
  import Trampoline
  import SpinThunk
  import NullGuard

  const TEXT_BASE: int := 0x9400_0000
  const TEXT_SIZE: int := 0x166_C634        // the game's text
  const POOL: int := TEXT_BASE + 0x166_C640
  const POOL_SIZE: int := 0x9C0             // up to the end of the text's memory block

  // ---- writing words

  function WriteWords(code: Code, at: int, words: seq<Word>): Code
    decreases |words|
  {
    if words == [] then code else WriteWords(code[at := words[0]], at + 4, words[1..])
  }

  lemma {:induction false} WriteWordsAt(code: Code, at: int, words: seq<Word>)
    ensures Holds(WriteWords(code, at, words), at, words)
    ensures forall a :: a < at || a >= at + 4 * |words| ==>
              (a in WriteWords(code, at, words) <==> a in code)
              && (a in code ==> WriteWords(code, at, words)[a] == code[a])
    ensures code.Keys <= WriteWords(code, at, words).Keys
    decreases |words|
  {
    if words != [] {
      var next := code[at := words[0]];
      var t := WriteWords(next, at + 4, words[1..]);
      WriteWordsAt(next, at + 4, words[1..]);
      forall k | 0 <= k < |words| ensures at + 4 * k in t && t[at + 4 * k] == words[k] {
        if k > 0 { assert words[1..][k - 1] == words[k] && at + 4 * k == at + 4 + 4 * (k - 1); }
      }
    }
  }

  // ---- the patches that are in place

  datatype Patch =
    | Hooked(target: Word, at: Word, before: Code)
    | Slept(y: SpinThunk.Layout, before: Code)
    | Guarded(site: Word, at: Word, ret: Word)

  function Start(p: Patch): int {
    match p
    case Hooked(_, at, _) => at
    case Slept(y, _) => y.at
    case Guarded(_, at, _) => at
  }

  function Site(p: Patch): int {
    match p
    case Hooked(target, _, _) => target
    case Slept(y, _) => y.site
    case Guarded(site, _, _) => site
  }

  function SiteSize(p: Patch): int { if p.Hooked? then 8 else 4 }

  function ThunkWords(p: Patch): seq<Word>
    requires p.Hooked? ==> p.target in p.before && p.target + 4 in p.before
  {
    match p
    case Hooked(target, _, before) => Trampoline.Thunk(before, target)
    case Slept(y, _) => SpinThunk.Thunk(y)
    case Guarded(site, _, ret) => NullGuard.Thunk(ret, Wrap(site + 4))
  }

  ghost predicate WellFormed(p: Patch) {
    && TEXT_BASE <= Site(p) && Site(p) + SiteSize(p) <= TEXT_BASE + TEXT_SIZE && Site(p) % 4 == 0
    && match p
       case Hooked(target, _, before) => target in before && target + 4 in before
       case Slept(y, before) => Holds(before, y.site, SpinThunk.Loop()) && y.site + 12 <= TEXT_BASE + TEXT_SIZE
       case Guarded(site, _, ret) => ret / 0x1000_0000 == 9
  }

  // The bytes of the pool that a patch takes.
  function Size(p: Patch): int
    requires WellFormed(p)
  {
    4 * |ThunkWords(p)|
  }

  // The thunk is there, and so is the branch to it (a hook's site is written by hook_addr).
  ghost predicate Intact(code: Code, p: Patch)
    requires WellFormed(p)
  {
    && Holds(code, Start(p), ThunkWords(p))
    && (!p.Hooked? ==> Site(p) in code && code[Site(p)] == EncodeBranch(Site(p), Start(p)))
  }

  // Every branch from the text into the pool is in range.
  lemma PoolInRange(site: Word, at: Word)
    requires TEXT_BASE <= site < TEXT_BASE + TEXT_SIZE && site % 4 == 0
    requires POOL <= at < POOL + POOL_SIZE + 8 && at % 4 == 0
    ensures InRange(site, at)
  {}

  // What the pool and the text look like after any number of patches.
  ghost predicate PoolOk(code: Code, used: int, patches: seq<Patch>) {
    && (forall a :: TEXT_BASE <= a < TEXT_BASE + TEXT_SIZE && a % 4 == 0 ==> a in code)
    && 0 <= used <= POOL_SIZE + 8 && used % 8 == 0
    && (forall i :: 0 <= i < |patches| ==> Placed(code, used, patches[i]))
    && (forall i, j :: 0 <= i < j < |patches| ==> Apart(patches[i], patches[j]))
  }

  ghost predicate Placed(code: Code, used: int, p: Patch) {
    && WellFormed(p) && Intact(code, p)
    && POOL <= Start(p) && Start(p) % 4 == 0 && Start(p) + Size(p) <= POOL + used
  }

  // Thunks do not overlap.
  ghost predicate Apart(p: Patch, q: Patch) {
    WellFormed(p) && Start(p) + Size(p) <= Start(q)
  }

  ghost predicate AllBefore(patches: seq<Patch>, at: int) {
    forall i :: 0 <= i < |patches| ==> WellFormed(patches[i]) && Start(patches[i]) + Size(patches[i]) <= at
  }

  lemma StillPlaced(code: Code, code': Code, used: int, used': int, p: Patch)
    requires Placed(code, used, p) && used <= used'
    requires forall a :: POOL <= a < POOL + used && a in code ==> a in code' && code'[a] == code[a]
    requires !p.Hooked? ==> Site(p) in code' && code'[Site(p)] == code[Site(p)]
    ensures Placed(code', used', p)
  {
    var at, words := Start(p), ThunkWords(p);
    forall k | 0 <= k < |words| ensures at + 4 * k in code' && code'[at + 4 * k] == words[k] {
      assert at + 4 * k in code && POOL <= at + 4 * k < POOL + used;
    }
  }

  // Nothing below the pool differs.
  ghost predicate SameText(code: Code, code': Code) {
    forall a :: a < POOL ==> (a in code' <==> a in code) && (a in code ==> code'[a] == code[a])
  }

  // Writing the next thunk behind the used part of the pool disturbs nothing.
  lemma ThunkWritten(code: Code, used: int, patches: seq<Patch>, words: seq<Word>) returns (code': Code)
    requires PoolOk(code, used, patches) && used + 4 * |words| <= POOL_SIZE + 8 && |words| % 2 == 0
    ensures code' == WriteWords(code, POOL + used, words) && Holds(code', POOL + used, words)
    ensures PoolOk(code', used + 4 * |words|, patches)
    ensures SameText(code, code')
  {
    code' := WriteWords(code, POOL + used, words);
    WriteWordsAt(code, POOL + used, words);
    forall i | 0 <= i < |patches| ensures Placed(code', used + 4 * |words|, patches[i]) {
      StillPlaced(code, code', used, used + 4 * |words|, patches[i]);
    }
  }

  // Writing a word of the text that is no patch's site disturbs nothing.
  lemma SiteWritten(code: Code, used: int, patches: seq<Patch>, site: int, w: Word)
    requires PoolOk(code, used, patches) && site < POOL
    requires forall i :: 0 <= i < |patches| && !patches[i].Hooked? ==> Site(patches[i]) != site
    ensures PoolOk(code[site := w], used, patches)
  {
    forall i | 0 <= i < |patches| ensures Placed(code[site := w], used, patches[i]) {
      assert Placed(code, used, patches[i]);
      StillPlaced(code, code[site := w], used, used, patches[i]);
    }
  }

  lemma PatchRecorded(code: Code, used: int, patches: seq<Patch>, p: Patch)
    requires PoolOk(code, used, patches) && Placed(code, used, p)
    requires AllBefore(patches, Start(p))
    ensures PoolOk(code, used, patches + [p])
  {
    var all := patches + [p];
    forall i | 0 <= i < |all| ensures Placed(code, used, all[i]) {
      assert i < |patches| ==> all[i] == patches[i];
    }
    forall i, j | 0 <= i < j < |all| ensures Apart(all[i], all[j]) {
      assert all[i] == patches[i] && Placed(code, used, all[i]);
      assert j < |patches| ==> Apart(patches[i], patches[j]);
    }
  }

  lemma RedirectedPlaced(mid: Code, used: int, p: Patch)
    requires WellFormed(p) && !p.Hooked? && Holds(mid, Start(p), ThunkWords(p))
    requires POOL <= Start(p) && Start(p) % 4 == 0 && Start(p) + Size(p) <= POOL + used
    ensures Placed(mid[Site(p) := EncodeBranch(Site(p), Start(p))], used, p)
  {}

  lemma GuardedIs(off: int, retOff: int, at: Word)
    requires 0 <= off && off + 4 <= TEXT_SIZE && off % 4 == 0 && 0 <= retOff < TEXT_SIZE
    ensures var p := Guarded(TEXT_BASE + off, at, TEXT_BASE + retOff);
            && WellFormed(p) && Size(p) == 24 && Start(p) == at && Site(p) == TEXT_BASE + off
            && ThunkWords(p) == NullGuard.Thunk(TEXT_BASE + retOff, Wrap(TEXT_BASE + off + 4))
  {}

  lemma LoadIsLdr()
    ensures Decode(NullGuard.LOAD).Ldr? && Decode(0xE591_3024).Ldr?
  {}

  // A word that one of the patchers expects at a site is not a branch, so the site is new.
  lemma SiteIsNew(code: Code, used: int, patches: seq<Patch>, site: int)
    requires PoolOk(code, used, patches) && site in code && Decode(code[site]).Ldr?
    ensures forall i :: 0 <= i < |patches| && !patches[i].Hooked? ==> Site(patches[i]) != site
  {
    forall i | 0 <= i < |patches| && !patches[i].Hooked? ensures Site(patches[i]) != site {
      assert Placed(code, used, patches[i]);
      BranchDecodes(Site(patches[i]), Start(patches[i]));
    }
  }

  lemma TrampolinePlan(code: Code, used: int, patches: seq<Patch>, target: Word)
    requires PoolOk(code, used, patches) && used + 16 <= POOL_SIZE
    requires TEXT_BASE <= target && target + 8 <= TEXT_BASE + TEXT_SIZE && target % 4 == 0
    ensures target in code && target + 4 in code && POOL <= POOL + used < WORDS && (POOL + used) % 4 == 0
    ensures var p, words := Hooked(target, POOL + used, code), Trampoline.Thunk(code, target);
            && WellFormed(p) && ThunkWords(p) == words && Size(p) == 4 * |words| && |words| % 2 == 0 && Start(p) == POOL + used
            && used + 4 * |words| <= POOL_SIZE + 8
            && (used + 4 * |words| > POOL_SIZE <==> used == 0x9B0 && Trampoline.AnyLiteral(code, target))
  {}

  lemma HookedPlaced(code: Code, used: int, p: Patch)
    requires WellFormed(p) && p.Hooked? && Holds(code, Start(p), ThunkWords(p))
    requires POOL <= Start(p) && Start(p) % 4 == 0 && Start(p) + Size(p) <= POOL + used
    ensures Placed(code, used, p)
  {}

  // ---- the functions that are hooked, with what they were hooked to

  type Hooks = map<int, Word>

  predicate HookHolds(code: Code, t: int, dst: Word) {
    && TEXT_BASE <= t && t + 8 <= TEXT_BASE + TEXT_SIZE
    && t in code && code[t] == 0xE51F_F004 && t + 4 in code && code[t + 4] == dst
  }

  ghost predicate HooksOk(code: Code, hooks: Hooks) { forall t :: t in hooks ==> HookHolds(code, t, hooks[t]) }

  // The hooks that have no word at a.
  function Besides(hooks: Hooks, a: int): Hooks { map t | t in hooks && t != a && t + 4 != a :: hooks[t] }

  lemma HooksKept(code: Code, code': Code, hooks: Hooks)
    requires HooksOk(code, hooks) && SameText(code, code')
    ensures HooksOk(code', hooks)
  {
    forall t | t in hooks ensures HookHolds(code', t, hooks[t]) { assert HookHolds(code, t, hooks[t]); }
  }

  lemma HooksBesides(code: Code, hooks: Hooks, a: int, w: Word)
    requires HooksOk(code, hooks)
    ensures HooksOk(code[a := w], Besides(hooks, a))
  {
    forall t | t in Besides(hooks, a) ensures HookHolds(code[a := w], t, hooks[t]) { assert HookHolds(code, t, hooks[t]); }
  }

  lemma HookAdded(code: Code, hooks: Hooks, t: int, dst: Word)
    requires HooksOk(code, hooks) && HookHolds(code, t, dst)
    ensures HooksOk(code, hooks[t := dst])
  {
    var h := hooks[t := dst];
    forall u | u in h ensures HookHolds(code, u, h[u]) {
      if u != t { assert HookHolds(code, u, hooks[u]); }
    }
  }

  class Patcher {
    var code: Code
    var used: int                    // tramp_used
    ghost var patches: seq<Patch>    // in the order they were made
    ghost var hooks: Hooks           // target and destination of each hook

    ghost predicate Valid()
      reads this
    {
      PoolOk(code, used, patches) && HooksOk(code, hooks)
    }

    constructor (text: Code)
      requires forall a :: TEXT_BASE <= a < TEXT_BASE + TEXT_SIZE && a % 4 == 0 ==> a in text
      ensures Valid() && code == text && used == 0 && patches == [] && hooks == map[]
    {
      code, used, patches, hooks := text, 0, [], map[];
    }

    // The tail shared by the three: copy the thunk and move on.
    method Emit(words: seq<Word>) returns (at: int)
      requires Valid() && used + 4 * |words| <= POOL_SIZE + 8 && |words| % 2 == 0
      modifies this`code, this`used
      ensures Valid() && at == POOL + old(used) && used == old(used) + 4 * |words|
      ensures Holds(code, at, words) && AllBefore(patches, at)
      ensures SameText(old(code), code)
    {
      at := POOL + used;
      assert AllBefore(patches, at) by {
        assert forall i :: 0 <= i < |patches| ==> Placed(code, used, patches[i]);
      }
      ghost var t := ThunkWritten(code, used, patches, words);
      HooksKept(code, t, hooks);
      code := WriteWords(code, at, words);
      used := used + 4 * |words|;
    }

    // The pool is full when 16 more bytes would not fit, although a thunk with literals takes
    // 24: the last one can reach 8 bytes past the text's memory block, and exactly then.
    method MakeTrampoline(target: Word) returns (at: int)
      requires Valid() && TEXT_BASE <= target && target + 8 <= TEXT_BASE + TEXT_SIZE && target % 4 == 0
      modifies this`code, this`used, this`patches
      ensures Valid()
      ensures at == 0 <==> old(used) + 16 > 0x9C0
      ensures at == 0 ==> code == old(code) && used == old(used) && patches == old(patches)
      ensures at != 0 ==> at == 0x9566_C640 + old(used) && patches == old(patches) + [Hooked(target, at, old(code))]
                          && used == old(used) + Size(Hooked(target, at, old(code)))
      ensures at != 0 ==> (used > 0x9C0 <==> old(used) == 0x9B0 && Trampoline.AnyLiteral(old(code), target))
      ensures at != 0 ==> used == old(used) + if Trampoline.AnyLiteral(old(code), target) then 24 else 16
      ensures SameText(old(code), code)
    {
      if used + 16 > POOL_SIZE { return 0; }
      ghost var p := Hooked(target, POOL + used, code);
      TrampolinePlan(code, used, patches, target);
      hide Trampoline.Thunk, Trampoline.AnyLiteral, WellFormed, ThunkWords, Size, Holds, PoolOk, HooksOk;
      at := Emit(Trampoline.Thunk(code, target));
      HookedPlaced(code, used, p);
      PatchRecorded(code, used, patches, p);
      patches := patches + [p];
    }

    // The text word at site now branches to the thunk that was just emitted.
    method Redirect(site: Word, at: Word)
      requires Valid() && site in code && site < POOL && Decode(code[site]).Ldr?
      modifies this`code, this`hooks
      ensures Valid() && code == old(code)[site := EncodeBranch(site, at)] && hooks == Besides(old(hooks), site)
    {
      SiteIsNew(code, used, patches, site);
      SiteWritten(code, used, patches, site, EncodeBranch(site, at));
      HooksBesides(code, hooks, site, EncodeBranch(site, at));
      code := code[site := EncodeBranch(site, at)];
      hooks := Besides(hooks, site);
    }

    // The branch to a thunk that is in place, and the record of the patch.
    method Install(ghost p: Patch, site: Word, at: Word)
      requires Valid() && WellFormed(p) && !p.Hooked? && site == Site(p) && at == Start(p)
      requires Holds(code, at, ThunkWords(p)) && POOL <= at && at % 4 == 0 && at + Size(p) <= POOL + used
      requires AllBefore(patches, at) && Decode(code[site]).Ldr?
      modifies this`code, this`patches, this`hooks
      ensures Valid() && patches == old(patches) + [p] && code == old(code)[site := EncodeBranch(site, at)]
      ensures hooks == Besides(old(hooks), site)
    {
      RedirectedPlaced(code, used, p);
      Redirect(site, at);
      PatchRecorded(code, used, patches, p);
      patches := patches + [p];
    }

    lemma PlaceOf(words: seq<Word>, p: Patch)
      requires Valid() && WellFormed(p) && ThunkWords(p) == words
      ensures Site(p) < POOL && Site(p) in code && Size(p) == 4 * |words|
      ensures POOL <= POOL + used < WORDS && (POOL + used) % 4 == 0
      ensures used + 4 * |words| <= POOL_SIZE ==> used + 4 * |words| <= POOL_SIZE + 8
    {
      SitePlace(code, used, patches, p);
    }

    // A thunk, the branch to it, and the record of the patch.
    method Patched(words: seq<Word>, site: Word, ghost p: Patch)
      requires Valid() && used + 4 * |words| <= POOL_SIZE && |words| % 2 == 0
      requires WellFormed(p) && !p.Hooked? && Site(p) == site && Start(p) == POOL + used && ThunkWords(p) == words
      requires Decode(code[site]).Ldr?
      modifies this
      ensures Valid() && used == old(used) + 4 * |words| && patches == old(patches) + [p]
      ensures OnlySiteChanged(old(code), code, site) && hooks == Besides(old(hooks), site)
    {
      ghost var before := code;
      hide *;
      PlaceOf(words, p);
      var at := Emit(words);
      SameWord(before, code, site);
      OnlySite(before, code, site, EncodeBranch(site, at));
      Install(p, site, at);
    }

    method PatchSpin(off: int, delay: Word) returns (ok: bool)
      requires Valid() && 0 <= off && off + 12 <= TEXT_SIZE && off % 4 == 0
      modifies this
      ensures Valid()
      ensures var site, before := 0x9400_0000 + off, old(code);
              ok <==>
                && site in before && site + 4 in before && site + 8 in before && before[site] == 0xE591_3024
                && before[site + 4] == 0xE353_0002 && before[site + 8] == 0x1AFF_FFFC && old(used) + 48 <= 0x9C0
      ensures !ok ==> code == old(code) && used == old(used) && patches == old(patches) && hooks == old(hooks)
      ensures ok ==> var y := SpinThunk.Layout(0x9400_0000 + off, 0x9566_C640 + old(used), delay);
                     && used == old(used) + 48 && patches == old(patches) + [Slept(y, old(code))]
                     && OnlySiteChanged(old(code), code, y.site) && hooks == Besides(old(hooks), y.site)
    {
      var site: Word := TEXT_BASE + off;
      if !IsLoop(code, site) { return false; }
      if used + 48 > POOL_SIZE { return false; }
      var y := SpinThunk.Layout(site, POOL + used, delay);
      LoadIsLdr();
      LoopHeld(code, site);
      assert WellFormed(Slept(y, code));
      Patched(SpinThunk.Thunk(y), site, Slept(y, code));
      return true;
    }

    method PatchNullGuard(off: int, retOff: int) returns (ok: bool)
      requires Valid() && 0 <= off && off + 4 <= TEXT_SIZE && off % 4 == 0 && 0 <= retOff < TEXT_SIZE
      modifies this
      ensures Valid()
      ensures 0x9400_0000 + off in old(code)
      ensures ok == (old(code)[0x9400_0000 + off] == 0xE590_3000 && old(used) + 32 <= 0x9C0)
      ensures !ok ==> code == old(code) && used == old(used) && patches == old(patches) && hooks == old(hooks)
      ensures ok ==> && used == old(used) + 24
                     && patches == old(patches) + [Guarded(0x9400_0000 + off, 0x9566_C640 + old(used), 0x9400_0000 + retOff)]
                     && OnlySiteChanged(old(code), code, 0x9400_0000 + off) && hooks == Besides(old(hooks), 0x9400_0000 + off)
    {
      var site: Word, ret: Word := TEXT_BASE + off, TEXT_BASE + retOff;
      if code[site] != NullGuard.LOAD { return false; }
      if used + 32 > POOL_SIZE { return false; }
      LoadIsLdr();
      GuardedIs(off, retOff, POOL + used);
      Patched(NullGuard.Thunk(ret, Wrap(site + 4)), site, Guarded(site, POOL + used, ret));
      return true;
    }

    // hook_addr on an ARM function: ldr pc,[pc,#-4]; dst
    method HookArm(target: Word, dst: Word)
      requires Valid() && TEXT_BASE <= target && target + 8 <= TEXT_BASE + TEXT_SIZE && target % 4 == 0
      requires forall i :: 0 <= i < |patches| && !patches[i].Hooked? ==> Site(patches[i]) != target && Site(patches[i]) != target + 4
      modifies this`code, this`hooks
      ensures Valid() && code == old(code)[target := 0xE51F_F004][target + 4 := dst]
      ensures hooks == Besides(Besides(old(hooks), target), target + 4)[target := dst]
    {
      SiteWritten(code, used, patches, target, 0xE51F_F004);
      SiteWritten(code[target := 0xE51F_F004], used, patches, target + 4, dst);
      HooksBesides(code, hooks, target, 0xE51F_F004);
      HooksBesides(code[target := 0xE51F_F004], Besides(hooks, target), target + 4, dst);
      code := code[target := 0xE51F_F004][target + 4 := dst];
      hooks := Besides(Besides(hooks, target), target + 4);
      HookAdded(code, hooks, target, dst);
      hooks := hooks[target := dst];
    }
  }

  predicate IsLoop(code: Code, site: int) {
    && site in code && site + 4 in code && site + 8 in code
    && code[site] == 0xE591_3024 && code[site + 4] == 0xE353_0002 && code[site + 8] == 0x1AFF_FFFC
  }

  lemma LoopHeld(code: Code, site: int)
    requires IsLoop(code, site)
    ensures Holds(code, site, SpinThunk.Loop())
  {}

  lemma SitePlace(code: Code, used: int, patches: seq<Patch>, p: Patch)
    requires PoolOk(code, used, patches) && WellFormed(p)
    ensures Site(p) < POOL && Site(p) in code
  {}

  lemma OnlySite(code: Code, mid: Code, site: int, w: Word)
    requires SameText(code, mid)
    ensures OnlySiteChanged(code, mid[site := w], site)
  {}

  lemma SameWord(code: Code, code': Code, a: int)
    requires SameText(code, code') && a < POOL && a in code
    ensures a in code' && code'[a] == code[a]
  {}

  // Of the text, only the site differs.
  ghost predicate OnlySiteChanged(code: Code, code': Code, site: int) {
    forall a :: a < POOL && a != site ==> (a in code' <==> a in code) && (a in code ==> code'[a] == code[a])
  }

  // However many patches were made since, each one still does what it was made for: the
  // premises of SpinThunk, NullGuard and Trampoline hold in the text as it is now.
  lemma PatchesStayInstalled(code: Code, used: int, patches: seq<Patch>, i: int)
    requires PoolOk(code, used, patches) && 0 <= i < |patches|
    ensures match patches[i]
            case Hooked(target, at, before) =>
              target in before && target + 4 in before && at + 24 < WORDS && Holds(code, at, Trampoline.Thunk(before, target))
            case Slept(y, before) => SpinThunk.Installed(y, code, before)
            case Guarded(site, at, ret) => NullGuard.Installed(code, site, at, ret)
  {
    var p := patches[i];
    assert Placed(code, used, p);
    PoolInRange(Site(p), Start(p));
  }

  // A hooked function enters its hook in one step, whatever was patched or hooked since, short
  // of one of its own two words.
  lemma HookedFunctionEnters(code: Code, hooks: Hooks, others: Others, s: Cpu)
    requires HooksOk(code, hooks) && s.pc in hooks
    ensures Run(Load(code), others, s, 1) == s.At(hooks[s.pc])
  {
    assert HookHolds(code, s.pc, hooks[s.pc]);
    Trampoline.LoadedJump(code, s.pc);
    Trampoline.RunJump(Load(code), others, s, hooks[s.pc]);
  }

  // However many patches were made since, the trampoline of a hook has the effect of the two
  // instructions that were there when it was made.
  lemma HookedPreserves(code: Code, used: int, patches: seq<Patch>, i: int, others: Others, s: Cpu)
    requires PoolOk(code, used, patches) && 0 <= i < |patches| && patches[i].Hooked? && s.pc == patches[i].target
    requires var before, at := patches[i].before, patches[i].at;
             && s.pc in before && s.pc + 4 in before && s.pc + 8 < WORDS && at + 4 < WORDS
             && Trampoline.BothMovable(before, code, others, s, at)
    ensures Run(Load(code), others, s.At(patches[i].at), 3) == Run(Load(patches[i].before), others, s, 2)
  {
    PatchesStayInstalled(code, used, patches, i);
    Trampoline.Preserves(patches[i].before, code, others, s, patches[i].at);
  }

  // Likewise the guarded load goes to ret exactly for NULL.
  lemma GuardedBehaves(code: Code, used: int, patches: seq<Patch>, i: int, others: Others, s: Cpu)
    requires PoolOk(code, used, patches) && 0 <= i < |patches| && patches[i].Guarded? && s.pc == patches[i].site
    ensures s.core.r[0] == 0 ==> Run(Load(code), others, s, 3) == s.Flagged(CmpFlags(0, 0)).At(patches[i].ret)
    ensures s.core.r[0] != 0 ==>
              Run(Load(code), others, s, 6)
              == s.Flagged(CmpFlags(s.core.r[0], 0)).With(3, Read(code, s.data, s.core.r[0])).At(Wrap(s.pc + 4))
  {
    PatchesStayInstalled(code, used, patches, i);
    NullGuard.Behaviour(code, others, s, patches[i].at, patches[i].ret);
  }

  // Likewise the sleeping loop refines the busy one.
  lemma SleptRefines(code: Code, used: int, patches: seq<Patch>, i: int, others: Others, sp: Word, r1: Word, ps: seq<SpinThunk.Spin>)
    requires PoolOk(code, used, patches) && 0 <= i < |patches| && patches[i].Slept?
    requires var y, before := patches[i].y, patches[i].before;
             && y.delay !in code && y.delay !in before && y.delay != y.site + 12 && sp >= 24
             && (forall x :: x in SpinThunk.Own(sp) ==> x !in code)
             && SpinThunk.WatchedAddress(r1) !in SpinThunk.Own(sp)
             && SpinThunk.WatchedAddress(r1) !in code && SpinThunk.WatchedAddress(r1) !in before
    requires var c := SpinThunk.Setting(patches[i].y, sp, r1, Load(code), Load(patches[i].before), others);
             && SpinThunk.ThunkRun(c, ps) && ps[0].seen == []
             && ps[0].cpu.pc == c.y.site && ps[0].cpu.core.r[SP] == sp && ps[0].cpu.core.r[1] == r1
             && ps[|ps| - 1].cpu.pc == c.y.site + 12
    ensures var c := SpinThunk.Setting(patches[i].y, sp, r1, Load(code), Load(patches[i].before), others);
            var p := ps[|ps| - 1];
            && SpinThunk.Checking(p.seen, p.cpu.core.r) && p.cpu.core.r[3] == 2
            && exists os :: SpinThunk.LoopRun(c, os) && os[0] == ps[0] && SpinThunk.SameExit(c, p, os[|os| - 1])
  {
    var y, before := patches[i].y, patches[i].before;
    PatchesStayInstalled(code, used, patches, i);
    SpinThunk.ReadyWhenInstalled(y, sp, r1, code, before, others);
    SpinThunk.Refines(SpinThunk.Setting(y, sp, r1, Load(code), Load(before), others), ps);
  }
}
