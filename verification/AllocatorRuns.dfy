// Whole runs of a client of the allocator facade of loader/default_dynlib.c: which calls go
// wrong, and what the client finds in its blocks when none does.

module AllocatorRuns {
  import opened AllocatorSpec
  import opened EmergencySet
  import opened HeapOwners
  import opened Words

  datatype Call =
    | New(n: Word)
    | Zeroed(a: Word, b: Word)
    | Aligned(al: Word, n: Word)
    | Resize(q: Word, n: Word)
    | Release(p: Word)
    | Write(q: Word, data: Bytes)

  // What a client knows of a block: the size it asked for, and the bytes it has to find there.
  datatype Block = Block(n: nat, known: Bytes)

  type Held = map<int, Block>

  // What the client knows is true. Blocks of the big table were asked for as such.
  ghost predicate HeldIn(held: Held, own: Owners) {
    forall p :: p in held ==>
      && p in own.live && |held[p].known| <= held[p].n <= |own.live[p]| && held[p].known <= own.live[p]
      && (p in own.big ==> held[p].n >= 0x60_0000)
  }

  // ---- one call, and what the client knows after the answer p

  predicate Fits(held: Held, q: int, data: Bytes) { q in held && |data| <= held[q].n }

  ghost function Step(s: State, held: Held, c: Call): Reply
    requires s.own.Ok() && HeldIn(held, s.own)
  {
    match c
    case New(n) => Malloc(s, n)
    case Zeroed(a, b) => Calloc(s, Product(a, b))
    case Aligned(al, n) => Memalign(s, al, n)
    case Resize(q, n) => Realloc(s, q, n)
    case Release(p) => Free(s, p)
    case Write(q, data) =>
      if Fits(held, q, data) then Reply(s.(own := s.own.Write(q, data)), 0, NOBODY, false) else Reply(s, 0, NOBODY, true)
  }

  function Overwritten(known: Bytes, data: Bytes): Bytes {
    data + if |data| <= |known| then known[|data|..] else []
  }

  function Kept(held: Held, c: Call, p: int): Held {
    match c
    case New(n) => if p == 0 then held else held[p := Block(n, [])]
    case Zeroed(a, b) => if p == 0 then held else held[p := Block(Product(a, b), Zeros(Product(a, b)))]
    case Aligned(_, n) => if p == 0 then held else held[p := Block(n, [])]
    case Resize(q, n) =>
      if p != 0 then (held - {q})[p := Block(n, if q in held then Prefix(held[q].known, n) else [])]
      else if n == 0 then held - {q} else held
    case Release(q) => held - {q}
    case Write(q, data) =>
      if Fits(held, q, data) then held[q := held[q].(known := Overwritten(held[q].known, data))] else held
  }

  // ---- calls that go wrong

  // The call gets a block that is too short, or its pointer is handed to the wrong allocator,
  // or it writes outside its blocks.
  ghost predicate Wrong(s: State, held: Held, c: Call, r: Reply) {
    match c
    case New(n) => Short(r.p, r.story, n)
    case Zeroed(a, b) => Short(r.p, r.story, Product(a, b))
    case Aligned(_, n) => Short(r.p, r.story, n)
    case Resize(q, n) => (q != 0 && (q in s.own.big || q !in s.own.live)) || Short(r.p, r.story, n)
    case Release(p) => p != 0 && p !in s.own.live
    case Write(q, data) => !Fits(held, q, data)
  }

  lemma FaultIsExact(s: State, held: Held, c: Call)
    requires s.own.Ok() && HeldIn(held, s.own)
    ensures Step(s, held, c).fault <==> Wrong(s, held, c, Step(s, held, c))
  {
    hide Malloc, Realloc, Request, Calloc, Served, Serves, Owners.Ok, Free;
    match c
    case New(n) => NewMeans(s, n);
    case Zeroed(a, b) => CallocMeans(s, Product(a, b));
    case Aligned(al, n) => RequestMeans(s, n, al, al <= 4096);
    case Resize(q, n) => ReallocMeans(s, q, n); WhoHas(s.own, q);
    case Release(p) => FreeMeans(s, p);
    case Write(_, _) =>
  }

  lemma NewMeans(s: State, n: Word)
    requires s.own.Ok()
    ensures var r := Malloc(s, n);
            && Serves(s, r, n) && r.fault == Short(r.p, r.story, n)
            && Served(r.story, n, true, |s.own.big| >= 8, s.Room(), |s.own.emerg| >= 8192, r.p)
  {
    RequestMeans(s, n, 16, true);
  }

  lemma WhoHas(own: Owners, q: int)
    requires own.Ok()
    ensures q in own.newlib || q in own.emerg <==> q in own.live && q !in own.big
    ensures q in own.live ==> q > 0
  {
    if q in own.live { assert own.Owned(q); }
  }

  lemma FreeMeans(s: State, p: Word)
    requires s.own.Ok()
    ensures var r := Free(s, p);
            && r.fault == (p != 0 && p !in s.own.live) && r.p == 0 && r.s.world == s.world
            && (!r.fault ==> r.s.own.Ok() && r.s.own.live == s.own.live - {p} && r.s.own.big <= s.own.big)
  {
    WhoHas(s.own, p);
    if p == 0 {
    } else if p in s.own.big {
      s.own.DropBig(p);
    } else if p in s.own.emerg {
      s.own.DropEmerg(p);
    } else if p in s.own.newlib {
      s.own.DropNewlib(p);
    }
    hide Owners.Ok;
  }

  // ---- a call keeps what the client knows

  lemma HeldGranted(held: Held, s: State, r: Reply, b: Block)
    requires s.own.Ok() && HeldIn(held, s.own) && Serves(s, r, b.n) && r.p != 0 && !r.fault
    requires |b.known| <= b.n && b.known <= r.s.own.live[r.p]
    ensures r.p !in held && HeldIn(held[r.p := b], r.s.own)
  {
    assert r.p in s.own.big ==> r.p in s.own.live;
    hide Owners.Ok;
  }

  lemma HeldMoved(held: Held, s: State, r: Reply, q: int, n: nat)
    requires s.own.Ok() && HeldIn(held, s.own) && Replaces(s, r, q, n) && r.p != 0 && q !in s.own.big
    ensures var known := if q in held then Prefix(held[q].known, n) else [];
            HeldIn((held - {q})[r.p := Block(n, known)], r.s.own)
  {
    assert r.p in s.own.big ==> r.p in s.own.live;
    hide Owners.Ok;
    if q in held {
      var known := Prefix(held[q].known, n);
      assert held[q].known <= s.own.live[q];
      forall k | 0 <= k < |known| ensures r.s.own.live[r.p][k] == known[k] { assert s.own.live[q][k] == held[q].known[k]; }
    }
  }

  lemma HeldDropped(held: Held, s: State, r: Reply, q: int, n: nat)
    requires HeldIn(held, s.own) && Replaces(s, r, q, n) && r.p == 0
    ensures HeldIn(if n == 0 then held - {q} else held, r.s.own)
  {}

  lemma HeldWritten(held: Held, own: Owners, q: int, data: Bytes)
    requires own.Ok() && HeldIn(held, own) && Fits(held, q, data)
    ensures HeldIn(held[q := held[q].(known := Overwritten(held[q].known, data))], own.Write(q, data))
  {
    own.WriteCases(q, data);
    hide Owners.Ok;
  }

  lemma ZerosStart(a: Bytes, n: nat)
    requires ZeroUpTo(a, n) && n <= |a|
    ensures Zeros(n) <= a
  {}

  lemma AlignedMeans(s: State, al: Word, n: Word)
    requires s.own.Ok()
    ensures var r := Memalign(s, al, n);
            && Serves(s, r, n) && r.fault == Short(r.p, r.story, n)
            && Served(r.story, n, al <= 4096, |s.own.big| >= 8, s.Room(), al > 16 || |s.own.emerg| >= 8192, r.p)
  {
    RequestMeans(s, n, al, al <= 4096);
  }

  lemma HeldReleased(held: Held, own: Owners, now: Owners, p: int)
    requires HeldIn(held, own) && now.live == own.live - {p} && now.big <= own.big
    ensures HeldIn(held - {p}, now)
  {}

  lemma HeldFits(held: Held, own: Owners, q: int, data: Bytes)
    requires HeldIn(held, own) && Fits(held, q, data)
    ensures q in own.live && |data| <= |own.live[q]|
  {}

  lemma ResizeKeeps(s: State, held: Held, q: Word, n: Word)
    requires s.own.Ok() && HeldIn(held, s.own)
    ensures var r := Realloc(s, q, n);
            !r.fault ==> r.s.own.Ok() && HeldIn(Kept(held, Resize(q, n), r.p), r.s.own) && r.s.world == s.world
  {
    var r := Realloc(s, q, n);
    hide *;
    ReallocMeans(s, q, n);
    if r.fault { return; }
    NoNull(held, s.own);
    WhoHas(s.own, q);
    if q == 0 {
      ServedMeans(s, r, n);
      if r.p != 0 { HeldGranted(held, s, r, Block(n, [])); }
      KeptOfNull(held, n, r.p);
    } else {
      if r.p != 0 { HeldMoved(held, s, r, q, n); } else { HeldDropped(held, s, r, q, n); }
      KeptOfResize(held, q, n, r.p);
    }
  }

  lemma NoNull(held: Held, own: Owners)
    requires own.Ok() && HeldIn(held, own)
    ensures 0 !in held
  {
    if 0 in held { WhoHas(own, 0); }
  }

  lemma ServedMeans(s: State, r: Reply, n: int)
    requires Serves(s, r, n) && s.own.Ok()
    ensures r.p == 0 ==> r.s.own == s.own
    ensures r.p != 0 && !r.fault ==> r.s.own.Ok() && r.p in r.s.own.live
  {}

  lemma KeptOfNull(held: Held, n: Word, p: int)
    requires 0 !in held
    ensures Kept(held, Resize(0, n), p) == if p == 0 then held else held[p := Block(n, [])]
  {
    assert held - {0} == held;
  }

  lemma KeptOfResize(held: Held, q: Word, n: Word, p: int)
    ensures Kept(held, Resize(q, n), p) ==
      if p != 0 then (held - {q})[p := Block(n, if q in held then Prefix(held[q].known, n) else [])]
      else if n == 0 then held - {q} else held
  {}

  lemma StepKeeps(s: State, held: Held, c: Call)
    requires s.own.Ok() && HeldIn(held, s.own)
    ensures var r := Step(s, held, c);
            !r.fault ==> r.s.own.Ok() && HeldIn(Kept(held, c, r.p), r.s.own) && r.s.world == s.world
  {
    var r := Step(s, held, c);
    hide HeldIn, Owners.Ok, Malloc, Memalign, Realloc, Request, Calloc, Served, Free;
    match c
    case New(n) =>
      NewMeans(s, n);
      if r.p != 0 && !r.fault { HeldGranted(held, s, r, Block(n, [])); }
    case Zeroed(a, b) =>
      var m := Product(a, b);
      CallocMeans(s, m);
      if r.p != 0 && !r.fault {
        ZerosStart(r.s.own.live[r.p], m);
        HeldGranted(held, s, r, Block(m, Zeros(m)));
      }
    case Aligned(al, n) =>
      AlignedMeans(s, al, n);
      if r.p != 0 && !r.fault { HeldGranted(held, s, r, Block(n, [])); }
    case Resize(q, n) => ResizeKeeps(s, held, q, n);
    case Release(p) =>
      FreeMeans(s, p);
      if !r.fault { HeldReleased(held, s.own, r.s.own, p); }
    case Write(q, data) =>
      if Fits(held, q, data) {
        HeldFits(held, s.own, q, data);
        s.own.WriteIsLocal(q, data);
        HeldWritten(held, s.own, q, data);
      }
  }

  // ---- runs

  // held and answers up to the call that went wrong, or to the end.
  datatype End = End(s: State, held: Held, answers: seq<int>, fault: bool)

  ghost function Run(s: State, held: Held, cs: seq<Call>): End
    requires s.own.Ok() && HeldIn(held, s.own)
    decreases |cs|
  {
    if cs == [] then End(s, held, [], false)
    else
      var r := Step(s, held, cs[0]);
      StepKeeps(s, held, cs[0]);
      if r.fault then End(s, held, [], true)
      else var e := Run(r.s, Kept(held, cs[0], r.p), cs[1..]); e.(answers := [r.p] + e.answers)
  }

  function KeptAll(held: Held, cs: seq<Call>, answers: seq<int>): Held
    requires |answers| <= |cs|
    decreases |answers|
  {
    if answers == [] then held else KeptAll(Kept(held, cs[0], answers[0]), cs[1..], answers[1..])
  }

  // Whatever the answers, as long as no call goes wrong every live pointer has exactly one owner,
  // and the client finds in its blocks what it has asked for and written, also after a resize.
  lemma {:induction false} RunKeeps(s: State, held: Held, cs: seq<Call>)
    requires s.own.Ok() && HeldIn(held, s.own)
    ensures var e := Run(s, held, cs);
            && e.s.own.Ok() && HeldIn(e.held, e.s.own) && (forall p :: p in e.held ==> e.s.own.Owned(p))
            && |e.answers| <= |cs| && e.held == KeptAll(held, cs, e.answers)
            && (if e.fault then |e.answers| < |cs| && Step(e.s, e.held, cs[|e.answers|]).fault else |e.answers| == |cs|)
    decreases |cs|
  {
    if cs != [] {
      var r := Step(s, held, cs[0]);
      StepKeeps(s, held, cs[0]);
      if !r.fault {
        RunKeeps(r.s, Kept(held, cs[0], r.p), cs[1..]);
        var e := Run(r.s, Kept(held, cs[0], r.p), cs[1..]);
        assert ([r.p] + e.answers)[1..] == e.answers;
      }
    }
    hide Owners.Owned, Kept, Step, Malloc;
  }

  // ---- a client that is careful

  // It passes its own pointers, writes inside its blocks, asks for sizes that leave room for the
  // header, and does not resize a block of 6 MB or more.
  predicate Careful(held: Held, c: Call) {
    match c
    case New(n) => n + 16 < 0x1_0000_0000
    case Zeroed(a, b) => Product(a, b) + 16 < 0x1_0000_0000
    case Aligned(_, n) => n + 16 < 0x1_0000_0000
    case Resize(q, n) => n + 16 < 0x1_0000_0000 && (q == 0 || (q in held && held[q].n < 0x60_0000))
    case Release(p) => p == 0 || p in held
    case Write(q, data) => Fits(held, q, data)
  }

  lemma CarefulIsRight(s: State, held: Held, c: Call)
    requires s.own.Ok() && HeldIn(held, s.own) && Careful(held, c)
    ensures !Step(s, held, c).fault
  {
    hide Owners.Ok, Step;
    FaultIsExact(s, held, c);
  }

  // In every run the first call that goes wrong is one that is not careful, as far as the client
  // can tell from its calls and the answers.
  lemma CarefulRun(s: State, held: Held, cs: seq<Call>)
    requires s.own.Ok() && HeldIn(held, s.own)
    ensures var e := Run(s, held, cs);
            |e.answers| <= |cs| && (e.fault ==> |e.answers| < |cs| && !Careful(KeptAll(held, cs, e.answers), cs[|e.answers|]))
  {
    hide Owners.Ok, Careful, Step;
    RunKeeps(s, held, cs);
    var e := Run(s, held, cs);
    if e.fault && Careful(e.held, cs[|e.answers|]) { CarefulIsRight(e.s, e.held, cs[|e.answers|]); }
  }

  // ---- nothing is lost

  predicate ToZero(c: Call) { c.Resize? && c.q != 0 && c.n == 0 }

  lemma StepLosesNothing(s: State, held: Held, c: Call)
    requires s.own.Ok() && HeldIn(held, s.own) && held.Keys == s.own.live.Keys && !ToZero(c)
    ensures var r := Step(s, held, c); !r.fault ==> Kept(held, c, r.p).Keys == r.s.own.live.Keys
  {
    var r := Step(s, held, c);
    hide HeldIn, Owners.Ok, Malloc, Memalign, Realloc, Request, Calloc, Served, Free;
    match c
    case New(n) => NewMeans(s, n);
    case Zeroed(a, b) => CallocMeans(s, Product(a, b));
    case Aligned(al, n) => AlignedMeans(s, al, n);
    case Resize(q, n) => ReallocMeans(s, q, n); NoNull(held, s.own);
    case Release(p) => FreeMeans(s, p);
    case Write(q, data) => if Fits(held, q, data) { s.own.WriteCases(q, data); }
  }

  // Unless a size of zero is asked of realloc, the client holds every live pointer at the end of
  // every run; so when it has given all back, no memory is in use.
  lemma {:induction false} NothingIsLost(s: State, held: Held, cs: seq<Call>)
    requires s.own.Ok() && HeldIn(held, s.own) && held.Keys == s.own.live.Keys
    requires forall k :: 0 <= k < |cs| ==> !ToZero(cs[k])
    ensures var e := Run(s, held, cs);
            e.held.Keys == e.s.own.live.Keys && (e.held == map[] ==> e.s.own.newlib == map[] && e.s.own.vgl == map[])
    decreases |cs|
  {
    if cs == [] || Step(s, held, cs[0]).fault {
      NoneIsInUse(s.own);
    } else {
      StepLosesNothing(s, held, cs[0]);
      var r := Step(s, held, cs[0]);
      StepKeeps(s, held, cs[0]);
      hide *;
      NothingIsLost(r.s, Kept(held, cs[0], r.p), cs[1..]);
      RunStep(s, held, cs);
    }
  }

  lemma RunStep(s: State, held: Held, cs: seq<Call>)
    requires s.own.Ok() && HeldIn(held, s.own) && cs != [] && !Step(s, held, cs[0]).fault
    ensures var r := Step(s, held, cs[0]);
            && r.s.own.Ok() && HeldIn(Kept(held, cs[0], r.p), r.s.own)
            && var e := Run(r.s, Kept(held, cs[0], r.p), cs[1..]);
               Run(s, held, cs) == e.(answers := [r.p] + e.answers)
  {
    StepKeeps(s, held, cs[0]);
  }

  lemma NoneIsInUse(own: Owners)
    requires own.Ok()
    ensures own.live == map[] ==> own.newlib == map[] && own.vgl == map[]
  {
    if own.live == map[] {
      assert forall p :: p in own.newlib || p in own.big || p in own.emerg ==> p in own.live;
      assert own.newlib.Keys == {};
      forall a ensures a !in own.vgl { assert a in own.vgl ==> own.Accounted(a); }
      assert own.vgl.Keys == {};
    }
  }

  // ---- two calls that go wrong, from the beginning

  function Start(world: nat -> Offer): State { State(world, 0, Owners(map[], map[], {}, {}, map[])) }

  lemma StartIsOk(world: nat -> Offer)
    ensures Start(world).own.Ok() && HeldIn(map[], Start(world).own)
  {}

  const SOMEWHERE: Word := 0x8000_0000

  // A block of n bytes is offered, and nothing else.
  function Only(n: nat): nat -> Offer { _ => Offer(SOMEWHERE, Zeros(n), 0, false) }

  // The first pool grants 25 MB; a resize to any size then hands newlib a block of the big table.
  lemma ReallocOfBigBlock(n: Word)
    ensures var s := Start(Only(0x190_0000));
            && s.own.Ok() && HeldIn(map[], s.own)
            && var e := Run(s, map[], [New(0x190_0000)] + [Resize(SOMEWHERE, n)]);
               && e.fault && e.answers == [SOMEWHERE] && e.held == map[SOMEWHERE := Block(0x190_0000, [])]
               && e.s.own.Ok() && SOMEWHERE in e.s.own.big
  {
    var s, cs := Start(Only(0x190_0000)), [New(0x190_0000)] + [Resize(SOMEWHERE, n)];
    StartIsOk(s.world);
    BigIsGranted();
    hide Step, Request, Malloc, Only, Zeros, Owners.Ok;
    StepKeeps(s, map[], cs[0]);
    var r := Step(s, map[], cs[0]);
    StepIsNew(s, map[], 0x190_0000);
    assert cs[1..] == [Resize(SOMEWHERE, n)];
    FaultIsExact(r.s, map[SOMEWHERE := Block(0x190_0000, [])], cs[1]);
  }

  lemma StepIsNew(s: State, held: Held, n: Word)
    requires s.own.Ok() && HeldIn(held, s.own)
    ensures Step(s, held, New(n)) == Malloc(s, n)
  {}

  lemma BigIsGranted()
    ensures var r := Malloc(Start(Only(0x190_0000)), 0x190_0000);
            r.p == SOMEWHERE && !r.fault && r.p in r.s.own.big
  {}

  // For every size that leaves no room for the header, only the emergency allocator grants the
  // request, because with the header it asks for a few bytes.
  lemma WrappedRequest(n: Word)
    requires n + 16 >= 0x1_0000_0000
    ensures var m := n + 16 - 0x1_0000_0000;
            var s := Start(Only(m));
            && s.own.Ok() && HeldIn(map[], s.own) && m < n
            && var r := Malloc(s, n);
               && r.p == SOMEWHERE + 16 && r.story.emerg == [Ask(Ram, m, SOMEWHERE)]
               && Run(s, map[], [New(n)]).fault
  {
    var m := n + EMERG_HDR - WORDS;
    var s := Start(Only(m));
    StartIsOk(s.world);
    assert (n + EMERG_HDR) % WORDS == m;
    StepIsNew(s, map[], n);
  }
}
