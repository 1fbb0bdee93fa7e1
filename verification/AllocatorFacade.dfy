// The malloc/calloc/memalign/realloc/free facade of loader/default_dynlib.c.  A request is
// served by the big-block table (VitaGL pools), by newlib, or by the emergency allocator
// (VitaGL blocks behind a 16-byte header); every later call has to find out again, from the
// pointer alone, which of the three it came from.

module AllocatorFacade {
  import opened AllocatorRuns
  import opened EmergencySet
  import opened HeapOwners
  import opened Words
  import opened Spec = AllocatorSpec

  datatype BigEntry = BigEntry(p: int, n: int)

  class Allocator {
    const table: EmergencyTable
    const bigTab: array<BigEntry>
    var bigN: int
    var newlib: Heap
    var vgl: Heap
    const world: nat -> Offer   // the answers of the underlying allocators, in their order
    var clock: nat              // and how many they have given
    ghost var live: Heap
    // An underlying allocator was handed a pointer that it does not own, or the client a
    // block that is shorter than it asked for.
    var broken: bool

    ghost function Big(): set<int>
      reads this`bigN, bigTab
      requires 0 <= bigN <= bigTab.Length
    {
      set i | 0 <= i < bigN :: bigTab[i].p
    }

    ghost function Abs(): Owners
      reads this, bigTab, table, table.slots
      requires 0 <= bigN <= bigTab.Length
    {
      Owners(newlib, vgl, Big(), table.Contents(), live)
    }

    ghost function Now(): State
      reads this, bigTab, table, table.slots
      requires 0 <= bigN <= bigTab.Length
    {
      State(world, clock, Abs())
    }

    ghost function Below(): Heaps
      reads this`clock, this`newlib, this`vgl
    {
      Heaps(world, clock, newlib, vgl)
    }

    ghost predicate TabOk()
      reads this`bigN, bigTab
    {
      && bigTab.Length == BIG_SLOTS && 0 <= bigN <= BIG_SLOTS
      && forall i, j :: 0 <= i < j < bigN ==> bigTab[i].p != bigTab[j].p
    }

    ghost predicate Valid()
      reads this, bigTab, table, table.slots
    {
      table.Valid() && TabOk() && !broken && Abs().Ok()
    }

    // A call has answered p after asking as told, and left the state as specified; after a
    // fault the state is unknown.
    ghost predicate Did(r: Reply, p: int, story: Story)
      reads this, bigTab, table, table.slots
    {
      p == r.p && story == r.story && broken == r.fault && (!broken ==> Valid() && Now() == r.s)
    }

    constructor (world: nat -> Offer)
      ensures this.world == world && Valid() && Now() == Start(world)
      ensures fresh(table) && fresh(table.slots) && fresh(bigTab)
    {
      table := new EmergencyTable();
      bigTab := new BigEntry[BIG_SLOTS](_ => BigEntry(0, 0));
      bigN, newlib, vgl, live, broken := 0, map[], map[], map[], false;
      this.world, clock := world, 0;
      new;
      assert Abs() == Start(world).own;
    }

    // ---- facts about the fields

    lemma AbsIs(t: Owners)
      requires 0 <= bigN <= bigTab.Length
      requires t == Owners(newlib, vgl, Big(), table.Contents(), live)
      ensures Abs() == t
    {}

    lemma NowIs()
      requires 0 <= bigN <= bigTab.Length
      ensures Now() == State(world, clock, Abs())
      ensures Now().Below() == Below() == Heaps(world, clock, newlib, vgl)
    {}

    lemma ValidMeans()
      requires Valid()
      ensures table.Valid() && TabOk() && 0 <= bigN <= bigTab.Length && !broken && Abs().Ok()
      ensures Abs() == Owners(newlib, vgl, Big(), table.Contents(), live)
    {}

    lemma ValidAgain()
      requires table.Valid() && TabOk() && !broken
      requires Abs().Ok()
      ensures Valid()
    {}

    lemma {:induction false} BigCountUpTo(k: nat)
      requires TabOk() && k <= bigN
      ensures |set i | 0 <= i < k :: bigTab[i].p| == k
    {
      if k > 0 {
        BigCountUpTo(k - 1);
        var before := set i | 0 <= i < k - 1 :: bigTab[i].p;
        assert (set i | 0 <= i < k :: bigTab[i].p) == before + {bigTab[k - 1].p};
      }
    }

    lemma Counts()
      requires Valid()
      ensures |Big()| == bigN && |table.Contents()| == table.live
      ensures Now().BigFull() == (bigN >= BIG_SLOTS) && Now().Room() == world(clock).room
    {
      BigCountUpTo(bigN);
    }

    // ---- the underlying allocators, for any world

    method VglAlloc(pool: Pool, n: int) returns (raw: int, ghost g: Got)
      modifies this`vgl, this`clock
      ensures g == VglAsk(old(Below()), pool, n) && raw == g.p && clock == g.clock
      ensures vgl == if raw == 0 then old(vgl) else old(vgl)[raw := g.bytes]
    {
      g := VglAsk(Below(), pool, n);
      var offer := world(clock);
      clock := clock + 1;
      raw := Taken(offer, newlib, vgl, n);
      if raw != 0 { vgl := vgl[raw := offer.bytes]; }
    }

    method VglFree(raw: int)
      modifies this`vgl, this`broken
      ensures vgl == old(vgl) - {raw} && broken == (old(broken) || raw !in old(vgl))
    {
      if raw !in vgl { broken := true; }
      vgl := vgl - {raw};
    }

    // newlib's malloc, calloc and memalign; malloc_usable_size is the length of the block.
    method NewlibAlloc(n: int, zeroed: bool) returns (p: int, ghost g: Got)
      modifies this`newlib, this`clock
      ensures g == NewlibAsk(old(Below()), n, zeroed) && p == g.p && clock == g.clock
      ensures newlib == if p == 0 then old(newlib) else old(newlib)[p := g.bytes]
    {
      g := NewlibAsk(Below(), n, zeroed);
      var offer := world(clock);
      clock := clock + 1;
      p := offer.at;
      var bytes := offer.bytes;
      if Fresh(newlib, vgl, p, |bytes|) && n <= |bytes| && (zeroed ==> ZeroUpTo(bytes, n)) {
        newlib := newlib[p := bytes];
      } else {
        p := 0;
      }
    }

    method NewlibFree(p: int)
      modifies this`newlib, this`broken
      ensures newlib == old(newlib) - {p} && broken == (old(broken) || p !in old(newlib))
    {
      if p !in newlib { broken := true; }
      newlib := newlib - {p};
    }

    // Either a failure, or a resized block that keeps the common prefix; a zero size may free.
    method NewlibRealloc(q: int, n: int) returns (p: int, ghost g: Got)
      requires q in newlib && n >= 0
      modifies this`newlib, this`clock
      ensures g == ResizeAsk(old(Below()), q, n) && p == g.p && clock == g.clock
      ensures newlib == if p != 0 then (old(newlib) - {q})[p := g.bytes]
                        else if n == 0 && world(old(clock)).works then old(newlib) - {q} else old(newlib)
    {
      g := ResizeAsk(Below(), q, n);
      var offer := world(clock);
      clock := clock + 1;
      p := offer.at;
      var bytes, moved := offer.bytes, offer.works;
      if moved && Fresh(newlib - {q}, vgl, p, |bytes|) && n <= |bytes| && SamePrefix(newlib[q], bytes, n) {
        newlib := (newlib - {q})[p := bytes];
      } else {
        p := 0;
        if n == 0 && moved { newlib := newlib - {q}; }
      }
    }

    // ---- the facade

    // The scan of big_tab.
    method BigIndex(p: int) returns (i: int)
      requires 0 <= bigN <= bigTab.Length
      ensures i == -1 ==> p !in Big()
      ensures i != -1 ==> 0 <= i < bigN && bigTab[i].p == p && p in Big()
    {
      i := 0;
      while i < bigN
        invariant 0 <= i <= bigN && forall j :: 0 <= j < i ==> bigTab[j].p != p
      {
        if bigTab[i].p == p { return; }
        i := i + 1;
      }
      i := -1;
    }

    // memcpy and memset to a live pointer.
    method Store(p: int, data: Bytes)
      requires Valid() && p in live && |data| <= |live[p]|
      modifies this`newlib, this`vgl, this`live
      ensures Valid() && Abs() == old(Abs()).Write(p, data)
    {
      ghost var was := Abs();
      was.WriteIsLocal(p, data);
      was.WriteCases(p, data);
      assert table.Valid() && TabOk() && !broken && bigN <= bigTab.Length;
      hide *;
      var i := BigIndex(p);
      live := live[p := data + live[p][|data|..]];
      if p in newlib {
        newlib := newlib[p := data + newlib[p][|data|..]];
      } else if i != -1 {
        vgl := vgl[p := data + vgl[p][|data|..]];
      } else {
        var a := p - EMERG_HDR;
        vgl := vgl[a := vgl[a][..EMERG_HDR] + (data + vgl[a][EMERG_HDR..][|data|..])];
      }
      AbsIs(was.Write(p, data));
      ValidAgain();
    }

    // One pool, then the other.
    method VglAllocEither(x: Pool, y: Pool, n: int) returns (raw: int, ghost g: Got)
      modifies this`vgl, this`clock
      ensures g == EitherAsk(old(Below()), x, y, n) && raw == g.p && clock == g.clock
      ensures vgl == if raw == 0 then old(vgl) else old(vgl)[raw := g.bytes]
    {
      raw, g := VglAlloc(x, n);
      if raw == 0 {
        ghost var k;
        raw, k := VglAlloc(y, n);
        g := k.(asks := g.asks + k.asks);
      }
    }

    lemma BigAfterPut(before: seq<BigEntry>, p: int)
      requires 0 < bigN <= bigTab.Length && |before| == bigN - 1
      requires bigTab[..bigN - 1] == before && bigTab[bigN - 1].p == p
      ensures Big() == (set i | 0 <= i < |before| :: before[i].p) + {p}
    {
      forall q | q in (set i | 0 <= i < |before| :: before[i].p) ensures q in Big() {
        var j :| 0 <= j < |before| && before[j].p == q;
        assert bigTab[j] == bigTab[..bigN - 1][j];
      }
      forall j | 0 <= j < |before| ensures bigTab[j] == before[j] {
        assert bigTab[j] == bigTab[..bigN - 1][j];
      }
    }

    // The entry that big_alloc makes for a block it just got.
    method BigPut(p: int, n: int, ghost was: Owners)
      requires TabOk() && bigN < BIG_SLOTS && !broken && table.Valid()
      requires was.Ok() && p in vgl && Fresh(newlib, was.vgl, p, |vgl[p]|)
      requires Abs() == was.(vgl := was.vgl[p := vgl[p]])
      modifies this`bigN, this`live, bigTab
      ensures Valid() && Abs() == was.WithBig(p, vgl[p])
    {
      was.AddBig(p, vgl[p]);
      was.FreshMeansNew(p, |vgl[p]|, p);
      ghost var before := bigTab[..bigN];
      assert was.big == set i | 0 <= i < |before| :: before[i].p;
      bigTab[bigN] := BigEntry(p, n);
      bigN := bigN + 1;
      live := live[p := vgl[p]];
      BigAfterPut(before, p);
      assert Abs() == was.WithBig(p, vgl[p]);
    }

    // The guards, and the choice of the pools for a big block.
    method BigPools(n: Word) returns (p: int, ghost g: Got)
      modifies this`vgl, this`clock
      ensures g == BigAsk(old(Below()), n, bigN >= BIG_SLOTS) && p == g.p && clock == g.clock
      ensures vgl == if p == 0 then old(vgl) else old(vgl)[p := g.bytes]
    {
      g := BigAsk(Below(), n, bigN >= BIG_SLOTS);
      if n < 6 * MB || bigN >= BIG_SLOTS { return 0, g; }
      hide EitherAsk, VglAsk;
      if n >= 25 * MB {
        p, g := VglAllocEither(Phycont, Budget, n);
      } else {
        p := 0;
        var budgetFree := world(clock).room;
        clock := clock + 1;
        if n <= budgetFree { p, g := VglAlloc(Budget, n); }
      }
    }

    method BigAlloc(n: Word) returns (p: int, ghost g: Got)
      requires Valid()
      modifies this`vgl, this`clock, this`bigN, this`live, bigTab
      ensures Valid() && g == BigAsk(old(Below()), n, old(bigN) >= BIG_SLOTS) && p == g.p && clock == g.clock
      ensures Abs() == if p == 0 then old(Abs()) else old(Abs()).WithBig(p, g.bytes)
      ensures p == 0 ==> live == old(live) && Big() == old(Big())
      ensures p != 0 ==> n >= 0x60_0000 && Granted(old(live), live, p, n) && Big() == old(Big()) + {p}
    {
      hide *;
      ValidMeans();
      NowIs();
      ghost var was := Abs();
      p, g := BigPools(n);
      if p != 0 {
        AbsIs(was.(vgl := was.vgl[p := vgl[p]]));
        BigRoom(old(Below()), n, g);
        BigPut(p, n, was);
        ValidMeans();
        BigGrants(was, p, n, g.bytes);
      } else {
        AbsIs(was);
        ValidAgain();
      }
    }

    lemma BigRoom(h: Heaps, n: Word, g: Got)
      requires g == BigAsk(h, n, bigN >= BIG_SLOTS) && g.p != 0
      ensures bigN < BIG_SLOTS && Fresh(h.newlib, h.vgl, g.p, |g.bytes|) && |g.bytes| == n >= 0x60_0000
    {}

    // big_tab[i] = big_tab[--big_n]
    method BigTake(i: int)
      requires TabOk() && 0 <= i < bigN
      modifies this`bigN, bigTab
      ensures TabOk() && bigN == old(bigN) - 1 && Big() == old(Big()) - {old(bigTab[i].p)}
    {
      bigN := bigN - 1;
      bigTab[i] := bigTab[bigN];
      forall q | q in old(Big()) && q != old(bigTab[i].p) ensures q in Big() {
        var j :| 0 <= j < old(bigN) && old(bigTab[j].p) == q;
        assert bigTab[if j == bigN then i else j].p == q;
      }
    }

    method BigFree(p: int) returns (found: bool)
      requires Valid()
      modifies this`vgl, this`bigN, this`live, this`broken, bigTab
      ensures Valid() && found == (p in old(Big()))
      ensures Abs() == if found then old(Abs()).WithoutBig(p) else old(Abs())
      ensures live == if found then old(live) - {p} else old(live)
    {
      hide *;
      ValidMeans();
      var i := BigIndex(p);
      if i == -1 { return false; }
      ghost var was := Abs();
      was.DropBig(p);
      VglFree(p);
      BigTake(i);
      live := live - {p};
      WithoutBigIs(was, p);
      AbsIs(was.WithoutBig(p));
      ValidAgain();
      return true;
    }

    lemma WithoutBigIs(own: Owners, p: int)
      ensures own.WithoutBig(p) == Owners(own.newlib, own.vgl - {p}, own.big - {p}, own.emerg, own.live - {p})
    {}

    // *(size_t *)raw = n
    method WriteHeader(raw: int, n: Word)
      requires raw in vgl && |vgl[raw]| >= EMERG_HDR
      modifies this`vgl
      ensures vgl == old(vgl)[raw := Header(n, old(vgl)[raw])]
    {
      vgl := vgl[raw := PutSize(n) + vgl[raw][4..]];
    }

    // The index entry that emerg_alloc makes for a block that has its header.
    method EmergPut(raw: int, ghost was: Owners) returns (p: int)
      requires !broken && table.Valid() && TabOk()
      requires was.Ok() && raw in vgl && |vgl[raw]| >= EMERG_HDR && GetSize(vgl[raw]) == |vgl[raw]| - EMERG_HDR
      requires Fresh(newlib, was.vgl, raw, |vgl[raw]|)
      requires Abs() == was.(vgl := was.vgl[raw := vgl[raw]]) && table.live < EMERG_SET / 2
      modifies this`live, table`live, table.slots
      ensures Valid() && p == raw + EMERG_HDR && Abs() == was.WithEmerg(raw, vgl[raw])
    {
      p := raw + EMERG_HDR;
      was.AddEmerg(raw, vgl[raw]);
      was.FreshMeansNew(raw, |vgl[raw]|, p);
      hide Owners.Ok, Fresh, GetSize, EmergencyTable.Valid, EmergencyTable.Contents;
      live := live[p := vgl[raw][EMERG_HDR..]];
      table.Insert(p);
      assert Abs() == was.WithEmerg(raw, vgl[raw]);
    }

    // Header and index entry of a block that is long enough.
    method EmergGrant(raw: int, n: Word, ghost was: Owners) returns (p: int)
      requires !broken && table.Valid() && TabOk() && table.live < EMERG_SET / 2
      requires was.Ok() && raw in vgl && |vgl[raw]| == n + EMERG_HDR < WORDS && Fresh(newlib, was.vgl, raw, |vgl[raw]|)
      requires Abs() == was.(vgl := was.vgl[raw := vgl[raw]])
      modifies this`vgl, this`live, table`live, table.slots
      ensures Valid() && p == raw + EMERG_HDR && Abs() == was.WithEmerg(raw, Header(n, old(vgl)[raw]))
    {
      hide Owners.Ok, EmergencyTable.Valid, EmergencyTable.Contents, Fresh, GetSize, Header;
      HeaderSize(n, vgl[raw]);
      WriteHeader(raw, n);
      assert Abs() == was.(vgl := was.vgl[raw := vgl[raw]]);
      p := EmergPut(raw, was);
    }

    // The guard and the choice of the pools.
    method EmergPools(n: Word, al: int) returns (raw: int, ghost g: Got)
      modifies this`vgl, this`clock
      ensures g == EmergAsk(old(Below()), n, EmergFull(al, table.live)) && raw == g.p && clock == g.clock
      ensures vgl == if raw == 0 then old(vgl) else old(vgl)[raw := g.bytes]
    {
      g := EmergAsk(Below(), n, EmergFull(al, table.live));
      if al > 16 || table.live >= EMERG_SET / 2 { return 0, g; }
      hide EitherAsk;
      raw, g := VglAllocEither(Ram, Vram, (n + EMERG_HDR) % WORDS);
    }

    method EmergAlloc(n: Word, al: int, ghost story: Story) returns (p: int, ghost told: Story)
      requires Valid()
      modifies this`vgl, this`clock, this`live, this`broken, table`live, table.slots
      ensures Did(Emerg(old(Now()), n, al, story), p, told)
      ensures EmergAsked(told.emerg, n, al > 16 || old(table.live) >= 8192, p)
      ensures told.emerg == [] <==> al > 16 || |old(table.Contents())| >= 8192
      ensures broken == (p != 0 && n + 16 >= 0x1_0000_0000)
      ensures p == 0 ==> live == old(live)
      ensures p != 0 && !broken ==> Granted(old(live), live, p, n)
    {
      hide *;
      ValidMeans();
      Counts();
      NowIs();
      RoomInIndex(al);
      ghost var was := Abs();
      var raw;
      ghost var g;
      raw, g := EmergPools(n, al);
      told := story.(emerg := g.asks);
      EmergCases(old(Now()), n, al, story, g);
      if raw == 0 {
        AbsIs(was);
        ValidAgain();
        p := 0;
      } else if n + EMERG_HDR >= WORDS {
        broken := true;   // the block holds fewer than n bytes behind its header
        p := raw + EMERG_HDR;
      } else {
        AbsIs(was.(vgl := was.vgl[raw := vgl[raw]]));
        p := EmergGrant(raw, n, was);
      }
      NowIs();
      ghost var r := Emerg(old(Now()), n, al, story);
      Answered(r, p, told);
      DidMeans(r, p, told);
      EmergMeans(old(Now()), n, al, story);
      NotAsked(told.emerg, n, al > 16 || |old(table.Contents())| >= 8192, p);
      ServesMeans(old(Now()), r, n);
    }

    lemma RoomInIndex(al: int)
      ensures !EmergFull(al, table.live) ==> table.live < EMERG_SET / 2
    {}

    lemma Answered(r: Reply, p: int, story: Story)
      requires p == r.p && story == r.story && broken == r.fault
      requires !broken ==> Valid() && 0 <= bigN <= bigTab.Length && State(world, clock, Abs()) == r.s
      ensures Did(r, p, story)
    {}

    // The block of a pointer that has just left the index.
    method EmergRelease(p: int, ghost was: Owners)
      requires !broken && table.Valid() && TabOk()
      requires was.Ok() && p in was.emerg && Abs() == was.(emerg := was.emerg - {p})
      modifies this`vgl, this`live, this`broken
      ensures Valid() && Abs() == was.WithoutEmerg(p) && live == old(live) - {p}
    {
      was.DropEmerg(p);
      VglFree(p - EMERG_HDR);
      live := live - {p};
      assert Abs() == was.WithoutEmerg(p);
    }

    method EmergFree(p: int) returns (found: bool)
      requires Valid() && 0 < p < WORDS
      modifies this`vgl, this`live, this`broken, table`live, table.slots
      ensures Valid() && found == (p in old(table.Contents()))
      ensures Abs() == if found then old(Abs()).WithoutEmerg(p) else old(Abs())
      ensures live == if found then old(live) - {p} else old(live)
    {
      hide *;
      ValidMeans();
      ghost var was := Abs();
      found := table.Remove(p);
      AbsIs(was.(emerg := was.emerg - {p}));
      if found {
        EmergRelease(p, was);
      } else {
        assert was.emerg - {p} == was.emerg;
        ValidAgain();
      }
    }

    // A newlib allocation as the client sees it.
    method NewlibGrant(n: int, zeroed: bool) returns (p: int, ghost g: Got)
      requires Valid()
      modifies this`newlib, this`clock, this`live
      ensures Valid() && g == NewlibAsk(old(Below()), n, zeroed) && p == g.p && clock == g.clock
      ensures Abs() == if p == 0 then old(Abs()) else old(Abs()).WithNewlib(p, g.bytes)
    {
      ghost var was := Abs();
      p, g := NewlibAlloc(n, zeroed);
      if p != 0 {
        was.AddNewlib(p, g.bytes);
        live := live[p := newlib[p]];
      }
      hide NewlibAsk, Owners.Ok, EmergencyTable.Valid, EmergencyTable.Contents;
      assert Abs() == if p == 0 then was else was.WithNewlib(p, g.bytes);
    }

    // The sources in their order: the big table, if it is asked at all, newlib, and the emergency
    // allocator.
    method FromSources(n: Word, al: int, viaBig: bool) returns (p: int, ghost story: Story)
      requires Valid()
      modifies this, bigTab, table`live, table.slots
      ensures Did(Request(old(Now()), n, al, viaBig), p, story)
    {
      hide *;
      ValidMeans();
      NowIs();
      ghost var s := Now();
      ghost var b := Got(0, [], clock, []);
      Counts();
      p := 0;
      if viaBig { p, b := BigAlloc(n); }
      ghost var g := b;
      story := Story(b.asks, [], []);
      ValidMeans();
      NowIs();
      if p == 0 {
        p, g := NewlibGrant(n, false);
        story := Story(b.asks, g.asks, []);
        ValidMeans();
        NowIs();
        RequestCases(s, n, al, viaBig, b, g);
        if p == 0 {
          p, story := EmergAlloc(n, al, story);
          return;
        }
      }
      RequestCases(s, n, al, viaBig, b, g);
      Answered(Request(s, n, al, viaBig), p, story);
    }

    lemma DidMeans(r: Reply, p: int, story: Story)
      requires Did(r, p, story)
      ensures p == r.p && story == r.story && broken == r.fault
      ensures !broken ==> Valid() && 0 <= bigN <= bigTab.Length && State(world, clock, Abs()) == r.s
      ensures !broken ==> live == r.s.own.live
    {}

    // The three sources, in their order.
    method MallocLog(n: Word) returns (p: int, ghost story: Story)
      requires Valid()
      modifies this, bigTab, table`live, table.slots
      ensures Did(Malloc(old(Now()), n), p, story)
      ensures Served(story, n, true, old(bigN) >= 8, world(old(clock)).room, old(table.live) >= 8192, p)
      ensures p == 0 ==> story.newlib == [Ask(Newlib, n, 0)]
      ensures p == 0 && (|old(table.Contents())| >= 8192) ==> story.emerg == []
      ensures p == 0 && |old(table.Contents())| < 8192 ==>
                story.emerg == [Ask(Ram, (n + 16) % 0x1_0000_0000, 0), Ask(Vram, (n + 16) % 0x1_0000_0000, 0)]
      ensures broken == Short(p, story, n)
      ensures p == 0 ==> live == old(live)
      ensures p != 0 && !broken ==> Granted(old(live), live, p, n)
    {
      hide *;
      ValidMeans();
      Counts();
      NowIs();
      ghost var s := Now();
      p, story := FromSources(n, 16, true);
      MallocIs(s, n);
      NewMeans(s, n);
      DidMeans(Malloc(s, n), p, story);
      ServesMeans(s, Malloc(s, n), n);
      if p == 0 { NullMeans(story, n, true, old(bigN) >= 8, world(old(clock)).room, old(table.live) >= 8192, p); }
    }

    method MemalignLog(al: Word, n: Word) returns (p: int, ghost story: Story)
      requires Valid()
      modifies this, bigTab, table`live, table.slots
      ensures Did(Memalign(old(Now()), al, n), p, story)
      ensures Served(story, n, al <= 4096, old(bigN) >= 8, world(old(clock)).room, al > 16 || old(table.live) >= 8192, p)
      ensures p == 0 ==> story.newlib == [Ask(Newlib, n, 0)]
      ensures p == 0 && (al > 16 || |old(table.Contents())| >= 8192) ==> story.emerg == []
      ensures p == 0 && !(al > 16 || |old(table.Contents())| >= 8192) ==>
                story.emerg == [Ask(Ram, (n + 16) % 0x1_0000_0000, 0), Ask(Vram, (n + 16) % 0x1_0000_0000, 0)]
      ensures broken == Short(p, story, n)
      ensures p == 0 ==> live == old(live)
      ensures p != 0 && !broken ==> Granted(old(live), live, p, n)
    {
      hide *;
      ValidMeans();
      Counts();
      NowIs();
      ghost var s := Now();
      p, story := FromSources(n, al, al <= 4096);
      MemalignIs(s, al, n);
      AlignedMeans(s, al, n);
      DidMeans(Memalign(s, al, n), p, story);
      ServesMeans(s, Memalign(s, al, n), n);
      if p == 0 { NullMeans(story, n, al <= 4096, old(bigN) >= 8, world(old(clock)).room, al > 16 || old(table.live) >= 8192, p); }
    }

    // The emergency branch of calloc_log, with memset(p, 0, n).
    method EmergCleared(n: Word, ghost before: Story) returns (p: int, ghost story: Story)
      requires Valid()
      modifies this`newlib, this`vgl, this`clock, this`live, this`broken, table`live, table.slots
      ensures Did(Cleared(old(Now()), n, before), p, story)
    {
      hide *;
      ValidMeans();
      NowIs();
      ghost var s := Now();
      p, story := EmergAlloc(n, 16, before);
      ghost var r := Emerg(s, n, 16, before);
      DidMeans(r, p, story);
      EmergMeans(s, n, 16, before);
      ClearedCases(s, n, before);
      if p != 0 && !broken {
        ValidMeans();
        ServesMeans(s, r, n);
        Store(p, Zeros(n));
        ValidMeans();
      }
      Answered(Cleared(s, n, before), p, story);
    }

    // The emergency branch takes the product in 32-bit arithmetic.
    method CallocLog(a: Word, b: Word) returns (p: int, ghost story: Story)
      requires Valid()
      modifies this, bigTab, table`live, table.slots
      ensures Did(Calloc(old(Now()), Product(a, b)), p, story)
      ensures Served(story, a * b, false, true, 0, old(table.live) >= 8192, p)
      ensures p == 0 ==> story.newlib == [Ask(Newlib, a * b, 0)]
      ensures p == 0 && (|old(table.Contents())| >= 8192) ==> story.emerg == []
      ensures p == 0 && |old(table.Contents())| < 8192 ==>
                story.emerg == [Ask(Ram, (a * b + 16) % 0x1_0000_0000, 0), Ask(Vram, (a * b + 16) % 0x1_0000_0000, 0)]
      ensures broken == Short(p, story, a * b)
      ensures p == 0 ==> live == old(live)
      ensures p != 0 && !broken ==> Granted(old(live), live, p, a * b) && ZeroUpTo(live[p], a * b)
    {
      hide *;
      ValidMeans();
      Counts();
      NowIs();
      ghost var s := Now();
      var n := Product(a, b);
      ghost var g;
      p, g := NewlibGrant(n, true);
      story := Story([], g.asks, []);
      CallocCases(s, n, g);
      ValidMeans();
      NowIs();
      if p != 0 {
        Answered(Calloc(s, n), p, story);
      } else if n < WORDS {
        p, story := EmergCleared(n, story);
      } else {
        ghost var t := Now();
        ghost var r := Emerg(t, n % WORDS, 16, story);
        p, story := EmergAlloc(n % WORDS, 16, story);
        DidMeans(r, p, story);
        EmergMeans(t, n % WORDS, 16, Story([], g.asks, []));
        if p != 0 { broken := true; }   // fewer bytes than the client asked for
        Answered(Calloc(s, n), p, story);
      }
      CallocMeans(s, n);
      ProductIs(a, b);
      DidMeans(Calloc(s, n), p, story);
      ServesMeans(s, Calloc(s, n), n);
      if p == 0 { NullMeans(story, a * b, false, true, 0, old(table.live) >= 8192, p); }
    }

    // The final free(p): newlib gets whatever the other two did not claim.
    method NewlibRelease(p: int)
      requires Valid()
      modifies this`newlib, this`live, this`broken
      ensures broken == (p !in old(newlib))
      ensures !broken ==> Valid() && Abs() == old(Abs()).WithoutNewlib(p)
    {
      ghost var was := Abs();
      if p in newlib { was.DropNewlib(p); }
      NewlibFree(p);
      live := live - {p};
      hide Owners.Ok, EmergencyTable.Valid, EmergencyTable.Contents;
      assert !broken ==> Abs() == was.WithoutNewlib(p);
    }

    // free_big: a pointer goes back to where it came from, and only there.
    method FreeBig(p: Word)
      requires Valid()
      modifies this, bigTab, table`live, table.slots
      ensures Did(Free(old(Now()), p), 0, NOBODY)
      ensures broken == (p != 0 && p !in old(live))
      ensures !broken ==> live == old(live) - {p}
    {
      hide *;
      ValidMeans();
      Counts();
      NowIs();
      ghost var s := Now();
      FreeCases(s, p);
      FreeMeans(s, p);
      Release(p);
      if !broken { ValidMeans(); }
      Answered(Free(s, p), 0, NOBODY);
      DidMeans(Free(s, p), 0, NOBODY);
    }

    method Release(p: Word)
      requires Valid()
      modifies this, bigTab, table`live, table.slots
      ensures broken == (p != 0 && p !in old(Big()) && p !in old(table.Contents()) && p !in old(newlib)) && clock == old(clock)
      ensures !broken ==> Valid()
      ensures !broken ==> Abs() == if p == 0 then old(Abs()) else if p in old(Big()) then old(Abs()).WithoutBig(p)
                                   else if p in old(table.Contents()) then old(Abs()).WithoutEmerg(p)
                                   else old(Abs()).WithoutNewlib(p)
    {
      hide *;
      ValidMeans();
      Counts();
      if p == 0 { return; }
      var found := BigFree(p);
      ValidMeans();
      if found { return; }
      if table.live != 0 {
        found := EmergFree(p);
        ValidMeans();
        if found { return; }
      }
      NewlibRelease(p);
    }

    // The branch of realloc_log for an emergency block.
    method EmergRealloc(q: Word, n: Word) returns (p: int, ghost story: Story)
      requires Valid() && q in table.Contents() && q != 0
      modifies this, bigTab, table`live, table.slots
      ensures Did(Realloc(old(Now()), q, n), p, story)
      ensures Served(story, n, true, old(bigN) >= 8, world(old(clock)).room, old(table.live) >= 8192, p)
      ensures broken == Short(p, story, n)
      ensures p == 0 ==> live == old(live)
      ensures p != 0 && !broken ==> Moved(old(live), live, q, p, n)
    {
      hide *;
      ValidMeans();
      Counts();
      NowIs();
      ghost var s := Now();
      HeaderIs(s.own, q);
      var on := GetSize(vgl[q - EMERG_HDR]);
      var data := vgl[q - EMERG_HDR][EMERG_HDR..][..if on < n then on else n];
      p, story := MallocLog(n);
      ghost var r := Malloc(s, n);
      DidMeans(r, p, story);
      NewMeans(s, n);
      ReallocEmerg(s, q, n);
      if p != 0 && !broken {
        ServesMeans(s, r, n);
        PrefixIs(s.own.live[q], n, data);
        r.s.own.WriteKeeps(p, data);
        Store(p, data);
        ValidMeans();
        var _ := EmergFree(q);
        ValidMeans();
      }
      Answered(Realloc(s, q, n), p, story);
      DidMeans(Realloc(s, q, n), p, story);
      ReallocMeans(s, q, n);
      if !broken { ReplacesMeans(s, Realloc(s, q, n), q, n); }
      ServesMeans(s, r, n);
    }

    // newlib's own realloc, and the fallback when newlib cannot resize a block: copy it out and
    // free it.
    method NewlibResize(q: Word, n: Word) returns (p: int, ghost story: Story)
      requires Valid() && q in newlib && q !in table.Contents() && q != 0
      modifies this`newlib, this`vgl, this`clock, this`live, this`broken, table`live, table.slots
      ensures Did(Realloc(old(Now()), q, n), p, story)
    {
      hide *;
      ValidMeans();
      NowIs();
      ghost var s := Now();
      ghost var g;
      p, g := NewlibRegrant(q, n);
      story := Story([], g.asks, []);
      ReallocNewlib(s, q, n, g);
      ValidMeans();
      NowIs();
      if p == 0 && n != 0 {
        p, story := NewlibEvict(q, n, story);
      } else {
        Answered(Realloc(s, q, n), p, story);
      }
    }

    method NewlibRegrant(q: int, n: Word) returns (p: int, ghost g: Got)
      requires Valid() && q in newlib
      modifies this`newlib, this`clock, this`live
      ensures Valid() && g == ResizeAsk(old(Below()), q, n) && p == g.p && clock == g.clock
      ensures Abs() == if p != 0 then old(Abs()).WithoutNewlib(q).WithNewlib(p, g.bytes)
                       else if n == 0 && world(old(clock)).works then old(Abs()).WithoutNewlib(q) else old(Abs())
    {
      ghost var was := Abs();
      was.DropNewlib(q);
      p, g := NewlibRealloc(q, n);
      hide Owners.Ok, EmergencyTable.Valid, EmergencyTable.Contents;
      if p != 0 {
        was.WithoutNewlib(q).AddNewlib(p, g.bytes);
        live := (live - {q})[p := newlib[p]];
        assert Abs() == was.WithoutNewlib(q).WithNewlib(p, g.bytes);
      } else if n == 0 && world(old(clock)).works {
        live := live - {q};
        assert Abs() == was.WithoutNewlib(q);
      } else {
        assert Abs() == was;
      }
    }

    method NewlibEvict(q: Word, n: Word, ghost before: Story) returns (p: int, ghost story: Story)
      requires Valid() && q in newlib && n != 0
      modifies this`newlib, this`vgl, this`clock, this`live, this`broken, table`live, table.slots
      ensures Did(Evict(old(Now()), q, n, before), p, story)
      ensures EmergAsked(story.emerg, n, old(table.live) >= 8192, p)
      ensures broken == (p != 0 && n + 16 >= 0x1_0000_0000)
      ensures p == 0 ==> live == old(live)
      ensures p != 0 && !broken ==> Moved(old(live), live, q, p, n)
    {
      hide *;
      ValidMeans();
      Counts();
      NowIs();
      ghost var s := Now();
      NewlibIs(s.own, q);
      var usable := |newlib[q]|;
      var data := newlib[q][..if usable < n then usable else n];
      p, story := EmergAlloc(n, 16, before);
      ghost var r := Emerg(s, n, 16, before);
      DidMeans(r, p, story);
      EvictCases(s, q, n, before);
      if p != 0 && !broken {
        ValidMeans();
        ServesMeans(s, r, n);
        PrefixIs(s.own.live[q], n, data);
        r.s.own.WriteKeeps(p, data);
        Store(p, data);
        ValidMeans();
        NewlibRelease(q);
        ValidMeans();
      }
      Answered(Evict(s, q, n, before), p, story);
      DidMeans(Evict(s, q, n, before), p, story);
      EvictMeans(s, q, n, before);
      ServesMeans(s, r, n);
      if !broken { ReplacesMeans(s, Evict(s, q, n, before), q, n); }
    }

    method ReallocLog(q: Word, n: Word) returns (p: int, ghost story: Story)
      requires Valid()
      modifies this, bigTab, table`live, table.slots
      ensures Did(Realloc(old(Now()), q, n), p, story)
      ensures q == 0 || q in old(table.Contents()) ==>
                Served(story, n, true, old(bigN) >= 8, world(old(clock)).room, old(table.live) >= 8192, p)
      ensures q in old(newlib) && n != 0 ==> AfterBig(story, n, old(table.live) >= 8192, p)
      // newlib is handed a pointer that it does not own exactly when q is none of NULL, a newlib
      // block, an emergency block: a big block or not live at all
      ensures var foreign := q != 0 && q !in old(newlib) && q !in old(table.Contents());
              broken == (foreign || Short(p, story, n))
      ensures !broken && q == 0 ==> if p == 0 then live == old(live) else Granted(old(live), live, p, n)
      ensures !broken && q != 0 && p != 0 ==> Moved(old(live), live, q, p, n)
      ensures !broken && q != 0 && p == 0 ==> live == old(live) || (n == 0 && live == old(live) - {q})
    {
      hide *;
      ValidMeans();
      Counts();
      NowIs();
      ghost var s := Now();
      p, story := Resized(q, n);
      ReallocMeans(s, q, n);
      DidMeans(Realloc(s, q, n), p, story);
      if !broken { ReplacesMeans(s, Realloc(s, q, n), q, n); }
    }

    method Resized(q: Word, n: Word) returns (p: int, ghost story: Story)
      requires Valid()
      modifies this, bigTab, table`live, table.slots
      ensures Did(Realloc(old(Now()), q, n), p, story)
    {
      hide *;
      ValidMeans();
      Counts();
      NowIs();
      ghost var s := Now();
      ReallocElse(s, q, n);
      if q == 0 { p, story := MallocLog(n); return; }
      if table.live != 0 {
        var i := table.Find(q);
        if i >= 0 { p, story := EmergRealloc(q, n); return; }
      }
      if q !in newlib {
        broken := true;
        p, story := 0, NOBODY;
        Answered(Realloc(s, q, n), p, story);
        return;
      }
      p, story := NewlibResize(q, n);
    }

    // ---- calls of a client

    method Serve(c: Call, held: Held) returns (h: Held, p: int)
      requires Valid() && HeldIn(held, Abs())
      modifies this, bigTab, table`live, table.slots
      ensures var r := Step(old(Now()), held, c);
              && p == r.p && broken == r.fault && (!broken ==> Valid() && Now() == r.s && h == Kept(held, c, p))
    {
      hide *;
      ValidMeans();
      NowIs();
      ghost var s := Now();
      ghost var story;
      StepCases(s, held, c);
      match c {
        case New(n) => p, story := MallocLog(n);
        case Zeroed(a, b) => p, story := CallocLog(a, b);
        case Aligned(al, n) => p, story := MemalignLog(al, n);
        case Resize(q, n) => p, story := ReallocLog(q, n);
        case Release(q) => FreeBig(q); p, story := 0, NOBODY;
        case Write(q, data) =>
          p, story := 0, NOBODY;
          if Fits(held, q, data) {
            Store(q, data);
            ValidMeans();
          } else {
            broken := true;
          }
          Answered(Step(s, held, c), p, story);
      }
      DidMeans(Step(s, held, c), p, story);
      if !broken { NowIs(); }
      h := Kept(held, c, p);
    }

    // A run, up to the first call that goes wrong.
    method ServeAll(cs: seq<Call>) returns (held: Held, answers: seq<int>)
      requires Valid()
      modifies this, bigTab, table`live, table.slots
      ensures HeldIn(map[], old(Abs()))
      ensures var e := Run(old(Now()), map[], cs);
              && broken == e.fault && answers == e.answers && held == e.held && (!broken ==> Valid() && Now() == e.s)
    {
      hide *;
      ValidMeans();
      NowIs();
      ghost var s := Now();
      held, answers := map[], [];
      NothingHeld(s.own);
      RunOn(s, held, cs, []);
      assert cs[0..] == cs;
      var k := 0;
      while k < |cs|
        invariant 0 <= k <= |cs| && Valid() && !broken && 0 <= bigN <= bigTab.Length && HeldIn(held, Abs()) && s.own.Ok()
        invariant Abs().Ok() && Now() == State(world, clock, Abs()) && HeldIn(map[], s.own)
        invariant Run(s, map[], cs) == Later(answers, Run(Now(), held, cs[k..]))
      {
        NextCall(Now(), held, cs[k..], answers);
        var h, p := Serve(cs[k], held);
        if broken { return; }
        ValidMeans();
        NowIs();
        held, answers := h, answers + [p];
        assert cs[k..][1..] == cs[k + 1..];
        k := k + 1;
      }
      RunOn(Now(), held, cs[k..], answers);
    }
  }

  lemma MallocIs(s: State, n: Word)
    ensures Malloc(s, n) == Request(s, n, 16, true)
  {}

  lemma ProductIs(a: nat, b: nat)
    ensures Product(a, b) == a * b
  {}

  lemma MemalignIs(s: State, al: Word, n: Word)
    ensures Memalign(s, al, n) == Request(s, n, al, al <= 4096)
  {}

  lemma ServesMeans(s: State, r: Reply, n: int)
    requires Serves(s, r, n)
    ensures r.p == 0 ==> r.s.own == s.own && !r.fault
    ensures r.p != 0 && !r.fault ==> r.s.own.Ok() && Granted(s.own.live, r.s.own.live, r.p, n)
    ensures r.p != 0 && !r.fault ==> r.p in r.s.own.live && n <= |r.s.own.live[r.p]|
  {}

  lemma ClearedCases(s: State, n: Word, story: Story)
    requires s.own.Ok()
    ensures var r := Emerg(s, n, 16, story);
            if r.p == 0 || r.fault then Cleared(s, n, story) == r
            else r.s.own.Ok() && r.p in r.s.own.live && |Zeros(n)| == n <= |r.s.own.live[r.p]|
                 && Cleared(s, n, story) == r.(s := r.s.(own := r.s.own.Write(r.p, Zeros(n))))
  {
    EmergMeans(s, n, 16, story);
    hide Emerg, Owners.Ok;
  }

  lemma CallocCases(s: State, n: nat, g: Got)
    requires s.own.Ok() && g == NewlibAsk(s.Below(), n, true)
    ensures var t, story := s.(clock := g.clock), Story([], g.asks, []);
            && t.own.Ok()
            && (if g.p != 0 then Calloc(s, n) == Reply(t.(own := s.own.WithNewlib(g.p, g.bytes)), g.p, story, false)
                else if n < WORDS then Calloc(s, n) == Cleared(t, n, story)
                else var r := Emerg(t, n % WORDS, 16, story); Calloc(s, n) == r.(fault := r.p != 0))
  {
    hide NewlibAsk, Emerg, Cleared, Owners.Ok;
  }

  lemma FreeCases(s: State, p: Word)
    ensures Free(s, p) ==
      if p == 0 then Reply(s, 0, NOBODY, false)
      else if p in s.own.big then Reply(s.(own := s.own.WithoutBig(p)), 0, NOBODY, false)
      else if p in s.own.emerg then Reply(s.(own := s.own.WithoutEmerg(p)), 0, NOBODY, false)
      else Reply(s.(own := s.own.WithoutNewlib(p)), 0, NOBODY, p !in s.own.newlib)
  {}

  lemma BigGrants(own: Owners, p: int, n: nat, bytes: Bytes)
    requires own.Ok() && Fresh(own.newlib, own.vgl, p, |bytes|) && |bytes| == n
    ensures var t := own.WithBig(p, bytes); Granted(own.live, t.live, p, n) && t.big == own.big + {p}
  {
    own.AddBig(p, bytes);
  }

  lemma HeaderIs(own: Owners, q: int)
    requires own.Ok() && q in own.emerg
    ensures var a := q - EMERG_HDR;
            && a in own.vgl && q in own.live && 4 <= EMERG_HDR <= |own.vgl[a]| == EMERG_HDR + |own.live[q]|
            && GetSize(own.vgl[a]) == |own.live[q]| && own.vgl[a][EMERG_HDR..] == own.live[q]
  {
    assert own.Owned(q);
  }

  lemma NewlibIs(own: Owners, q: int)
    requires own.Ok() && q in own.newlib
    ensures q in own.live && own.live[q] == own.newlib[q]
  {
    assert own.Owned(q);
  }

  lemma PrefixIs(b: Bytes, n: nat, data: Bytes)
    requires data == b[..if |b| < n then |b| else n]
    ensures data == Prefix(b, n) && |data| <= n
  {}

  lemma ReallocEmerg(s: State, q: Word, n: Word)
    requires s.own.Ok() && q in s.own.emerg && q != 0
    ensures var r := Malloc(s, n);
            if r.p == 0 || r.fault then Realloc(s, q, n) == r
            else && r.s.own.Ok() && q in s.own.live && q in r.s.own.emerg && r.p in r.s.own.live
                 && |Prefix(s.own.live[q], n)| <= n <= |r.s.own.live[r.p]|
                 && Realloc(s, q, n) == r.(s := r.s.(own := r.s.own.Write(r.p, Prefix(s.own.live[q], n)).WithoutEmerg(q)))
  {
    RequestMeans(s, n, 16, true);
    HeaderIs(s.own, q);
    hide Request, Owners.Ok, Served;
  }

  lemma ReallocNewlib(s: State, q: Word, n: Word, g: Got)
    requires s.own.Ok() && q in s.own.newlib && q !in s.own.emerg && q != 0 && g == ResizeAsk(s.Below(), q, n)
    ensures var t, story := s.(clock := g.clock), Story([], g.asks, []);
            && t.own.Ok()
            && Realloc(s, q, n) ==
               if g.p != 0 then Reply(t.(own := s.own.WithoutNewlib(q).WithNewlib(g.p, g.bytes)), g.p, story, false)
               else if n == 0 then
                 Reply(if s.world(s.clock).works then t.(own := s.own.WithoutNewlib(q)) else t, 0, story, false)
               else Evict(t, q, n, story)
  {
    hide ResizeAsk, Evict, Owners.Ok;
  }

  lemma EvictCases(s: State, q: Word, n: Word, story: Story)
    requires s.own.Ok() && q in s.own.newlib
    ensures var r := Emerg(s, n, 16, story);
            && Serves(s, r, n)
            && (if r.p == 0 || r.fault then Evict(s, q, n, story) == r
                else && r.s.own.Ok() && q in s.own.live && q in r.s.own.newlib && r.p in r.s.own.live
                     && |Prefix(s.own.live[q], n)| <= n <= |r.s.own.live[r.p]|
                     && Evict(s, q, n, story) == r.(s := r.s.(own := r.s.own.Write(r.p, Prefix(s.own.live[q], n)).WithoutNewlib(q))))
  {
    EmergMeans(s, n, 16, story);
    NewlibStays(s, n, story, q);
    NewlibIs(s.own, q);
    hide Emerg, Owners.Ok;
  }

  lemma ReallocElse(s: State, q: Word, n: Word)
    requires s.own.Ok()
    ensures q == 0 ==> Realloc(s, q, n) == Malloc(s, n)
    ensures q != 0 && q !in s.own.emerg && q !in s.own.newlib ==> Realloc(s, q, n) == Reply(s, 0, NOBODY, true)
  {}

  lemma ReplacesMeans(s: State, r: Reply, q: int, n: int)
    ensures Serves(s, r, n) && !r.fault ==>
              if r.p == 0 then r.s.own.live == s.own.live else Granted(s.own.live, r.s.own.live, r.p, n)
    ensures Replaces(s, r, q, n) ==>
              if r.p != 0 then Moved(s.own.live, r.s.own.live, q, r.p, n)
              else r.s.own.live == s.own.live || (n == 0 && r.s.own.live == s.own.live - {q})
  {}

  lemma StepCases(s: State, held: Held, c: Call)
    requires s.own.Ok() && HeldIn(held, s.own)
    ensures match c
      case New(n) => Step(s, held, c) == Malloc(s, n)
      case Zeroed(a, b) => Step(s, held, c) == Calloc(s, Product(a, b))
      case Aligned(al, n) => Step(s, held, c) == Memalign(s, al, n)
      case Resize(q, n) => Step(s, held, c) == Realloc(s, q, n)
      case Release(p) => Step(s, held, c) == Free(s, p)
      case Write(q, data) =>
        if Fits(held, q, data) then
          && q in s.own.live && |data| <= |s.own.live[q]|
          && Step(s, held, c) == Reply(s.(own := s.own.Write(q, data)), 0, NOBODY, false)
        else Step(s, held, c) == Reply(s, 0, NOBODY, true)
  {}

  lemma NothingHeld(own: Owners)
    ensures HeldIn(map[], own)
  {}

  // A run with the answers to earlier calls.
  function Later(answers: seq<int>, e: End): End { e.(answers := answers + e.answers) }

  lemma RunOn(s: State, held: Held, cs: seq<Call>, answers: seq<int>)
    requires s.own.Ok() && HeldIn(held, s.own)
    ensures Later([], Run(s, held, cs)) == Run(s, held, cs)
    ensures cs == [] ==> Later(answers, Run(s, held, cs)) == End(s, held, answers, false)
  {}

  lemma NextCall(s: State, held: Held, cs: seq<Call>, answers: seq<int>)
    requires s.own.Ok() && HeldIn(held, s.own) && cs != []
    ensures var r := Step(s, held, cs[0]);
            if r.fault then Later(answers, Run(s, held, cs)) == End(s, held, answers, true)
            else && r.s.own.Ok() && HeldIn(Kept(held, cs[0], r.p), r.s.own)
                 && Later(answers, Run(s, held, cs)) == Later(answers + [r.p], Run(r.s, Kept(held, cs[0], r.p), cs[1..]))
  {
    StepKeeps(s, held, cs[0]);
    var r := Step(s, held, cs[0]);
    hide Step, Kept, Owners.Ok, HeldIn;
    if !r.fault {
      var e := Run(r.s, Kept(held, cs[0], r.p), cs[1..]);
      assert answers + ([r.p] + e.answers) == (answers + [r.p]) + e.answers;
    }
  }

  // The ways that a request goes.
  lemma RequestCases(s: State, n: Word, al: int, viaBig: bool, b: Got, g: Got)
    requires b == if viaBig then BigAsk(s.Below(), n, s.BigFull()) else Got(0, [], s.clock, [])
    requires b.p == 0 ==> g == NewlibAsk(s.(clock := b.clock).Below(), n, false)
    ensures Request(s, n, al, viaBig) ==
      if b.p != 0 then Reply(s.(clock := b.clock, own := s.own.WithBig(b.p, b.bytes)), b.p, Story(b.asks, [], []), false)
      else if g.p != 0 then
        Reply(s.(clock := g.clock, own := s.own.WithNewlib(g.p, g.bytes)), g.p, Story(b.asks, g.asks, []), false)
      else Emerg(s.(clock := g.clock), n, al, Story(b.asks, g.asks, []))
  {
    hide BigAsk, NewlibAsk, Emerg;
  }

  // The ways that the emergency allocator goes.
  lemma EmergCases(s: State, n: Word, al: int, story: Story, g: Got)
    requires g == EmergAsk(s.Below(), n, EmergFull(al, |s.own.emerg|))
    ensures var r, t := Emerg(s, n, al, story), s.(clock := g.clock);
            && r.story == story.(emerg := g.asks) && r.p == (if g.p == 0 then 0 else g.p + EMERG_HDR)
            && r.fault == (g.p != 0 && n + EMERG_HDR >= WORDS)
            && (g.p == 0 ==> r.s == t)
            && (g.p != 0 ==> !EmergFull(al, |s.own.emerg|) && Fresh(s.own.newlib, s.own.vgl, g.p, |g.bytes|))
            && (g.p != 0 && n + EMERG_HDR < WORDS ==>
                  |g.bytes| == n + EMERG_HDR && r.s == t.(own := s.own.WithEmerg(g.p, Header(n, g.bytes))))
  {
    SameRequest(n);
  }

  // ---- alignment

  // A power of two, as far as the emergency allocator can tell.
  predicate IsAlignment(al: int) { al > 0 && (al <= EMERG_HDR ==> al in {1, 2, 4, 8, 16}) }

  predicate AlignedAnswers(t: seq<Ask>, al: int)
    requires al > 0
  {
    forall k :: 0 <= k < |t| ==> t[k].answer % al == 0
  }

  // When the underlying allocators align what they hand out, the pointer is aligned, the
  // emergency allocator's too: it moves the pointer by the header, but serves alignments up to
  // that of the header only.
  lemma MemalignAligns(s: Story, n: int, al: Word, viaBig: bool, bigFull: bool, room: int, live: int, p: int)
    requires IsAlignment(al) && Served(s, n, viaBig, bigFull, room, al > 16 || live >= 8192, p)
    requires AlignedAnswers(s.big, al) && AlignedAnswers(s.newlib, al) && AlignedAnswers(s.emerg, al)
    ensures p % al == 0
  {
    if Answer(s.big) == 0 && Answer(s.newlib) == 0 && !(al > 16 || live >= 8192) && Answer(s.emerg) != 0 {
      HeaderAligns(Answer(s.emerg), al);
    }
  }

  lemma HeaderAligns(x: int, al: int)
    requires al in {1, 2, 4, 8, 16} && x % al == 0
    ensures (x + EMERG_HDR) % al == 0
  {
    if al == 1 {} else if al == 2 {} else if al == 4 {} else if al == 8 {} else {}
  }
}
