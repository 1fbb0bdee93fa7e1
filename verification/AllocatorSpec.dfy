// What the facade of loader/default_dynlib.c does to the memory beneath it, as functions of the
// answers of the underlying allocators, and what a client of it can rely on over whole runs.

module AllocatorSpec {
  import opened EmergencySet
  import opened HeapOwners
  import opened Words

  const BIG_SLOTS: int := 8
  const MB: int := 1024 * 1024

  // ---- which source is asked when

  datatype Pool = Phycont | Budget | Ram | Vram | Newlib

  datatype Ask = Ask(pool: Pool, n: int, answer: int)   // answer 0 is a refusal

  datatype Story = Story(big: seq<Ask>, newlib: seq<Ask>, emerg: seq<Ask>)

  const NOBODY: Story := Story([], [], [])

  function Answer(t: seq<Ask>): int { if t == [] then 0 else t[|t| - 1].answer }

  // One pool, and the other one if it refuses.
  predicate Tried(t: seq<Ask>, n: int, x: Pool, y: Pool) {
    && t != [] && t[0].pool == x && t[0].n == n
    && (if t[0].answer != 0 then |t| == 1 else |t| == 2 && t[1].pool == y && t[1].n == n)
  }

  // Blocks from 25 MB on come from either pool, smaller ones from 6 MB on from the second one if
  // it reports room.
  predicate BigAsked(t: seq<Ask>, n: int, full: bool, room: int) {
    if n < 0x60_0000 || full then t == []
    else if n >= 0x190_0000 then Tried(t, n, Phycont, Budget)
    else if n > room then t == []
    else |t| == 1 && t[0].pool == Budget && t[0].n == n
  }

  predicate EmergAsked(t: seq<Ask>, n: int, full: bool, p: int) {
    if full then t == [] && p == 0
    else Tried(t, (n + 16) % 0x1_0000_0000, Ram, Vram) && p == (if Answer(t) == 0 then 0 else Answer(t) + 16) && Answer(t) >= 0
  }

  // The big table, then newlib, then the emergency allocator: the first that has a block serves
  // the request, and it fails only when all refuse.
  predicate Served(s: Story, n: int, viaBig: bool, bigFull: bool, room: int, emergFull: bool, p: int) {
    && (if viaBig then BigAsked(s.big, n, bigFull, room) else s.big == [])
    && (if Answer(s.big) != 0 then p == Answer(s.big) && s.newlib == [] && s.emerg == []
        else AfterBig(s, n, emergFull, p))
  }

  predicate AfterBig(s: Story, n: int, emergFull: bool, p: int) {
    && |s.newlib| == 1 && s.newlib[0].pool == Newlib && s.newlib[0].n == n
    && (if Answer(s.newlib) != 0 then p == Answer(s.newlib) && s.emerg == []
        else EmergAsked(s.emerg, n, emergFull, p))
  }

  lemma NotAsked(t: seq<Ask>, n: int, full: bool, p: int)
    requires EmergAsked(t, n, full, p)
    ensures t == [] <==> full
  {}

  // NULL only if newlib refused, and either the emergency allocator was full or both of its pools
  // refused.
  lemma NullMeans(s: Story, n: int, viaBig: bool, bigFull: bool, room: int, emergFull: bool, p: int)
    requires Served(s, n, viaBig, bigFull, room, emergFull, p) && p == 0
    ensures var m := (n + 16) % 0x1_0000_0000;
            s.newlib == [Ask(Newlib, n, 0)] &&
            s.emerg == if emergFull then [] else [Ask(Ram, m, 0), Ask(Vram, m, 0)]
  {}

  predicate EmergFull(al: int, live: int) { al > 16 || live >= EMERG_SET / 2 }

  // ---- the answers

  // The world has an offer for each time that an underlying allocator is asked.
  datatype Heaps = Heaps(world: nat -> Offer, clock: nat, newlib: Heap, vgl: Heap)

  datatype Got = Got(p: int, bytes: Bytes, clock: nat, asks: seq<Ask>)   // p == 0 for a refusal

  predicate NewBlock(h: Heaps, g: Got, n: int) { g.p != 0 ==> |g.bytes| == n && Fresh(h.newlib, h.vgl, g.p, n) }

  function VglAsk(h: Heaps, pool: Pool, n: int): (g: Got)
    ensures NewBlock(h, g, n) && g.asks == [Ask(pool, n, g.p)]
  {
    var o := h.world(h.clock);
    var p := Taken(o, h.newlib, h.vgl, n);
    Got(p, o.bytes, h.clock + 1, [Ask(pool, n, p)])
  }

  function EitherAsk(h: Heaps, x: Pool, y: Pool, n: int): (g: Got)
    ensures NewBlock(h, g, n) && Tried(g.asks, n, x, y) && g.p == Answer(g.asks)
  {
    var g := VglAsk(h, x, n);
    if g.p != 0 then g else var k := VglAsk(h.(clock := g.clock), y, n); k.(asks := g.asks + k.asks)
  }

  function BigAsk(h: Heaps, n: int, full: bool): (g: Got)
    ensures NewBlock(h, g, n) && BigAsked(g.asks, n, full, h.world(h.clock).room) && g.p == Answer(g.asks)
    ensures g.p != 0 ==> n >= 0x60_0000 && !full
  {
    if n < 6 * MB || full then Got(0, [], h.clock, [])
    else if n >= 25 * MB then EitherAsk(h, Phycont, Budget, n)
    else if n <= h.world(h.clock).room then VglAsk(h.(clock := h.clock + 1), Budget, n)
    else Got(0, [], h.clock + 1, [])
  }

  function EmergAsk(h: Heaps, n: int, full: bool): (g: Got)
    ensures NewBlock(h, g, (n + EMERG_HDR) % WORDS)
    ensures EmergAsked(g.asks, n, full, if g.p == 0 then 0 else g.p + EMERG_HDR)
  {
    if full then Got(0, [], h.clock, []) else EitherAsk(h, Ram, Vram, (n + EMERG_HDR) % WORDS)
  }

  // newlib's malloc, calloc and memalign.
  function NewlibAsk(h: Heaps, n: int, zeroed: bool): (g: Got)
    ensures g.p != 0 ==> n <= |g.bytes| && Fresh(h.newlib, h.vgl, g.p, |g.bytes|) && (zeroed ==> ZeroUpTo(g.bytes, n))
    ensures g.asks == [Ask(Newlib, n, g.p)]
  {
    var o := h.world(h.clock);
    var p := if Fresh(h.newlib, h.vgl, o.at, |o.bytes|) && n <= |o.bytes| && (zeroed ==> ZeroUpTo(o.bytes, n)) then o.at else 0;
    Got(p, o.bytes, h.clock + 1, [Ask(Newlib, n, p)])
  }

  // newlib's realloc: a failure, or a resized block that keeps the common prefix.
  function ResizeAsk(h: Heaps, q: int, n: int): (g: Got)
    requires q in h.newlib
    ensures g.p != 0 ==> n <= |g.bytes| && Fresh(h.newlib - {q}, h.vgl, g.p, |g.bytes|)
                         && SamePrefix(h.newlib[q], g.bytes, n)
    ensures g.asks == [Ask(Newlib, n, g.p)]
  {
    var o := h.world(h.clock);
    var p := if o.works && Fresh(h.newlib - {q}, h.vgl, o.at, |o.bytes|) && n <= |o.bytes|
                && SamePrefix(h.newlib[q], o.bytes, n) then o.at else 0;
    Got(p, o.bytes, h.clock + 1, [Ask(Newlib, n, p)])
  }

  predicate ZeroUpTo(a: Bytes, n: int) { forall k :: 0 <= k < |a| && k < n ==> a[k] == 0 }

  predicate SamePrefix(a: Bytes, b: Bytes, n: int) {
    forall k :: 0 <= k < |a| && k < |b| && k < n ==> a[k] == b[k]
  }

  // ---- the calls

  datatype State = State(world: nat -> Offer, clock: nat, own: Owners) {
    function Below(): Heaps { Heaps(world, clock, own.newlib, own.vgl) }

    predicate BigFull() { |own.big| >= BIG_SLOTS }

    // What the pool for big blocks reports when it is asked next.
    function Room(): int { world(clock).room }
  }

  // fault: an underlying allocator was handed a pointer that it does not own, or the client a
  // block that is shorter than it asked for.
  datatype Reply = Reply(s: State, p: int, story: Story, fault: bool)

  function Header(n: Word, bytes: Bytes): (r: Bytes)
    requires |bytes| >= EMERG_HDR
    ensures |r| == |bytes|
  {
    PutSize(n) + bytes[4..]
  }

  // Behind its header, if the index and the alignment admit it.
  function Emerg(s: State, n: Word, al: int, story: Story): Reply {
    var g := EmergAsk(s.Below(), n, EmergFull(al, |s.own.emerg|));
    var t, story' := s.(clock := g.clock), story.(emerg := g.asks);
    if g.p == 0 then Reply(t, 0, story', false)
    else if n + EMERG_HDR >= WORDS then Reply(t, g.p + EMERG_HDR, story', true)
    else Reply(t.(own := s.own.WithEmerg(g.p, Header(n, g.bytes))), g.p + EMERG_HDR, story', false)
  }

  // malloc, and memalign with viaBig for an alignment up to 4096.
  function Request(s: State, n: Word, al: int, viaBig: bool): Reply {
    var b := if viaBig then BigAsk(s.Below(), n, s.BigFull()) else Got(0, [], s.clock, []);
    if b.p != 0 then Reply(s.(clock := b.clock, own := s.own.WithBig(b.p, b.bytes)), b.p, Story(b.asks, [], []), false)
    else
      var t := s.(clock := b.clock);
      var g := NewlibAsk(t.Below(), n, false);
      if g.p != 0 then Reply(t.(clock := g.clock, own := s.own.WithNewlib(g.p, g.bytes)), g.p, Story(b.asks, g.asks, []), false)
      else Emerg(t.(clock := g.clock), n, al, Story(b.asks, g.asks, []))
  }

  function Malloc(s: State, n: Word): Reply { Request(s, n, 16, true) }

  function Memalign(s: State, al: Word, n: Word): Reply { Request(s, n, al, al <= 4096) }

  function Zeros(n: nat): Bytes { seq(n, _ => 0) }

  function Product(a: nat, b: nat): nat { a * b }

  // calloc of n = a * b bytes. The emergency branch takes the product in 32-bit arithmetic.
  ghost function Calloc(s: State, n: nat): Reply
    requires s.own.Ok()
  {
    var g := NewlibAsk(s.Below(), n, true);
    var t, story := s.(clock := g.clock), Story([], g.asks, []);
    if g.p != 0 then Reply(t.(own := s.own.WithNewlib(g.p, g.bytes)), g.p, story, false)
    else if n < WORDS then Cleared(t, n, story)
    else
      var r := Emerg(t, n % WORDS, 16, story);
      r.(fault := r.p != 0)
  }

  ghost function Cleared(s: State, n: Word, story: Story): Reply
    requires s.own.Ok()
  {
    var r := Emerg(s, n, 16, story);
    EmergMeans(s, n, 16, story);
    if r.p == 0 || r.fault then r else r.(s := r.s.(own := r.s.own.Write(r.p, Zeros(n))))
  }

  function Prefix(b: Bytes, n: nat): Bytes { if |b| < n then b else b[..n] }

  // A new block in the place of q.
  ghost function Realloc(s: State, q: Word, n: Word): Reply
    requires s.own.Ok()
  {
    if q == 0 then Malloc(s, n)
    else if q in s.own.emerg then
      var r := Malloc(s, n);
      RequestMeans(s, n, 16, true);
      if r.p == 0 || r.fault then r else r.(s := r.s.(own := Copied(s, r, q, n).WithoutEmerg(q)))
    else if q !in s.own.newlib then Reply(s, 0, NOBODY, true)
    else
      var g := ResizeAsk(s.Below(), q, n);
      var t, story := s.(clock := g.clock), Story([], g.asks, []);
      if g.p != 0 then Reply(t.(own := s.own.WithoutNewlib(q).WithNewlib(g.p, g.bytes)), g.p, story, false)
      else if n == 0 then
        Reply(if s.world(s.clock).works then t.(own := s.own.WithoutNewlib(q)) else t, 0, story, false)
      else Evict(t, q, n, story)
  }

  // newlib's block moves to the emergency allocator.
  ghost function Evict(s: State, q: Word, n: Word, story: Story): Reply
    requires s.own.Ok() && q in s.own.newlib
  {
    var r := Emerg(s, n, 16, story);
    EmergMeans(s, n, 16, story);
    if r.p == 0 || r.fault then r else r.(s := r.s.(own := Copied(s, r, q, n).WithoutNewlib(q)))
  }

  ghost function Copied(s: State, r: Reply, q: int, n: nat): Owners
    requires s.own.Ok() && r.s.own.Ok() && (q in s.own.emerg || q in s.own.newlib) && Granted(s.own.live, r.s.own.live, r.p, n)
  {
    r.s.own.Write(r.p, Prefix(s.own.live[q], n))
  }

  // A pointer goes back to where it came from; newlib gets whatever the other two do not claim.
  function Free(s: State, p: Word): Reply {
    if p == 0 then Reply(s, 0, NOBODY, false)
    else if p in s.own.big then Reply(s.(own := s.own.WithoutBig(p)), 0, NOBODY, false)
    else if p in s.own.emerg then Reply(s.(own := s.own.WithoutEmerg(p)), 0, NOBODY, false)
    else Reply(s.(own := s.own.WithoutNewlib(p)), 0, NOBODY, p !in s.own.newlib)
  }

  // ---- what they mean for the live pointers

  // Block q was replaced by block p of at least n bytes, which starts like q did.
  ghost predicate Moved(before: Heap, after: Heap, q: int, p: int, n: int) {
    && q in before && p in after && |after[p]| >= n && SamePrefix(before[q], after[p], n)
    && p !in before - {q} && after == (before - {q})[p := after[p]]
  }

  // The client got a new pointer to at least n bytes, and nothing else changed for it.
  ghost predicate Granted(before: Heap, after: Heap, p: int, n: int) {
    p !in before && p in after && |after[p]| >= n && after == before[p := after[p]]
  }

  // The block has fewer than n bytes, because adding the header wraps around.
  predicate Short(p: int, story: Story, n: int) { p != 0 && story.emerg != [] && n + 16 >= 0x1_0000_0000 }

  // What a granted request leaves.
  ghost predicate Serves(s: State, r: Reply, n: int) {
    && r.s.world == s.world
    && (r.p == 0 ==> r.s.own == s.own && !r.fault)
    && (r.p != 0 && !r.fault ==>
          && r.s.own.Ok() && 0 < r.p < WORDS && Granted(s.own.live, r.s.own.live, r.p, n)
          && s.own.emerg <= r.s.own.emerg
          && (forall q :: q in r.s.own.big ==> q in s.own.big || (q == r.p && n >= 0x60_0000)))
  }

  lemma SameRequest(n: nat)
    ensures (n % WORDS + EMERG_HDR) % WORDS == (n + EMERG_HDR) % WORDS
    ensures n + EMERG_HDR < WORDS ==> (n + EMERG_HDR) % WORDS == n + EMERG_HDR
  {}

  lemma HeaderSize(n: Word, bytes: Bytes)
    requires |bytes| >= EMERG_HDR
    ensures GetSize(Header(n, bytes)) == n
  {
    SizeRoundTrip(n, bytes[4..]);
  }

  lemma EmergMeans(s: State, n: Word, al: int, story: Story)
    requires s.own.Ok()
    ensures var r := Emerg(s, n, al, story);
            && Serves(s, r, n) && r.story == story.(emerg := r.story.emerg)
            && EmergAsked(r.story.emerg, n, al > 16 || |s.own.emerg| >= 8192, r.p)
            && r.fault == (r.p != 0 && n + 16 >= 0x1_0000_0000)
            && (r.p != 0 ==> r.story.emerg != [])
            && (r.p != 0 && !r.fault ==> |r.s.own.live[r.p]| == n && r.s.own.big == s.own.big)
  {
    var g := EmergAsk(s.Below(), n, EmergFull(al, |s.own.emerg|));
    SameRequest(n);
    if g.p != 0 && n + EMERG_HDR < WORDS {
      HeaderSize(n, g.bytes);
      s.own.AddEmerg(g.p, Header(n, g.bytes));
      hide Owners.Ok, GetSize, PutSize;
    }
  }

  lemma RequestMeans(s: State, n: Word, al: int, viaBig: bool)
    requires s.own.Ok()
    ensures var r := Request(s, n, al, viaBig);
            && Serves(s, r, n)
            && Served(r.story, n, viaBig, |s.own.big| >= 8, s.Room(), al > 16 || |s.own.emerg| >= 8192, r.p)
            && r.fault == Short(r.p, r.story, n)
  {
    var b := if viaBig then BigAsk(s.Below(), n, s.BigFull()) else Got(0, [], s.clock, []);
    hide Owners.Ok, BigAsk, BigAsked, EmergAsked, Emerg;
    if b.p != 0 {
      s.own.AddBig(b.p, b.bytes);
    } else {
      var t := s.(clock := b.clock);
      var g := NewlibAsk(t.Below(), n, false);
      if g.p != 0 { s.own.AddNewlib(g.p, g.bytes); }
      EmergMeans(t.(clock := g.clock), n, al, Story(b.asks, g.asks, []));
    }
  }

  lemma RewrittenIsGranted(before: Heap, granted: Heap, p: int, n: int, data: Bytes)
    requires Granted(before, granted, p, n) && |data| <= |granted[p]|
    ensures Granted(before, granted[p := data + granted[p][|data|..]], p, n)
  {}

  lemma CopiedThenFreed(before: Heap, granted: Heap, q: int, p: int, n: nat)
    requires q in before && Granted(before, granted, p, n)
    ensures var data := Prefix(before[q], n);
            |data| <= |granted[p]| && Moved(before, granted[p := data + granted[p][|data|..]] - {q}, q, p, n)
  {}

  lemma ZerosAre(n: nat, rest: Bytes)
    ensures ZeroUpTo(Zeros(n) + rest, n)
  {}

  // The client gets n zeros, and the block is too short exactly when the emergency allocator
  // serves it and the product, or that and the header, exceeds 32 bits.
  lemma CallocMeans(s: State, n: nat)
    requires s.own.Ok()
    ensures var r := Calloc(s, n);
            && Serves(s, r, n)
            && Served(r.story, n, false, true, 0, |s.own.emerg| >= 8192, r.p)
            && r.fault == Short(r.p, r.story, n)
            && (r.p != 0 && !r.fault ==> ZeroUpTo(r.s.own.live[r.p], n))
  {
    var g := NewlibAsk(s.Below(), n, true);
    var t, story := s.(clock := g.clock), Story([], g.asks, []);
    hide Owners.Ok, Emerg;
    SameRequest(n);
    if g.p != 0 {
      s.own.AddNewlib(g.p, g.bytes);
    } else if n < WORDS {
      ClearedMeans(t, n, story);
    } else {
      EmergMeans(t, n % WORDS, 16, story);
    }
  }

  lemma ClearedMeans(s: State, n: Word, story: Story)
    requires s.own.Ok()
    ensures var r := Cleared(s, n, story);
            && Serves(s, r, n) && r.story == story.(emerg := r.story.emerg)
            && EmergAsked(r.story.emerg, n, |s.own.emerg| >= 8192, r.p)
            && r.fault == (r.p != 0 && n + 16 >= 0x1_0000_0000)
            && (r.p != 0 ==> r.story.emerg != [])
            && (r.p != 0 && !r.fault ==> ZeroUpTo(r.s.own.live[r.p], n) && r.s.own.big == s.own.big)
  {
    var r := Emerg(s, n, 16, story);
    EmergMeans(s, n, 16, story);
    hide Emerg, EmergAsked;
    if r.p != 0 && !r.fault {
      r.s.own.WriteIsLocal(r.p, Zeros(n));
      r.s.own.WriteCases(r.p, Zeros(n));
      RewrittenIsGranted(s.own.live, r.s.own.live, r.p, n, Zeros(n));
      ZerosAre(n, r.s.own.live[r.p][n..]);
    }
  }

  // Who is asked, when newlib is handed a pointer that it does not own, and what becomes of the
  // block.
  lemma ReallocMeans(s: State, q: Word, n: Word)
    requires s.own.Ok()
    ensures var r := Realloc(s, q, n);
            && r.s.world == s.world
            // NULL and emergency blocks are served like a new request, newlib's own blocks by
            // newlib and then by the emergency allocator
            && (q == 0 || q in s.own.emerg ==> Served(r.story, n, true, |s.own.big| >= 8, s.Room(), |s.own.emerg| >= 8192, r.p))
            && (q in s.own.newlib && n != 0 ==> AfterBig(r.story, n, |s.own.emerg| >= 8192, r.p))
            && r.fault == ((q != 0 && q !in s.own.newlib && q !in s.own.emerg)
                           || Short(r.p, r.story, n))
            && (q == 0 ==> Serves(s, r, n))
            && (q != 0 && !r.fault ==> r.s.own.Ok() && Replaces(s, r, q, n))
  {
    if q == 0 {
      RequestMeans(s, n, 16, true);
    } else if q in s.own.emerg {
      RequestMeans(s, n, 16, true);
      hide Request, Served;
      MovedFromEmerg(s, q, n);
    } else if q in s.own.newlib {
      hide Owners.Ok, Emerg;
      MovedFromNewlib(s, q, n);
    }
  }

  // What a resize leaves: the new block in the place of q, or the old one, which a size of zero
  // may free.
  ghost predicate Replaces(s: State, r: Reply, q: int, n: int) {
    && (if r.p != 0 then Moved(s.own.live, r.s.own.live, q, r.p, n) && 0 < r.p < WORDS
        else r.s.own == s.own || (n == 0 && r.s.own == s.own.WithoutNewlib(q)))
    && forall x :: x in r.s.own.big ==> x in s.own.big || (x == r.p && n >= 0x60_0000)
  }

  lemma MovedFromEmerg(s: State, q: Word, n: Word)
    requires s.own.Ok() && q in s.own.emerg && q != 0
    ensures var r := Realloc(s, q, n); !r.fault ==> r.s.own.Ok() && Replaces(s, r, q, n)
  {
    s.own.DropEmerg(q);
    hide Request, Served, Owners.Ok;
    var r := Malloc(s, n);
    RequestMeans(s, n, 16, true);
    if r.p != 0 && !r.fault {
      var data := Prefix(s.own.live[q], n);
      CopiedThenFreed(s.own.live, r.s.own.live, q, r.p, n);
      r.s.own.WriteIsLocal(r.p, data);
      r.s.own.WriteCases(r.p, data);
      r.s.own.Write(r.p, data).DropEmerg(q);
      hide Granted, Moved;
    }
  }

  lemma MovedFromNewlib(s: State, q: Word, n: Word)
    requires s.own.Ok() && q in s.own.newlib && q !in s.own.emerg && q != 0
    ensures var r := Realloc(s, q, n);
            && r.s.world == s.world && (n != 0 ==> AfterBig(r.story, n, |s.own.emerg| >= 8192, r.p))
            && r.fault == Short(r.p, r.story, n)
            && (!r.fault ==> r.s.own.Ok() && Replaces(s, r, q, n))
  {
    var g := ResizeAsk(s.Below(), q, n);
    s.own.DropNewlib(q);
    hide Owners.Ok, Emerg;
    if g.p != 0 {
      s.own.WithoutNewlib(q).AddNewlib(g.p, g.bytes);
      hide Fresh;
    } else if n != 0 {
      EvictMeans(s.(clock := g.clock), q, n, Story([], g.asks, []));
      hide Evict;
    }
  }

  lemma EvictMeans(s: State, q: Word, n: Word, story: Story)
    requires s.own.Ok() && q in s.own.newlib && n != 0
    ensures var r := Evict(s, q, n, story);
            && EmergAsked(r.story.emerg, n, |s.own.emerg| >= 8192, r.p)
            && r.s.world == s.world && r.story == story.(emerg := r.story.emerg)
            && r.fault == (r.p != 0 && n + 16 >= 0x1_0000_0000) && (r.p != 0 ==> r.story.emerg != [])
            && (!r.fault ==> r.s.own.Ok() && Replaces(s, r, q, n))
  {
    var r := Emerg(s, n, 16, story);
    EmergMeans(s, n, 16, story);
    s.own.DropNewlib(q);
    if r.p != 0 && !r.fault {
      var data := Prefix(s.own.live[q], n);
      CopiedThenFreed(s.own.live, r.s.own.live, q, r.p, n);
      r.s.own.WriteIsLocal(r.p, data);
      r.s.own.WriteCases(r.p, data);
      NewlibStays(s, n, story, q);
      r.s.own.Write(r.p, data).DropNewlib(q);
      hide Owners.Ok, Emerg, EmergAsked, Granted, Moved;
    }
  }

  lemma NewlibStays(s: State, n: Word, story: Story, q: int)
    requires q in s.own.newlib
    ensures q in Emerg(s, n, 16, story).s.own.newlib
  {}
}
