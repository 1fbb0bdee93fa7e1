// The emergency allocator's pointer index (loader/default_dynlib.c): a fixed-size
// open-addressing hash set with wrap-around linear probing, which deletes without
// tombstones by re-inserting the probe chain behind the hole in place.

module EmergencySet {
  import opened Words

  const EMERG_SET: int := 16384

  // The home slot of a pointer (NULL is 0); the product is taken in 32-bit unsigned arithmetic.
  function Home(p: Word): (h: nat)
    ensures h < EMERG_SET
  {
    (p / 16) * 2654435761 % WORDS % EMERG_SET
  }

  // How many steps of (i + 1) % EMERG_SET lead from slot a to slot b.
  function Steps(a: int, b: int): int {
    if a <= b then b - a else b - a + EMERG_SET
  }

  predicate Slot(i: int) { 0 <= i < EMERG_SET }

  predicate Table(s: seq<Word>) { |s| == EMERG_SET }

  // The plain set the table stands for.
  ghost function Elems(s: seq<Word>): set<Word> {
    set p | p in s && p != 0
  }

  ghost predicate Distinct(s: seq<Word>) {
    forall a, b :: 0 <= a < b < |s| && s[a] != 0 ==> s[a] != s[b]
  }

  // Slot b lies on the way from h to a, a itself excluded.
  predicate Before(h: int, b: int, a: int) { Steps(h, b) < Steps(h, a) }

  // Slot b is empty although it lies on the probe path of the pointer in slot a.
  predicate Hole(s: seq<Word>, a: int, b: int)
    requires Table(s)
  {
    Slot(a) && Slot(b) && s[a] != 0 && s[b] == 0 && Before(Home(s[a]), b, a)
  }

  ghost predicate Index(s: seq<Word>) {
    Table(s) && Distinct(s) && forall a, b :: !Hole(s, a, b)
  }

  // A probe that met only other pointers on its way from p's home to k, and finds k empty.
  ghost predicate Probed(s: seq<Word>, p: Word, k: int)
    requires Table(s)
  {
    Slot(k) && s[k] == 0 &&
    forall b :: Slot(b) && Before(Home(p), b, k) ==> s[b] != 0
  }

  // Slot by slot: from the hash of the pointer on, around the end of the table, up to the first
  // empty one, d slots further; slot e of these is taken.
  lemma ProbedMeans(s: seq<Word>, p: Word, k: int, e: nat) returns (d: nat)
    requires Table(s) && Probed(s, p, k)
    ensures |s| == 16384
    ensures var h := p / 16 * 2654435761 % 0x1_0000_0000;
            && k == (h + d) % 16384 && s[k] == 0 && d < 16384
            && (e < d ==> s[(h + e) % 16384] != 0)
  {
    hide Elems;
    var h := p / 16 * 2654435761 % 0x1_0000_0000;
    d := Steps(Home(p), k);
    assert Home(p) == h % 16384;
    hide Home;
    StepsLead(h, d);
    if e < d {
      StepsLead(h, e);
      assert Before(Home(p), (h + e) % 16384, k);
    }
    StepsBack(Home(p), k);
  }

  lemma StepsBack(a: int, k: int)
    requires Slot(a) && Slot(k)
    ensures 0 <= Steps(a, k) < 16384 && (a + Steps(a, k)) % 16384 == k
  {}

  lemma StepsLead(h: int, e: int)
    requires h >= 0 && 0 <= e < 16384
    ensures 0 <= (h + e) % 16384 < 16384 && Steps(h % 16384, (h + e) % 16384) == e
  {}

  // An empty slot ends every probe: a pointer whose probe reaches a hole is not stored.
  lemma HoleMeansAbsent(s: seq<Word>, p: Word, k: int)
    requires Index(s) && p != 0 && Slot(k) && s[k] == 0
    requires forall b :: Slot(b) && Before(Home(p), b, k) ==> s[b] != p
    ensures p !in s
  {
    if a :| 0 <= a < |s| && s[a] == p {
      assert !Hole(s, a, k);
    }
  }

  lemma {:induction false} FullCount(s: seq<Word>, n: nat)
    requires n <= |s| && Distinct(s) && forall a :: 0 <= a < n ==> s[a] != 0
    ensures |Elems(s[..n])| == n
  {
    if n > 0 {
      FullCount(s, n - 1);
      assert s[..n] == s[..n - 1] + [s[n - 1]];
      assert Elems(s[..n]) == Elems(s[..n - 1]) + {s[n - 1]};
    }
  }

  // Fewer stored pointers than slots: some slot is empty, so every probe ends.
  lemma EmptySlotExists(s: seq<Word>)
    requires Table(s) && Distinct(s) && |Elems(s)| < EMERG_SET
    ensures exists e :: Slot(e) && s[e] == 0
  {
    if forall e :: Slot(e) ==> s[e] != 0 {
      assert s[..|s|] == s;
      FullCount(s, |s|);
    }
  }

  lemma ElemsStore(s: seq<Word>, k: nat, p: Word)
    requires k < |s| && p != 0 && s[k] == 0 && Distinct(s) && p !in s
    ensures Elems(s[k := p]) == Elems(s) + {p} && Distinct(s[k := p])
  {
    var t := s[k := p];
    assert t[k] == p;
    forall x | x in Elems(s) ensures x in Elems(t) {
      var a :| 0 <= a < |s| && s[a] == x;
      assert t[a] == x;
    }
  }

  lemma ElemsClear(s: seq<Word>, k: nat)
    requires k < |s| && Distinct(s) && s[k] != 0
    ensures Elems(s[k := 0]) == Elems(s) - {s[k]} && Distinct(s[k := 0]) && s[k] !in s[k := 0]
  {
    var t := s[k := 0];
    forall x | x in Elems(s) - {s[k]} ensures x in Elems(t) {
      var a :| 0 <= a < |s| && s[a] == x;
      assert t[a] == x;
    }
  }

  lemma StoreKeepsIndex(s: seq<Word>, k: int, p: Word)
    requires Index(s) && p != 0 && p !in s && Probed(s, p, k)
    ensures Index(s[k := p]) && Elems(s[k := p]) == Elems(s) + {p}
  {
    ElemsStore(s, k, p);
    var t := s[k := p];
    forall a, b ensures !Hole(t, a, b) {
      assert !Hole(s, a, b);
    }
  }

  function Next(i: int): int { (i + 1) % EMERG_SET }

  // While the chain behind hole i is re-inserted, with e the first empty slot behind it: a
  // pointer in slot a may have a hole b on its probe path only if a is still to be moved,
  // that is in [j, e), and then b is in [i, j).
  predicate Tolerated(i: int, j: int, e: int, a: int, b: int) {
    Steps(i, j) <= Steps(i, a) < Steps(i, e) && Steps(i, b) < Steps(i, j)
  }

  ghost predicate Rebuilding(s: seq<Word>, i: int, j: int, e: int) {
    && Table(s) && Distinct(s) && Slot(i) && Slot(j) && Slot(e)
    && 0 < Steps(i, j) <= Steps(i, e) && s[e] == 0
    && (forall b :: Slot(b) && Steps(i, j) <= Steps(i, b) < Steps(i, e) ==> s[b] != 0)
    && (forall a, b :: Hole(s, a, b) ==> Tolerated(i, j, e, a, b))
  }

  lemma RebuildingStart(s: seq<Word>, i: int, e: int)
    requires Index(s) && Slot(i) && Slot(e) && s[i] != 0 && s[e] == 0
    requires forall b :: Slot(b) && 0 < Steps(i, b) < Steps(i, e) ==> s[b] != 0
    ensures Rebuilding(s[i := 0], i, Next(i), e)
  {
    var t := s[i := 0];
    ElemsClear(s, i);
    forall a, b | Hole(t, a, b) ensures Tolerated(i, Next(i), e, a, b) {
      assert !Hole(s, a, b) && !Hole(s, a, e);
    }
  }

  // A path that runs through j and ends outside (j, e) also runs through e.
  lemma PathPassesEnd(h: int, i: int, j: int, e: int, a: int)
    requires Slot(h) && Slot(i) && Slot(j) && Slot(e) && Slot(a)
    requires 0 < Steps(i, j) < Steps(i, e) && Before(h, j, a) && a != e
    requires !(Steps(i, j) < Steps(i, a) < Steps(i, e))
    ensures Before(h, e, a)
  {}

  // So the slot j that was just vacated can only be missed by a pointer still to be moved.
  lemma MovedPastHole(h: int, i: int, j: int, e: int, a: int)
    requires Slot(h) && Slot(i) && Slot(j) && Slot(e) && Slot(a)
    requires 0 < Steps(i, j) < Steps(i, e) && Before(h, j, a) && a != e && !Before(h, e, a)
    ensures Tolerated(i, Next(j), e, a, j)
  {
    if !(Steps(i, j) < Steps(i, a) < Steps(i, e)) { PathPassesEnd(h, i, j, e, a); }
  }

  // One round: lift the pointer out of slot j and store it where its probe ends.
  lemma RebuildingStep(s: seq<Word>, i: int, j: int, e: int, k: int)
    requires Rebuilding(s, i, j, e) && s[j] != 0 && Probed(s[j := 0], s[j], k)
    ensures Rebuilding(s[j := 0][k := s[j]], i, Next(j), e)
    ensures Elems(s[j := 0][k := s[j]]) == Elems(s)
  {
    var q := s[j];
    var t := s[j := 0];
    var u := t[k := q];
    ElemsClear(s, j);
    ElemsStore(t, k, q);
    assert k == j || Hole(s, j, k);   // the probe ended at j itself or in a hole of [i, j)
    forall a, b | Hole(u, a, b) ensures Tolerated(i, Next(j), e, a, b) {
      assert a != k && u[a] == s[a];
      assert Hole(s, a, e) ==> Tolerated(i, j, e, a, e);
      assert b != j ==> Hole(s, a, b);
      if b == j { MovedPastHole(Home(s[a]), i, j, e, a); }
    }
  }

  // Meeting an empty slot in [j, e] means the whole chain has been moved.
  lemma RebuildingDone(s: seq<Word>, i: int, j: int, e: int)
    requires Rebuilding(s, i, j, e) && s[j] == 0
    ensures Index(s) && j == e
  {
    forall a, b ensures !Hole(s, a, b) {
      assert Hole(s, a, b) ==> Tolerated(i, j, e, a, b);
    }
  }

  class EmergencyTable {
    const slots: array<Word>   // emerg_set
    var live: int              // emerg_live

    ghost predicate Valid()
      reads this, slots
    {
      Index(slots[..]) && live == |Elems(slots[..])| && live <= EMERG_SET / 2
    }

    ghost function Contents(): set<Word>
      reads this, slots
    {
      Elems(slots[..])
    }

    constructor ()
      ensures Valid() && Contents() == {} && fresh(slots)
    {
      slots := new Word[EMERG_SET](_ => 0);
      live := 0;
      new;
      assert Contents() == {};
    }

    // emerg_find: the slot of p, or -1.
    method Find(p: Word) returns (r: int)
      requires Valid() && p != 0
      ensures (r >= 0) == (p in Contents())
      ensures if r >= 0 then r < slots.Length && slots[r] == p else r == -1
    {
      var i := Home(p);
      var k := 0;
      while k < EMERG_SET
        invariant 0 <= k <= EMERG_SET && Slot(i)
        invariant k < EMERG_SET ==> Steps(Home(p), i) == k
        invariant k == EMERG_SET ==> i == Home(p)
        invariant forall b :: Slot(b) && Steps(Home(p), b) < k ==> slots[b] != p && slots[b] != 0
      {
        if slots[i] == p { return i; }
        if slots[i] == 0 {
          HoleMeansAbsent(slots[..], p, i);
          return -1;
        }
        k, i := k + 1, (i + 1) % EMERG_SET;
      }
      return -1;
    }

    // The probing loop shared by emerg_alloc and emerg_free: the first empty slot from p's home.
    method Probe(p: Word, ghost e: int) returns (k: int)
      requires slots.Length == EMERG_SET && Slot(e) && slots[e] == 0
      ensures Probed(slots[..], p, k)
    {
      k := Home(p);
      while slots[k] != 0
        invariant Slot(k) && Steps(Home(p), k) <= Steps(Home(p), e)
        invariant forall b :: Slot(b) && Before(Home(p), b, k) ==> slots[b] != 0
        decreases Steps(Home(p), e) - Steps(Home(p), k)
      {
        k := (k + 1) % EMERG_SET;
      }
    }

    // The store of emerg_alloc, behind its guard on emerg_live.
    method Insert(p: Word)
      requires Valid() && p != 0 && p !in Contents() && live < EMERG_SET / 2
      modifies this`live, slots
      ensures Valid() && Contents() == old(Contents()) + {p}
      ensures live == old(live) + 1
    {
      EmptySlotExists(slots[..]);
      ghost var e :| Slot(e) && slots[..][e] == 0;
      var k := Probe(p, e);
      StoreKeepsIndex(slots[..], k, p);
      ghost var before := slots[..];
      slots[k] := p;
      assert slots[..] == before[k := p];
      live := live + 1;
    }

    // One round of the re-insertion loop: the pointer in slot j moves to where its probe ends.
    method Move(j: int) returns (ghost k: int)
      requires slots.Length == EMERG_SET && Slot(j) && slots[j] != 0
      modifies slots
      ensures Probed(old(slots[..])[j := 0], old(slots[j]), k)
      ensures slots[..] == old(slots[..])[j := 0][k := old(slots[j])]
    {
      var q := slots[j];
      slots[j] := 0;
      assert slots[..] == old(slots[..])[j := 0];
      var k' := Probe(q, j);
      slots[k'] := q;
      k := k';
    }

    // The re-insertion loop of emerg_free, for hole i and chain end e.
    method Reinsert(i: int, ghost e: int)
      requires Rebuilding(slots[..], i, Next(i), e)
      modifies slots
      ensures Index(slots[..]) && Elems(slots[..]) == old(Elems(slots[..]))
    {
      var j := (i + 1) % EMERG_SET;
      while slots[j] != 0
        invariant Rebuilding(slots[..], i, j, e)
        invariant Elems(slots[..]) == old(Elems(slots[..]))
        decreases Steps(i, e) - Steps(i, j)
      {
        ghost var s := slots[..];
        assert s[j] == slots[j];
        ghost var k := Move(j);
        RebuildingStep(s, i, j, e, k);
        j := (j + 1) % EMERG_SET;
      }
      RebuildingDone(slots[..], i, j, e);
    }

    // emerg_free without the release of the block.
    method Remove(p: Word) returns (found: bool)
      requires Valid() && p != 0
      modifies this`live, slots
      ensures Valid() && Contents() == old(Contents()) - {p}
      ensures found == (p in old(Contents()))
      ensures live == old(live) - (if found then 1 else 0)
    {
      var i := Find(p);
      if i < 0 { return false; }
      ghost var start := slots[..];
      ghost var e := FirstEmptyAfter(start, i);
      ElemsClear(start, i);
      RebuildingStart(start, i, e);
      live := live - 1;
      slots[i] := 0;
      assert slots[..] == start[i := 0];
      Reinsert(i, e);
      return true;
    }
  }

  // The first empty slot cyclically behind an occupied slot of a table that is not full.
  ghost method FirstEmptyAfter(s: seq<Word>, i: int) returns (e: int)
    requires Index(s) && |Elems(s)| < EMERG_SET && Slot(i) && s[i] != 0
    ensures Slot(e) && s[e] == 0
    ensures forall b :: Slot(b) && 0 < Steps(i, b) < Steps(i, e) ==> s[b] != 0
  {
    EmptySlotExists(s);
    var z :| Slot(z) && s[z] == 0;
    e := Next(i);
    while s[e] != 0
      invariant Slot(e) && 0 < Steps(i, e) <= Steps(i, z)
      invariant forall b :: Slot(b) && 0 < Steps(i, b) < Steps(i, e) ==> s[b] != 0
      decreases Steps(i, z) - Steps(i, e)
    {
      e := Next(e);
    }
  }
}
