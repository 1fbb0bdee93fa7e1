// The memory beneath the malloc/calloc/memalign/realloc/free facade of loader/default_dynlib.c:
// the two underlying heaps, and which of the three allocators owns which pointer.

module HeapOwners {
  import opened Words

  const EMERG_HDR: int := 16

  type Bytes = seq<int>            // memory cells, each holding one byte
  type Heap = map<int, Bytes>      // block address -> contents

  // ---- the size word in the header of an emergency block

  function PutSize(n: int): Bytes {
    [n % 0x100, n / 0x100 % 0x100, n / 0x1_0000 % 0x100, n / 0x100_0000]
  }

  function GetSize(s: Bytes): int
    requires |s| >= 4
  {
    s[0] + 0x100 * s[1] + 0x1_0000 * s[2] + 0x100_0000 * s[3]
  }

  lemma SizeRoundTrip(n: Word, rest: Bytes)
    ensures GetSize(PutSize(n) + rest) == n
  {
    var s := PutSize(n) + rest;
    assert s[0] == n % 0x100 && s[1] == n / 0x100 % 0x100;
    assert s[2] == n / 0x1_0000 % 0x100 && s[3] == n / 0x100_0000;
  }

  // The heaps keep their bookkeeping between blocks, so a block never starts at or before
  // the end of another one.
  predicate Apart(a: int, n: int, heap: Heap) {
    forall b :: b in heap ==> a + n < b || b + |heap[b]| < a
  }

  // The assumption on the underlying allocators: what they hand out is new.
  predicate Fresh(newlib: Heap, vgl: Heap, a: int, n: int) {
    0 < a && a + n < WORDS && Apart(a, n, newlib) && Apart(a, n, vgl)
  }

  // ---- who owns what

  // The two underlying heaps, the pointers recorded in big_tab and emerg_set, and what the
  // client sees: its live pointers with the bytes behind them.
  datatype Owners = Owners(newlib: Heap, vgl: Heap, big: set<int>, emerg: set<int>, live: Heap) {

    ghost predicate OfNewlib(p: int) {
      p in newlib && p !in big && p !in emerg && p in live && live[p] == newlib[p]
    }

    ghost predicate OfBig(p: int) {
      p !in newlib && p in big && p !in emerg && p in vgl && p in live && live[p] == vgl[p]
    }

    ghost predicate OfEmerg(p: int) {
      var a := p - EMERG_HDR;
      && p !in newlib && p !in big && p in emerg && a in vgl && a !in big && a > 0
      && p in live && |vgl[a]| == EMERG_HDR + |live[p]|
      && vgl[a][EMERG_HDR..] == live[p] && GetSize(vgl[a]) == |live[p]|
    }

    // Exactly one owner.
    ghost predicate Owned(p: int) {
      p > 0 && (OfNewlib(p) || OfBig(p) || OfEmerg(p))
    }

    ghost predicate Accounted(a: int) { a in big || a + EMERG_HDR in emerg }

    ghost predicate Ok() {
      && (forall p :: p in live ==> Owned(p))
      && (forall p :: p in newlib || p in big || p in emerg ==> p in live)
      && (forall a :: a in vgl ==> Accounted(a))
    }

    lemma FreshMeansNew(a: int, n: int, q: int)
      requires Ok() && Fresh(newlib, vgl, a, n) && a <= q <= a + n
      ensures q !in live && q !in newlib && q !in vgl && q !in big && q !in emerg
    {
      assert q in live ==> Owned(q);
    }

    // ---- a block comes or goes

    function WithNewlib(a: int, bytes: Bytes): Owners {
      this.(newlib := newlib[a := bytes], live := live[a := bytes])
    }

    function WithBig(a: int, bytes: Bytes): Owners {
      this.(vgl := vgl[a := bytes], big := big + {a}, live := live[a := bytes])
    }

    function WithEmerg(a: int, bytes: Bytes): Owners
      requires |bytes| >= EMERG_HDR
    {
      var p := a + EMERG_HDR;
      this.(vgl := vgl[a := bytes], emerg := emerg + {p}, live := live[p := bytes[EMERG_HDR..]])
    }

    function WithoutNewlib(p: int): Owners { this.(newlib := newlib - {p}, live := live - {p}) }

    function WithoutBig(p: int): Owners { this.(vgl := vgl - {p}, big := big - {p}, live := live - {p}) }

    function WithoutEmerg(p: int): Owners {
      this.(vgl := vgl - {p - EMERG_HDR}, emerg := emerg - {p}, live := live - {p})
    }

    lemma AddNewlib(a: int, bytes: Bytes)
      requires Ok() && Fresh(newlib, vgl, a, |bytes|)
      ensures WithNewlib(a, bytes).Ok() && a !in live
    {
      FreshMeansNew(a, |bytes|, a);
      var t := WithNewlib(a, bytes);
      forall p | p in t.live ensures t.Owned(p) { assert p != a ==> Owned(p); }
      forall b | b in t.vgl ensures t.Accounted(b) { assert Accounted(b); }
    }

    lemma AddBig(a: int, bytes: Bytes)
      requires Ok() && Fresh(newlib, vgl, a, |bytes|)
      ensures WithBig(a, bytes).Ok() && a !in live && a !in big
    {
      FreshMeansNew(a, |bytes|, a);
      var t := WithBig(a, bytes);
      forall p | p in t.live ensures t.Owned(p) { assert p != a ==> Owned(p); }
      forall b | b in t.vgl ensures t.Accounted(b) { assert b != a ==> Accounted(b); }
    }

    lemma AddEmerg(a: int, bytes: Bytes)
      requires Ok() && |bytes| >= EMERG_HDR && Fresh(newlib, vgl, a, |bytes|)
      requires GetSize(bytes) == |bytes| - EMERG_HDR
      ensures WithEmerg(a, bytes).Ok() && a + EMERG_HDR !in live && a + EMERG_HDR !in emerg && a + EMERG_HDR !in big
    {
      var p := a + EMERG_HDR;
      FreshMeansNew(a, |bytes|, a);
      FreshMeansNew(a, |bytes|, p);
      var t := WithEmerg(a, bytes);
      forall q | q in t.live ensures t.Owned(q) { assert q != p ==> Owned(q); }
      forall b | b in t.vgl ensures t.Accounted(b) { assert b != a ==> Accounted(b); }
    }

    lemma DropNewlib(p: int)
      requires Ok() && p in newlib
      ensures WithoutNewlib(p).Ok() && p in live && p !in big && p !in emerg
    {
      var t := WithoutNewlib(p);
      assert Owned(p);
      forall q | q in t.live ensures t.Owned(q) { assert Owned(q); }
      forall b | b in t.vgl ensures t.Accounted(b) { assert Accounted(b); }
    }

    lemma DropBig(p: int)
      requires Ok() && p in big
      ensures WithoutBig(p).Ok() && p in live && p in vgl
    {
      var t := WithoutBig(p);
      assert Owned(p);
      forall q | q in t.live ensures t.Owned(q) { assert Owned(q); }
      forall b | b in t.vgl ensures t.Accounted(b) { assert Accounted(b); }
    }

    lemma DropEmerg(p: int)
      requires Ok() && p in emerg
      ensures WithoutEmerg(p).Ok() && p in live && p - EMERG_HDR in vgl
    {
      var t := WithoutEmerg(p);
      assert Owned(p);
      forall q | q in t.live ensures t.Owned(q) { assert Owned(q); }
      forall b | b in t.vgl ensures t.Accounted(b) { assert Accounted(b); }
    }

    // A store of data at a live pointer, within its block.
    ghost function Write(p: int, data: Bytes): (t: Owners)
      requires Ok() && p in live && |data| <= |live[p]|
    {
      var bytes := data + live[p][|data|..];
      var t := this.(live := live[p := bytes]);
      assert Owned(p);
      if p in newlib then t.(newlib := newlib[p := bytes])
      else if p in big then t.(vgl := vgl[p := bytes])
      else t.(vgl := vgl[p - EMERG_HDR := vgl[p - EMERG_HDR][..EMERG_HDR] + bytes])
    }

    lemma WriteCases(p: int, data: Bytes)
      requires Ok() && p in live && |data| <= |live[p]|
      ensures var now := live[p := data + live[p][|data|..]];
        if p in newlib then
          |data| <= |newlib[p]| && Write(p, data) == this.(live := now, newlib := newlib[p := data + newlib[p][|data|..]])
        else if p in big then
          p in vgl && |data| <= |vgl[p]| && Write(p, data) == this.(live := now, vgl := vgl[p := data + vgl[p][|data|..]])
        else
          var a := p - EMERG_HDR;
          && a in vgl && |vgl[a]| == EMERG_HDR + |live[p]|
          && Write(p, data) == this.(live := now, vgl := vgl[a := vgl[a][..EMERG_HDR] + (data + vgl[a][EMERG_HDR..][|data|..])])
    {
      assert Owned(p);
    }

    lemma WriteKeeps(p: int, data: Bytes)
      requires Ok() && p in live && |data| <= |live[p]|
      ensures var t := Write(p, data);
              t.big == big && t.emerg == emerg && t.newlib.Keys == newlib.Keys && t.live.Keys == live.Keys
    {
      WriteCases(p, data);
    }

    lemma WriteIsLocal(p: int, data: Bytes)
      requires Ok() && p in live && |data| <= |live[p]|
      ensures Write(p, data).Ok()
    {
      var t := Write(p, data);
      assert Owned(p);
      forall q | q in t.live ensures t.Owned(q) { assert Owned(q); }
      forall b | b in t.vgl ensures t.Accounted(b) { assert Accounted(b); }
    }
  }

  // ---- what the underlying allocators will do

  // An answer that they may give to a request: a block, if it keeps the assumption and has the
  // right size, or else a refusal; how much room a pool reports; and whether a realloc works.
  datatype Offer = Offer(at: int, bytes: Bytes, room: int, works: bool)

  function Taken(o: Offer, newlib: Heap, vgl: Heap, n: int): int {
    if Fresh(newlib, vgl, o.at, n) && |o.bytes| == n then o.at else 0
  }
}
