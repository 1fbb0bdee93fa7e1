// ring_write and ring_read_chunk of loader/audio.c as whole calls, with their two-piece copies
// into and out of the ring array; AudioRing has their interleavings.

module RingCopies {
  import opened Words
  import opened AudioRing

  method Memcpy(dst: array<Sample>, at: int, src: seq<Sample>)
    requires 0 <= at && at + |src| <= dst.Length
    modifies dst
    ensures dst[..] == old(dst[..at]) + src + old(dst[at + |src|..])
  {
    var i := 0;
    while i < |src|
      invariant 0 <= i <= |src|
      invariant forall k :: 0 <= k < i ==> dst[at + k] == src[k]
      invariant forall k :: (0 <= k < at || at + i <= k < dst.Length) ==> dst[k] == old(dst[k])
    {
      dst[at + i] := src[i];
      i := i + 1;
    }
  }

  // The ring after n samples were stored from cell idx on, around its end.
  function Spliced(before: seq<Sample>, idx: int, src: seq<Sample>): seq<Sample>
    requires |before| == RING && 0 <= idx < RING && |src| <= RING
  {
    seq(RING, c requires 0 <= c < RING =>
      var off := if c >= idx then c - idx else c - idx + RING;
      if off < |src| then src[off] else before[c])
  }

  lemma SplicedAt(before: seq<Sample>, cursor: nat, src: seq<Sample>, k: int)
    requires |before| == RING && 0 <= k < RING && |src| <= RING
    ensures Spliced(before, cursor % RING, src)[(cursor + k) % RING]
            == if k < |src| then src[k] else before[(cursor + k) % RING]
  {
    var idx, c := cursor % RING, (cursor + k) % RING;
    assert c == if idx + k < RING then idx + k else idx + k - RING;
  }

  lemma SameCell(a: nat, b: nat)
    requires a == b || a == b + RING || b == a + RING
    ensures a % RING == b % RING
  {}

  lemma QueueGrowsAt(before: seq<Sample>, r: nat, queue: seq<Sample>, src: seq<Sample>, k: nat)
    requires |before| == RING && |queue| + |src| <= RING && k < |queue| + |src|
    requires k < |queue| ==> before[(r + k) % RING] == queue[k]
    ensures Spliced(before, (r + |queue|) % RING, src)[(r + k) % RING] == (queue + src)[k]
  {
    var q := |queue|;
    hide Spliced;
    if k >= q {
      SplicedAt(before, r + q, src, k - q);
    } else if k - q + RING < RING {
      SplicedAt(before, r + q, src, k - q + RING);
      SameCell(r + q + (k - q + RING), r + k);
    }
  }

  // The queue lies in the ring from the read cursor on, around its end.
  ghost predicate Queued(ring: seq<Sample>, r: nat, queue: seq<Sample>) {
    |ring| == RING && |queue| <= RING && forall k :: 0 <= k < |queue| ==> ring[(r + k) % RING] == queue[k]
  }

  // The new samples lie behind the queued ones, which are still there.
  lemma QueueGrows(before: seq<Sample>, r: nat, queue: seq<Sample>, src: seq<Sample>)
    requires Queued(before, r, queue) && |queue| + |src| <= RING
    ensures Queued(Spliced(before, (r + |queue|) % RING, src), r, queue + src)
  {
    forall k | 0 <= k < |queue| + |src|
      ensures Spliced(before, (r + |queue|) % RING, src)[(r + k) % RING] == (queue + src)[k]
    {
      QueueGrowsAt(before, r, queue, src, k);
    }
  }

  lemma QueueShrinks(ring: seq<Sample>, r: Word, queue: seq<Sample>, take: nat)
    requires Queued(ring, r, queue) && take <= |queue|
    ensures Queued(ring, Wrap(r + take), queue[take..])
  {
    forall k | 0 <= k < |queue| - take ensures ring[(Wrap(r + take) + k) % RING] == queue[take..][k] {
      assert (Wrap(r + take) + k) % RING == (r + (take + k)) % RING;
    }
  }

  lemma CursorCell(w: Word, r: Word, n: nat)
    requires w == Wrap(r + n)
    ensures w % RING == (r + n) % RING
  {}

  lemma CursorMoves(w: Word, r: Word, n: nat, take: nat)
    requires w == Wrap(r + n) && take <= n
    ensures w == Wrap(Wrap(r + take) + (n - take))
  {}

  // The two memcpys of ring_write.
  method CopyIn(ring: array<Sample>, idx: int, src: seq<Sample>)
    requires ring.Length == RING && 0 <= idx < RING && |src| <= RING
    modifies ring
    ensures ring[..] == Spliced(old(ring[..]), idx, src)
  {
    var n := |src|;
    var first := if RING - idx > n then n else RING - idx;
    Memcpy(ring, idx, src[..first]);
    if n > first { Memcpy(ring, 0, src[first..]); }
  }

  // The two memcpys of ring_read_chunk.
  method CopyOut(ring: array<Sample>, idx: int, take: nat, dst: array<Sample>)
    requires ring.Length == RING && 0 <= idx < RING && take <= dst.Length && take <= RING && dst != ring
    modifies dst
    ensures forall k :: 0 <= k < take ==> dst[k] == ring[(idx + k) % RING]
  {
    var first := if RING - idx > take then take else RING - idx;
    Memcpy(dst, 0, ring[idx..idx + first]);
    ghost var half := dst[..];
    if take > first { Memcpy(dst, first, ring[..take - first]); }
    forall k | 0 <= k < take ensures dst[k] == ring[(idx + k) % RING] {
      if k < first { assert half[k] == ring[idx + k] && dst[..][k] == half[k]; } else {
        assert dst[..][k] == ring[k - first];
      }
    }
  }

  class Ring {
    const ring: array<Sample>
    var w: Word
    var r: Word
    ghost var queue: seq<Sample>   // accepted and not yet read

    ghost predicate Valid()
      reads this, ring
    {
      ring.Length == RING && w == Wrap(r + |queue|) && Queued(ring[..], r, queue)
    }

    constructor ()
      ensures Valid() && queue == [] && fresh(ring)
    {
      ring := new Sample[RING](_ => 0);
      w, r, queue := 0, 0, [];
    }

    lemma QueuedAhead()
      requires Valid()
      ensures Ahead(w, r) == |queue|
    {}

    // Accepts the whole submit or nothing, and all of it exactly when it fits.
    method RingWrite(src: seq<Sample>) returns (accepted: bool)
      requires Valid() && |src| < WORDS
      modifies this`w, this`queue, ring
      ensures Valid()
      ensures accepted == (|src| <= 0x1_0000 - old(|queue|))
      ensures queue == if accepted then old(queue) + src else old(queue)
    {
      QueuedAhead();
      var n := |src|;
      var free := Wrap(RING - Wrap(w - r));
      if n > free { return false; }
      QueueGrows(ring[..], r, queue, src);
      CursorCell(w, r, |queue|);
      WrapAdds(r + |queue|, n);
      hide Queued;
      hide Spliced;
      CopyIn(ring, w % RING, src);
      w := Wrap(w + n);
      queue := queue + src;
      accepted := true;
    }

    method CopyOldest(take: nat, dst: array<Sample>)
      requires Valid() && take <= |queue| && take <= dst.Length && dst != ring
      modifies dst
      ensures dst[..take] == queue[..take]
    {
      CopyOut(ring, r % RING, take, dst);
      forall k | 0 <= k < take ensures dst[k] == queue[k] {
        assert (r % RING + k) % RING == (r + k) % RING;
        assert ring[..][(r + k) % RING] == queue[k];
      }
    }

    // Fills dst with the oldest samples, then with silence.
    method RingReadChunk(dst: array<Sample>)
      requires Valid() && dst.Length == CHUNK && dst != ring
      modifies this`r, this`queue, dst
      ensures Valid()
      ensures var take := if old(|queue|) < 2048 then old(|queue|) else 2048;
              && dst[..] == old(queue)[..take] + Zeros(2048 - take)
              && queue == old(queue)[take..]
    {
      QueuedAhead();
      var avail := Wrap(w - r);
      var take := if avail < CHUNK then avail else CHUNK;
      CopyOldest(take, dst);
      QueueShrinks(ring[..], r, queue, take);
      CursorMoves(w, r, |queue|, take);
      hide Queued;
      if take < CHUNK { Memcpy(dst, take, Zeros(CHUNK - take)); }
      r := Wrap(r + take);
      queue := queue[take..];
    }
  }
}
