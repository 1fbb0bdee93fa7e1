// The audio ring of loader/audio.c as two threads share it: a producer (ring_write, on the
// engine's thread) and a consumer (ring_read_chunk, on the output thread), interleaved at
// every load, store and copied sample.  The cursors are 32-bit and wrap around.

module AudioRing {
  import opened Words

  const RING: int := 0x1_0000    // RING_SHORTS
  const CHUNK: int := 2048       // CHUNK_SHORTS

  type Sample = int

  function Flatten(xs: seq<seq<Sample>>): seq<Sample> {
    if xs == [] then [] else Flatten(xs[..|xs| - 1]) + xs[|xs| - 1]
  }

  function Zeros(n: nat): seq<Sample> { seq(n, _ => 0) }

  // ---- the arithmetic that both sides share

  // How far ahead w is, as unsigned subtraction computes it.
  function Ahead(w: Word, r: Word): Word { Wrap(w - r) }

  // The cell that sample i of n goes to or comes from: up to the end of the ring first, the
  // rest from its start.
  function Cell(cursor: Word, n: int, i: int): int {
    var idx := cursor % RING;
    var first := if RING - idx > n then n else RING - idx;
    if i < first then idx + i else i - first
  }

  lemma CellIsModular(cursor: Word, count: nat, n: int, i: int)
    requires cursor == count % 0x1_0000_0000 && 0 <= i < n <= 0x1_0000
    ensures Cell(cursor, n, i) == (count + i) % 0x1_0000
  {
    assert cursor % RING == count % RING;
  }

  lemma CellsDiffer(a: nat, b: nat)
    requires a < b < a + RING
    ensures a % RING != b % RING
  {}

  lemma AheadIsDifference(w: nat, r: nat)
    requires r <= w <= r + RING
    ensures Ahead(Wrap(w), Wrap(r)) == w - r
  {}

  // ---- the threads

  datatype Producer =
    | Idle
    | LoadedW(src: seq<Sample>, w: Word)
    | Copying(src: seq<Sample>, w: Word, i: int)

  datatype Consumer =
    | Resting
    | LoadedR(r: Word)
    | Reading(r: Word, take: int, dst: seq<Sample>)

  // Besides the shared variables and the threads: every accepted submit, every chunk given to
  // the output with the samples in it, and the cursors as unbounded counters.
  datatype State = State(ring: seq<Sample>, w: Word, r: Word, p: Producer, c: Consumer,
                         accepted: seq<seq<Sample>>, chunks: seq<seq<Sample>>, pieces: seq<seq<Sample>>,
                         written: nat, read: nat)

  datatype Action =
    | Submit(src: seq<Sample>) | LoadR | CopyOne | StoreW
    | Begin | LoadW | ReadOne | StoreR

  ghost predicate Init(s: State) {
    && |s.ring| == RING && s.w == 0 && s.r == 0 && s.p == Idle && s.c == Resting
    && s.accepted == [] && s.chunks == [] && s.pieces == [] && s.written == 0 && s.read == 0
  }

  // Whether action a can be the next one, and the state that it leads to.
  predicate Enabled(s: State, a: Action) {
    match a
    case Submit(src) => s.p.Idle? && |src| < WORDS
    case LoadR => s.p.LoadedW?
    case CopyOne => s.p.Copying? && s.p.i < |s.p.src|
    case StoreW => s.p.Copying? && s.p.i >= |s.p.src|
    case Begin => s.c.Resting?
    case LoadW => s.c.LoadedR?
    case ReadOne => s.c.Reading? && |s.c.dst| < s.c.take
    case StoreR => s.c.Reading? && |s.c.dst| >= s.c.take
  }

  function WriteCell(s: State): int
    requires s.p.Copying?
  {
    Cell(s.p.w, |s.p.src|, s.p.i)
  }

  function ReadCell(s: State): int
    requires s.c.Reading?
  {
    Cell(s.c.r, s.c.take, |s.c.dst|)
  }

  function Pad(dst: seq<Sample>): seq<Sample> {
    if |dst| < CHUNK then dst + Zeros(CHUNK - |dst|) else dst
  }

  // What the index arithmetic of the copies needs; it holds in every state of every run.
  predicate InBounds(s: State) {
    && |s.ring| == RING
    && (s.p.Copying? ==> 0 <= s.p.i && |s.p.src| <= RING)
    && (s.c.Reading? ==> s.c.take <= CHUNK)
  }

  function Next(s: State, a: Action): State
    requires Enabled(s, a) && InBounds(s)
  {
    match a
    case Submit(src) => s.(p := LoadedW(src, s.w))
    case LoadR =>
      var free := Wrap(RING - Ahead(s.p.w, s.r));
      if |s.p.src| > free then s.(p := Idle) else s.(p := Copying(s.p.src, s.p.w, 0))
    case CopyOne =>
      s.(ring := s.ring[WriteCell(s) := s.p.src[s.p.i]], p := s.p.(i := s.p.i + 1))
    case StoreW =>
      s.(w := Wrap(s.p.w + |s.p.src|), p := Idle, accepted := s.accepted + [s.p.src], written := s.written + |s.p.src|)
    case Begin => s.(c := LoadedR(s.r))
    case LoadW =>
      var avail := Ahead(s.w, s.c.r);
      s.(c := Reading(s.c.r, if avail < CHUNK then avail else CHUNK, []))
    case ReadOne =>
      s.(c := s.c.(dst := s.c.dst + [s.ring[ReadCell(s)]]))
    case StoreR =>
      s.(r := Wrap(s.c.r + s.c.take), c := Resting, chunks := s.chunks + [Pad(s.c.dst)],
         pieces := s.pieces + [s.c.dst], read := s.read + |s.c.dst|)
  }

  // ---- what holds in every state

  ghost predicate Samples(s: State) {
    var all := Flatten(s.accepted);
    && |all| == s.written && |s.ring| == RING
    && s.w == Wrap(s.written) && s.r == Wrap(s.read)
    && s.read <= s.written <= s.read + RING
    && (forall k :: s.read <= k < s.written ==> s.ring[k % RING] == all[k])
    && Flatten(s.pieces) == all[..s.read]
    && |s.chunks| == |s.pieces|
    && (forall j :: 0 <= j < |s.pieces| ==> |s.pieces[j]| <= CHUNK && s.chunks[j] == Pad(s.pieces[j]))
  }

  ghost predicate Producing(s: State)
    requires Samples(s)
  {
    match s.p
    case Idle => true
    case LoadedW(src, w) => w == s.w && |src| < WORDS
    case Copying(src, w, i) =>
      && w == s.w && 0 <= i <= |src| && s.written + |src| <= s.read + RING
      && (forall j :: 0 <= j < i ==> s.ring[(s.written + j) % RING] == src[j])
  }

  ghost predicate Consuming(s: State)
    requires Samples(s)
  {
    match s.c
    case Resting => true
    case LoadedR(r) => r == s.r
    case Reading(r, take, dst) =>
      && r == s.r && 0 <= take <= CHUNK && s.read + take <= s.written && |dst| <= take
      && (forall j :: 0 <= j < |dst| ==> dst[j] == Flatten(s.accepted)[s.read + j])
  }

  ghost predicate Inv(s: State) {
    Samples(s) && Producing(s) && Consuming(s)
  }

  // The unbounded queue that the ring stands for: accepted and not yet taken.
  ghost function Queue(s: State): seq<Sample>
    requires Samples(s)
  {
    Flatten(s.accepted)[s.read..]
  }

  lemma InitInv(s: State)
    requires Init(s)
    ensures Inv(s)
  {}

  lemma FlattenAppend(xs: seq<seq<Sample>>, x: seq<Sample>)
    ensures Flatten(xs + [x]) == Flatten(xs) + x
  {
    assert (xs + [x])[..|xs|] == xs;
  }

  lemma CopyOneInv(s: State)
    requires Inv(s) && Enabled(s, CopyOne)
    ensures Inv(Next(s, CopyOne)) && Next(s, CopyOne).p.i == s.p.i + 1
    ensures WriteCell(s) == (s.written + s.p.i) % RING
  {
    CellIsModular(s.p.w, s.written, |s.p.src|, s.p.i);
    hide Cell;
    hide Flatten;
    var t := Next(s, CopyOne);
    forall k | s.read <= k < s.written ensures t.ring[k % RING] == s.ring[k % RING] {
      CellsDiffer(k, s.written + s.p.i);
    }
    forall j | 0 <= j < s.p.i ensures t.ring[(s.written + j) % RING] == s.p.src[j] {
      CellsDiffer(s.written + j, s.written + s.p.i);
    }
  }

  lemma WrapAdds(count: nat, n: nat)
    ensures Wrap(Wrap(count) + n) == Wrap(count + n)
  {}

  lemma AppendedSample(all: seq<Sample>, src: seq<Sample>, k: int)
    requires 0 <= k < |all| + |src|
    ensures (all + src)[k] == if k < |all| then all[k] else src[k - |all|]
  {}

  lemma StoreWSamples(s: State)
    requires Inv(s) && Enabled(s, StoreW)
    ensures Samples(Next(s, StoreW)) && Flatten(Next(s, StoreW).accepted) == Flatten(s.accepted) + s.p.src
  {
    var t := Next(s, StoreW);
    FlattenAppend(s.accepted, s.p.src);
    WrapAdds(s.written, |s.p.src|);
    hide Flatten, Wrap;
    StoredSamples(s.ring, Flatten(s.accepted), s.p.src, s.read, s.written);
    assert Flatten(t.accepted)[..s.read] == Flatten(s.accepted)[..s.read];
  }

  lemma StoredSamples(ring: seq<Sample>, all: seq<Sample>, src: seq<Sample>, read: nat, written: nat)
    requires |ring| == RING && |all| == written
    requires forall k :: read <= k < written ==> ring[k % RING] == all[k]
    requires forall j :: 0 <= j < |src| ==> ring[(written + j) % RING] == src[j]
    ensures forall k :: read <= k < written + |src| ==> ring[k % RING] == (all + src)[k]
  {
    forall k | read <= k < written + |src| ensures ring[k % RING] == (all + src)[k] {
      AppendedSample(all, src, k);
      if k >= written { assert k == written + (k - written); }
    }
  }

  lemma StoreWInv(s: State)
    requires Inv(s) && Enabled(s, StoreW)
    ensures Inv(Next(s, StoreW)) && Queue(Next(s, StoreW)) == Queue(s) + s.p.src
  {
    StoreWSamples(s);
    hide Flatten;
  }

  lemma ReadOneInv(s: State)
    requires Inv(s) && Enabled(s, ReadOne)
    ensures Inv(Next(s, ReadOne)) && |Next(s, ReadOne).c.dst| == |s.c.dst| + 1
    ensures ReadCell(s) == (s.read + |s.c.dst|) % RING
  {
    CellIsModular(s.c.r, s.read, s.c.take, |s.c.dst|);
  }

  lemma PrefixGrows(all: seq<Sample>, n: nat, d: seq<Sample>)
    requires n + |d| <= |all| && forall j :: 0 <= j < |d| ==> d[j] == all[n + j]
    ensures all[..n] + d == all[..n + |d|]
  {}

  lemma TakenOff(all: seq<Sample>, n: nat, d: seq<Sample>)
    requires n + |d| <= |all| && forall j :: 0 <= j < |d| ==> d[j] == all[n + j]
    ensures all[n..] == d + all[n + |d|..]
  {}

  lemma StoreREffect(s: State)
    requires Inv(s) && Enabled(s, StoreR)
    ensures var t := Next(s, StoreR); var d := s.c.dst;
            && t.ring == s.ring && t.w == s.w && t.p == s.p && t.accepted == s.accepted && t.written == s.written
            && t.c == Resting && t.read == s.read + |d| <= s.written && t.r == Wrap(t.read)
            && t.pieces == s.pieces + [d] && t.chunks == s.chunks + [Pad(d)] && |d| <= CHUNK
            && (forall j :: 0 <= j < |d| ==> d[j] == Flatten(s.accepted)[s.read + j]) && |d| == s.c.take
  {
    WrapAdds(s.read, |s.c.dst|);
    hide Flatten;
    hide Pad;
  }

  lemma StoreRSamples(s: State)
    requires Inv(s) && Enabled(s, StoreR)
    ensures Samples(Next(s, StoreR))
  {
    StoreREffect(s);
    hide Next;
    hide Producing;
    hide Consuming;
    FlattenAppend(s.pieces, s.c.dst);
    PrefixGrows(Flatten(s.accepted), s.read, s.c.dst);
    hide Flatten;
    hide Pad;
  }

  // The producer's view survives a read cursor that moves forward.
  lemma ProducingKept(s: State, t: State)
    requires Samples(s) && Samples(t) && Producing(s) && s.read <= t.read
    requires t.p == s.p && t.ring == s.ring && t.w == s.w && t.written == s.written
    ensures Producing(t)
  {}

  lemma StoreRInv(s: State)
    requires Inv(s) && Enabled(s, StoreR)
    ensures Inv(Next(s, StoreR))
  {
    StoreRSamples(s);
    assert s.read <= Next(s, StoreR).read && Next(s, StoreR).p == s.p;
    hide *;
    ProducingKept(s, Next(s, StoreR));
  }

  lemma StoreRQueue(s: State)
    requires Inv(s) && Enabled(s, StoreR) && Samples(Next(s, StoreR))
    ensures Queue(s) == s.c.dst + Queue(Next(s, StoreR)) && |s.c.dst| == s.c.take
  {
    StoreREffect(s);
    hide Next;
    hide Producing;
    hide Consuming;
    hide Flatten;
    TakenOff(Flatten(s.accepted), s.read, s.c.dst);
  }

  lemma LoadRInv(s: State)
    requires Inv(s) && Enabled(s, LoadR)
    ensures Inv(Next(s, LoadR))
    ensures Next(s, LoadR).p.Copying? <==> |s.p.src| <= RING - |Queue(s)|
  {
    AheadIsDifference(s.written, s.read);
  }

  lemma LoadWInv(s: State)
    requires Inv(s) && Enabled(s, LoadW)
    ensures Inv(Next(s, LoadW))
    ensures Next(s, LoadW).c.take == if |Queue(s)| < CHUNK then |Queue(s)| else CHUNK
  {
    AheadIsDifference(s.written, s.read);
  }

  lemma StepInv(s: State, a: Action)
    requires Inv(s) && Enabled(s, a)
    ensures Inv(Next(s, a))
  {
    match a {
      case Submit(_) =>
      case LoadR => LoadRInv(s);
      case CopyOne => CopyOneInv(s);
      case StoreW => StoreWInv(s);
      case Begin =>
      case LoadW => LoadWInv(s);
      case ReadOne => ReadOneInv(s);
      case StoreR => StoreRInv(s);
    }
  }

  // ---- every interleaving

  ghost predicate Run(states: seq<State>, actions: seq<Action>) {
    && |states| == |actions| + 1 && Init(states[0])
    && forall i :: 0 <= i < |actions| ==> StepOf(states[i], actions[i], states[i + 1])
  }

  ghost predicate StepOf(s: State, a: Action, t: State) {
    Enabled(s, a) && (InBounds(s) ==> t == Next(s, a))
  }

  lemma {:induction false} RunInv(states: seq<State>, actions: seq<Action>, n: nat)
    requires Run(states, actions) && n < |states|
    ensures Inv(states[n]) && InBounds(states[n])
  {
    if n == 0 {
      InitInv(states[0]);
    } else {
      RunInv(states, actions, n - 1);
      assert StepOf(states[n - 1], actions[n - 1], states[n - 1 + 1]);
      StepInv(states[n - 1], actions[n - 1]);
    }
  }

  // The submits that were offered, in order.
  function Offered(actions: seq<Action>): seq<seq<Sample>> {
    if actions == [] then []
    else
      var rest := Offered(actions[..|actions| - 1]);
      var a := actions[|actions| - 1];
      if a.Submit? then rest + [a.src] else rest
  }

  // xs is ys with some elements left out.
  predicate Subsequence(xs: seq<seq<Sample>>, ys: seq<seq<Sample>>)
    decreases |ys|
  {
    if xs == [] then true
    else ys != [] &&
         ((xs[|xs| - 1] == ys[|ys| - 1] && Subsequence(xs[..|xs| - 1], ys[..|ys| - 1]))
          || Subsequence(xs, ys[..|ys| - 1]))
  }

  lemma {:induction false} SubsequenceDrops(xs: seq<seq<Sample>>, x: seq<Sample>, ys: seq<seq<Sample>>)
    requires Subsequence(xs + [x], ys)
    ensures Subsequence(xs, ys)
    decreases |ys|
  {
    assert (xs + [x])[..|xs|] == xs;
    if Subsequence(xs + [x], ys[..|ys| - 1]) {
      SubsequenceDrops(xs, x, ys[..|ys| - 1]);
    }
  }

  function Pending(s: State): seq<seq<Sample>> {
    match s.p case Idle => [] case LoadedW(src, _) => [src] case Copying(src, _, _) => [src]
  }

  lemma SubsequenceGrows(xs: seq<seq<Sample>>, x: seq<Sample>, ys: seq<seq<Sample>>)
    requires Subsequence(xs, ys)
    ensures Subsequence(xs + [x], ys + [x]) && Subsequence(xs, ys + [x])
  {
    assert (xs + [x])[..|xs|] == xs && (ys + [x])[..|ys|] == ys;
  }

  lemma {:induction false} RunOffers(states: seq<State>, actions: seq<Action>, n: nat)
    requires Run(states, actions) && n < |states|
    ensures Subsequence(states[n].accepted + Pending(states[n]), Offered(actions[..n]))
  {
    if n > 0 {
      RunOffers(states, actions, n - 1);
      RunInv(states, actions, n - 1);
      assert StepOf(states[n - 1], actions[n - 1], states[n - 1 + 1]);
      assert InBounds(states[n - 1]) by { InvInBounds(states[n - 1]); }
      assert actions[..n][..n - 1] == actions[..n - 1] && actions[..n][n - 1] == actions[n - 1];
      hide Run, Inv, Next, Enabled, InBounds, Pending, Subsequence;
      OffersStep(states[n - 1], actions[n - 1], Offered(actions[..n - 1]));
    }
  }

  lemma InvInBounds(s: State)
    requires Inv(s)
    ensures InBounds(s)
  {}

  lemma OffersStep(s: State, a: Action, offered: seq<seq<Sample>>)
    requires InBounds(s) && Enabled(s, a) && Subsequence(s.accepted + Pending(s), offered)
    ensures var t := Next(s, a); Subsequence(t.accepted + Pending(t), if a.Submit? then offered + [a.src] else offered)
  {
    var t := Next(s, a);
    hide Cell, Pad, Subsequence;
    if a.Submit? {
      assert s.accepted + Pending(s) == s.accepted;
      SubsequenceGrows(s.accepted, a.src, offered);
    } else if a.LoadR? && t.p.Idle? {
      SubsequenceDrops(s.accepted, s.p.src, offered);
      assert t.accepted + Pending(t) == s.accepted;
    } else {
      assert t.accepted + Pending(t) == s.accepted + Pending(s);
    }
  }

  // A full chunk: the piece, then only silence.
  ghost predicate IsPadded(chunk: seq<Sample>, piece: seq<Sample>) {
    && |piece| <= |chunk| == 2048 && piece <= chunk
    && forall k :: |piece| <= k < 2048 ==> chunk[k] == 0
  }

  // In every interleaving: the cursors, as 32-bit numbers, are 0 to 65536 apart; what has been
  // delivered, padding aside, is a prefix of what was accepted; every chunk is its piece
  // followed by exactly the zeros that fill it up; and the accepted submits are the offered
  // ones, whole and in order, with some left out.
  lemma Safety(states: seq<State>, actions: seq<Action>, n: nat)
    requires Run(states, actions) && n < |states|
    ensures var s := states[n];
            && (s.w - s.r) % 0x1_0000_0000 == s.written - s.read <= 0x1_0000
            && Flatten(s.pieces) <= Flatten(s.accepted) && |Flatten(s.pieces)| == s.read
            && |s.chunks| == |s.pieces|
            && (forall j :: 0 <= j < |s.chunks| ==> IsPadded(s.chunks[j], s.pieces[j]))
            && Subsequence(s.accepted, Offered(actions[..n]))
  {
    RunInv(states, actions, n);
    RunOffers(states, actions, n);
    var s := states[n];
    AheadIsDifference(s.written, s.read);
    if s.p.Idle? {
      assert s.accepted + Pending(s) == s.accepted;
    } else {
      SubsequenceDrops(s.accepted, s.p.src, Offered(actions[..n]));
    }
  }

  // The cell that the producer writes next is never one that holds an unread sample, so never
  // one that the consumer is about to read.
  lemma NoOverlap(s: State)
    requires Inv(s) && Enabled(s, CopyOne)
    ensures forall k :: s.read <= k < s.written ==> WriteCell(s) != k % RING
    ensures Enabled(s, ReadOne) ==> WriteCell(s) != ReadCell(s)
  {
    CellIsModular(s.p.w, s.written, |s.p.src|, s.p.i);
    forall k | s.read <= k < s.written ensures WriteCell(s) != k % RING {
      CellsDiffer(k, s.written + s.p.i);
    }
    if Enabled(s, ReadOne) {
      CellIsModular(s.c.r, s.read, s.c.take, |s.c.dst|);
    }
  }

  // The ring refines an unbounded queue: only the two cursor stores change it.  One appends a
  // whole submit, the other takes the consumer's samples off the front.  A submit is turned
  // away exactly when it does not fit behind what is queued at that moment, and a chunk takes
  // what is queued when the consumer looks, up to its size.
  lemma RefinesQueue(s: State, a: Action)
    requires Inv(s) && Enabled(s, a)
    ensures Inv(Next(s, a))
    ensures match a
            case StoreW => Queue(Next(s, a)) == Queue(s) + s.p.src
            case StoreR => Queue(s) == s.c.dst + Queue(Next(s, a)) && |s.c.dst| == s.c.take
            case LoadR => Queue(Next(s, a)) == Queue(s)
                          && (Next(s, a).p.Copying? <==> |s.p.src| <= 0x1_0000 - |Queue(s)|)
            case LoadW => Queue(Next(s, a)) == Queue(s)
                          && Next(s, a).c.take == if |Queue(s)| < 2048 then |Queue(s)| else 2048
            case _ => Queue(Next(s, a)) == Queue(s)
  {
    StepInv(s, a);
    hide Flatten;
    match a {
      case StoreW => StoreWInv(s);
      case StoreR => StoreRQueue(s);
      case LoadR => LoadRInv(s);
      case LoadW => LoadWInv(s);
      case _ =>
    }
  }
}
