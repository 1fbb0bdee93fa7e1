// The touch block of the frame loop in loader/main.c: fingers are tracked in slots, and the game
// sees a stream of events for each slot.

module TouchSlots {

  // A position is given after scaling to the screen.
  datatype Report = Report(id: int, x: int, y: int)

  datatype Slot = Free | Held(id: int, x: int, y: int)

  datatype Kind = Down | Move | Up

  datatype Event = Event(kind: Kind, slot: nat, x: int, y: int)

  const REPORTS: nat := 4   // later reports of a frame are not looked at
  const SLOTS: nat := 2

  // ---- one report

  function Tracked(slots: seq<Slot>, id: int): (s: int)
    ensures -1 <= s < |slots|
    ensures s >= 0 ==> slots[s].Held? && slots[s].id == id
    ensures forall k :: s < k < |slots| ==> !(slots[k].Held? && slots[k].id == id)
  {
    if slots == [] then -1
    else if slots[|slots| - 1].Held? && slots[|slots| - 1].id == id then |slots| - 1
    else Tracked(slots[..|slots| - 1], id)
  }

  // The first slot from k on that is neither held nor seen in this frame.
  function FirstFree(slots: seq<Slot>, seen: set<nat>, k: nat): (s: int)
    requires k <= |slots|
    ensures s == -1 || k <= s < |slots|
    ensures s >= 0 ==> slots[s].Free? && s !in seen
    ensures forall j :: k <= j < (if s < 0 then |slots| else s) ==> !(slots[j].Free? && j !in seen)
    decreases |slots| - k
  {
    if k == |slots| then -1
    else if slots[k].Free? && k !in seen then k
    else FirstFree(slots, seen, k + 1)
  }

  datatype Frame = Frame(slots: seq<Slot>, seen: set<nat>, events: seq<Event>)

  function SlotFor(f: Frame, id: int): (s: int)
    ensures -1 <= s < |f.slots|
  {
    if Tracked(f.slots, id) >= 0 then Tracked(f.slots, id) else FirstFree(f.slots, f.seen, 0)
  }

  function Take(f: Frame, r: Report): Frame {
    var s := SlotFor(f, r.id);
    if s < 0 then f
    else Frame(f.slots[s := Held(r.id, r.x, r.y)], f.seen + {s},
               f.events + [Event(if f.slots[s].Held? then Move else Down, s, r.x, r.y)])
  }

  function TakeAll(slots: seq<Slot>, rs: seq<Report>): Frame {
    if rs == [] then Frame(slots, {}, []) else Take(TakeAll(slots, rs[..|rs| - 1]), rs[|rs| - 1])
  }

  // ---- the end of the frame: slots that were not seen are released, at their last position

  predicate Lost(f: Frame, s: nat)
    requires s < |f.slots|
  {
    f.slots[s].Held? && s !in f.seen
  }

  function Ups(f: Frame, n: nat): seq<Event>
    requires n <= |f.slots|
  {
    if n == 0 then []
    else Ups(f, n - 1) + if Lost(f, n - 1) then [Event(Up, n - 1, f.slots[n - 1].x, f.slots[n - 1].y)] else []
  }

  function Looked(rs: seq<Report>): (r: seq<Report>)
    ensures |r| <= REPORTS && r == rs[..if |rs| < 4 then |rs| else 4]
  {
    if |rs| <= REPORTS then rs else rs[..REPORTS]
  }

  function After(f: Frame): (slots: seq<Slot>)
    ensures |slots| == |f.slots|
    ensures forall s :: 0 <= s < |slots| ==> slots[s] == if Lost(f, s) then Free else f.slots[s]
  {
    seq(|f.slots|, s requires 0 <= s < |f.slots| => if Lost(f, s) then Free else f.slots[s])
  }

  function Events(f: Frame): seq<Event> { f.events + Ups(f, |f.slots|) }

  // ---- what a frame means, slot by slot

  ghost predicate Distinct(slots: seq<Slot>) {
    forall i, j :: 0 <= i < j < |slots| && slots[i].Held? && slots[j].Held? ==> slots[i].id != slots[j].id
  }

  // The reports of one finger.
  function Of(rs: seq<Report>, id: int): (r: seq<Report>)
    ensures forall k :: 0 <= k < |r| ==> r[k].id == id
  {
    if rs == [] then []
    else Of(rs[..|rs| - 1], id) + if rs[|rs| - 1].id == id then [rs[|rs| - 1]] else []
  }

  // The events of one slot.
  function On(es: seq<Event>, s: nat): seq<Event> {
    if es == [] then []
    else On(es[..|es| - 1], s) + if es[|es| - 1].slot == s then [es[|es| - 1]] else []
  }

  // One event for each report, the first one a press when the slot was free.
  function Script(s: nat, wasFree: bool, rs: seq<Report>): seq<Event> {
    seq(|rs|, k requires 0 <= k < |rs| => Event(if wasFree && k == 0 then Down else Move, s, rs[k].x, rs[k].y))
  }

  function Last(id: int, rs: seq<Report>): Slot
    requires rs != []
  {
    Held(id, rs[|rs| - 1].x, rs[|rs| - 1].y)
  }

  // The state of slot s when the reports rs of a frame have been taken.
  ghost predicate SlotTaken(f: Frame, slots: seq<Slot>, rs: seq<Report>, s: nat)
    requires s < |slots| == |f.slots|
  {
    var before, now := slots[s], f.slots[s];
    && (before.Held? ==> now.Held? && now.id == before.id)
    && (s in f.seen <==> now.Held? && Of(rs, now.id) != [])
    && (if s in f.seen then now == Last(now.id, Of(rs, now.id)) && On(f.events, s) == Script(s, before.Free?, Of(rs, now.id))
        else now == before && On(f.events, s) == [])
  }

  // A finger is only left out while all slots are held.
  ghost predicate Served(f: Frame, rs: seq<Report>, id: int) {
    Of(rs, id) != [] ==> Tracked(f.slots, id) >= 0 || forall s :: 0 <= s < |f.slots| ==> f.slots[s].Held?
  }

  ghost predicate Taken(f: Frame, slots: seq<Slot>, rs: seq<Report>) {
    && |f.slots| == |slots| && Distinct(f.slots)
    && (forall id :: Served(f, rs, id))
    && forall s :: 0 <= s < |slots| ==> SlotTaken(f, slots, rs, s)
  }

  lemma OnOne(es: seq<Event>, e: Event, s: nat)
    ensures On(es + [e], s) == if e.slot == s then On(es, s) + [e] else On(es, s)
  {
    assert (es + [e])[..|es|] == es;
  }

  lemma OfOne(rs: seq<Report>, id: int)
    requires rs != []
    ensures Of(rs, id) == if rs[|rs| - 1].id == id then Of(rs[..|rs| - 1], id) + [rs[|rs| - 1]] else Of(rs[..|rs| - 1], id)
  {}

  lemma ScriptOne(s: nat, wasFree: bool, rs: seq<Report>, r: Report)
    ensures Script(s, wasFree, rs + [r])
            == Script(s, wasFree, rs) + [Event(if wasFree && rs == [] then Down else Move, s, r.x, r.y)]
  {}

  // A slot that is seen is held.
  lemma SeenIsHeld(f: Frame, slots: seq<Slot>, rs: seq<Report>, s: nat)
    requires Taken(f, slots, rs) && s < |slots| && s in f.seen
    ensures f.slots[s].Held?
  {
    assert SlotTaken(f, slots, rs, s);
  }

  lemma OtherSlot(f: Frame, slots: seq<Slot>, rs: seq<Report>, s: nat)
    requires rs != [] && Taken(f, slots, rs[..|rs| - 1]) && s < |slots| && s != SlotFor(f, rs[|rs| - 1].id)
    ensures SlotTaken(Take(f, rs[|rs| - 1]), slots, rs, s)
  {
    var r := rs[|rs| - 1];
    var t := SlotFor(f, r.id);
    assert SlotTaken(f, slots, rs[..|rs| - 1], s);
    if f.slots[s].Held? { assert f.slots[s].id != r.id; }
    hide *;
    TakeOther(f, r, s);
    if f.slots[s].Held? { OfOne(rs, f.slots[s].id); }
    SameSlotTaken(f, Take(f, r), slots, rs[..|rs| - 1], rs, s);
  }

  lemma TakeOther(f: Frame, r: Report, s: nat)
    requires s < |f.slots| && s != SlotFor(f, r.id)
    ensures var g := Take(f, r);
            |g.slots| == |f.slots| && g.slots[s] == f.slots[s] && (s in g.seen <==> s in f.seen) && On(g.events, s) == On(f.events, s)
  {
    var t := SlotFor(f, r.id);
    if t >= 0 { OnOne(f.events, Event(if f.slots[t].Held? then Move else Down, t, r.x, r.y), s); }
  }

  lemma SameSlotTaken(f: Frame, g: Frame, slots: seq<Slot>, first: seq<Report>, rs: seq<Report>, s: nat)
    requires s < |slots| == |f.slots| == |g.slots| && SlotTaken(f, slots, first, s)
    requires g.slots[s] == f.slots[s] && (s in g.seen <==> s in f.seen) && On(g.events, s) == On(f.events, s)
    requires f.slots[s].Held? ==> Of(rs, f.slots[s].id) == Of(first, f.slots[s].id)
    ensures SlotTaken(g, slots, rs, s)
  {}

  lemma MovedSlot(f: Frame, slots: seq<Slot>, rs: seq<Report>, s: nat)
    requires rs != [] && Taken(f, slots, rs[..|rs| - 1]) && s < |slots| && s == Tracked(f.slots, rs[|rs| - 1].id)
    ensures SlotTaken(Take(f, rs[|rs| - 1]), slots, rs, s)
  {
    assert Script(s, slots[s].Free?, []) == [];
    hide Distinct, Served, Tracked, FirstFree, On, Of, Script;
    var r, first := rs[|rs| - 1], rs[..|rs| - 1];
    assert SlotTaken(f, slots, first, s);
    hide Taken;
    OnOne(f.events, Event(Move, s, r.x, r.y), s);
    OfOne(rs, r.id);
    ScriptOne(s, slots[s].Free?, Of(first, r.id), r);
  }

  lemma PressedSlot(f: Frame, slots: seq<Slot>, rs: seq<Report>, s: nat)
    requires rs != [] && Taken(f, slots, rs[..|rs| - 1]) && s < |slots|
    requires Tracked(f.slots, rs[|rs| - 1].id) < 0 && s == FirstFree(f.slots, f.seen, 0)
    ensures SlotTaken(Take(f, rs[|rs| - 1]), slots, rs, s)
  {
    var r, first := rs[|rs| - 1], rs[..|rs| - 1];
    assert SlotTaken(f, slots, first, s) && Served(f, first, r.id);
    assert Of(first, r.id) == [] && Script(s, true, []) == [];
    hide Taken, Distinct, Served, Tracked, FirstFree, On, Of, Script;
    OnOne(f.events, Event(Down, s, r.x, r.y), s);
    OfOne(rs, r.id);
    ScriptOne(s, true, [], r);
  }

  lemma SlotStep(f: Frame, slots: seq<Slot>, rs: seq<Report>, s: nat)
    requires rs != [] && Taken(f, slots, rs[..|rs| - 1]) && s < |slots|
    ensures SlotTaken(Take(f, rs[|rs| - 1]), slots, rs, s)
  {
    var id := rs[|rs| - 1].id;
    if s != SlotFor(f, id) { OtherSlot(f, slots, rs, s); }
    else if Tracked(f.slots, id) >= 0 { MovedSlot(f, slots, rs, s); }
    else { PressedSlot(f, slots, rs, s); }
  }

  lemma ServedStep(f: Frame, slots: seq<Slot>, rs: seq<Report>, id: int)
    requires rs != [] && Taken(f, slots, rs[..|rs| - 1])
    ensures Served(Take(f, rs[|rs| - 1]), rs, id)
  {
    var r := rs[|rs| - 1];
    var g := Take(f, r);
    assert Served(f, rs[..|rs| - 1], id);
    OfOne(rs, id);
    if Of(rs, id) != [] {
      var s := SlotFor(f, r.id);
      if s < 0 {
        forall k | 0 <= k < |g.slots| ensures g.slots[k].Held? {
          if g.slots[k].Free? { assert k in f.seen; SeenIsHeld(f, slots, rs[..|rs| - 1], k); }
        }
      } else if id == r.id {
        assert g.slots[s].Held? && g.slots[s].id == id;
      } else {
        var k := Tracked(f.slots, id);
        if k >= 0 { assert g.slots[k] == f.slots[k]; }
      }
    }
  }

  lemma DistinctStep(f: Frame, r: Report)
    requires Distinct(f.slots)
    ensures Distinct(Take(f, r).slots)
  {}

  lemma {:induction false} AllTaken(slots: seq<Slot>, rs: seq<Report>)
    requires Distinct(slots)
    ensures Taken(TakeAll(slots, rs), slots, rs)
    decreases |rs|
  {
    if rs != [] {
      var first, r := rs[..|rs| - 1], rs[|rs| - 1];
      var f := TakeAll(slots, first);
      AllTaken(slots, first);
      DistinctStep(f, r);
      forall id ensures Served(Take(f, r), rs, id) { ServedStep(f, slots, rs, id); }
      forall s | 0 <= s < |slots| ensures SlotTaken(Take(f, r), slots, rs, s) { SlotStep(f, slots, rs, s); }
    }
  }

  // ---- a whole frame

  lemma {:induction false} OnBoth(a: seq<Event>, b: seq<Event>, s: nat)
    ensures On(a + b, s) == On(a, s) + On(b, s)
    decreases |b|
  {
    if b == [] {
      assert a + b == a;
    } else {
      assert (a + b)[..|a + b| - 1] == a + b[..|b| - 1];
      OnBoth(a, b[..|b| - 1], s);
    }
  }

  lemma {:induction false} OnUps(f: Frame, n: nat, s: nat)
    requires n <= |f.slots| && s < |f.slots|
    ensures On(Ups(f, n), s) == if s < n && Lost(f, s) then [Event(Up, s, f.slots[s].x, f.slots[s].y)] else []
    decreases n
  {
    if n > 0 {
      OnUps(f, n - 1, s);
      if Lost(f, n - 1) { OnOne(Ups(f, n - 1), Event(Up, n - 1, f.slots[n - 1].x, f.slots[n - 1].y), s); }
      else { assert Ups(f, n) == Ups(f, n - 1); }
    }
  }

  // What the frame rs does to slot s, and what the game sees of it.
  ghost predicate SlotMeans(before: Slot, now: Slot, es: seq<Event>, s: nat, rs: seq<Report>) {
    match before
    case Held(id, x, y) =>
      if Of(rs, id) != [] then now == Last(id, Of(rs, id)) && es == Script(s, false, Of(rs, id))
      else now == Free && es == [Event(Up, s, x, y)]
    case Free =>
      if now.Free? then es == []
      else Of(rs, now.id) != [] && now == Last(now.id, Of(rs, now.id)) && es == Script(s, true, Of(rs, now.id))
  }

  // A finger keeps its slot as long as it is among the reports that are looked at, and is
  // released where it was last seen; no two slots hold the same finger.
  lemma FrameMeans(slots: seq<Slot>, all: seq<Report>)
    requires Distinct(slots)
    ensures var rs := all[..if |all| < 4 then |all| else 4]; var f := TakeAll(slots, rs);
            && |f.slots| == |slots| && Distinct(After(f))
            && forall s :: 0 <= s < |slots| ==> SlotMeans(slots[s], After(f)[s], On(Events(f), s), s, rs)
  {
    var rs := Looked(all);
    var f := TakeAll(slots, rs);
    AllTaken(slots, rs);
    forall s | 0 <= s < |slots| ensures SlotMeans(slots[s], After(f)[s], On(Events(f), s), s, rs) {
      assert SlotTaken(f, slots, rs, s);
      OnBoth(f.events, Ups(f, |f.slots|), s);
      OnUps(f, |f.slots|, s);
    }
  }

  // -- which finger gets which free slot

  // The fingers that are not tracked yet, in the order of their first reports.
  function Newcomers(slots: seq<Slot>, rs: seq<Report>): seq<int> {
    if rs == [] then []
    else
      var first, id := Newcomers(slots, rs[..|rs| - 1]), rs[|rs| - 1].id;
      if Tracked(slots, id) >= 0 || id in first then first else first + [id]
  }

  function Frees(slots: seq<Slot>, n: nat): (r: seq<nat>)
    requires n <= |slots|
    ensures forall k :: 0 <= k < |r| ==> r[k] < n && slots[r[k]].Free?
    ensures forall j, k :: 0 <= j < k < |r| ==> r[j] < r[k]
    ensures forall s :: 0 <= s < n && slots[s].Free? ==> s in r
  {
    if n == 0 then [] else Frees(slots, n - 1) + if slots[n - 1].Free? then [n - 1] else []
  }

  // The k-th free slot is held by the k-th newcomer, when there is one.
  predicate SeatedAt(f: Frame, frees: seq<nat>, ids: seq<int>, k: nat)
    requires k < |frees|
  {
    && frees[k] < |f.slots|
    && (if k < |ids| then f.slots[frees[k]].Held? && f.slots[frees[k]].id == ids[k] else f.slots[frees[k]].Free?)
  }

  ghost predicate Seated(f: Frame, frees: seq<nat>, ids: seq<int>) {
    forall k :: 0 <= k < |frees| ==> SeatedAt(f, frees, ids, k)
  }

  lemma {:induction false} SeatedAll(slots: seq<Slot>, rs: seq<Report>)
    requires Distinct(slots)
    ensures Seated(TakeAll(slots, rs), Frees(slots, |slots|), Newcomers(slots, rs))
    decreases |rs|
  {
    if rs != [] {
      SeatedAll(slots, rs[..|rs| - 1]);
      AllTaken(slots, rs[..|rs| - 1]);
      SeatedStep(slots, rs);
    }
  }

  lemma KnownFinger(f: Frame, slots: seq<Slot>, rs: seq<Report>, ids: seq<int>, id: int)
    requires Taken(f, slots, rs) && Seated(f, Frees(slots, |slots|), ids)
    ensures Tracked(slots, id) >= 0 ==> Tracked(f.slots, id) >= 0
    ensures Tracked(f.slots, id) >= 0 ==> Tracked(slots, id) >= 0 || id in ids
  {
    var u, t := Tracked(slots, id), Tracked(f.slots, id);
    if u >= 0 { assert SlotTaken(f, slots, rs, u); }
    if t >= 0 {
      assert SlotTaken(f, slots, rs, t);
      if slots[t].Free? {
        var frees := Frees(slots, |slots|);
        assert t in frees;
        var k :| 0 <= k < |frees| && frees[k] == t;
        assert SeatedAt(f, frees, ids, k);
      }
    }
  }

  // A newcomer gets the next of the free slots.
  lemma NextFree(f: Frame, slots: seq<Slot>, rs: seq<Report>, ids: seq<int>)
    requires Taken(f, slots, rs) && Seated(f, Frees(slots, |slots|), ids)
    ensures var frees := Frees(slots, |slots|);
            FirstFree(f.slots, f.seen, 0) == if |ids| < |frees| then frees[|ids|] else -1
  {
    var frees, s := Frees(slots, |slots|), FirstFree(f.slots, f.seen, 0);
    if |ids| < |frees| {
      var u := frees[|ids|];
      assert SeatedAt(f, frees, ids, |ids|);
      if u in f.seen { SeenIsHeld(f, slots, rs, u); }
    }
    if s >= 0 {
      assert SlotTaken(f, slots, rs, s);
      assert s in frees;
      var k :| 0 <= k < |frees| && frees[k] == s;
      assert SeatedAt(f, frees, ids, k);
    }
  }

  lemma MoveSeats(f: Frame, frees: seq<nat>, ids: seq<int>, r: Report)
    requires Seated(f, frees, ids) && Tracked(f.slots, r.id) >= 0
    ensures Seated(Take(f, r), frees, ids)
  {
    forall k | 0 <= k < |frees| ensures SeatedAt(Take(f, r), frees, ids, k) { assert SeatedAt(f, frees, ids, k); }
  }

  lemma PressSeats(f: Frame, frees: seq<nat>, ids: seq<int>, r: Report)
    requires Seated(f, frees, ids) && Tracked(f.slots, r.id) < 0
    requires FirstFree(f.slots, f.seen, 0) == if |ids| < |frees| then frees[|ids|] else -1
    requires forall j, k :: 0 <= j < k < |frees| ==> frees[j] < frees[k]
    ensures Seated(Take(f, r), frees, ids + [r.id])
    ensures r.id in ids ==> Seated(Take(f, r), frees, ids)
  {
    forall j | 0 <= j < |frees| && j < |ids| ensures ids[j] != r.id { assert SeatedAt(f, frees, ids, j); }
    forall k | 0 <= k < |frees|
      ensures SeatedAt(Take(f, r), frees, ids + [r.id], k) && (r.id in ids ==> SeatedAt(Take(f, r), frees, ids, k))
    {
      assert SeatedAt(f, frees, ids, k);
    }
  }

  lemma NewcomersStep(slots: seq<Slot>, rs: seq<Report>)
    requires rs != []
    ensures var first, id := Newcomers(slots, rs[..|rs| - 1]), rs[|rs| - 1].id;
            Newcomers(slots, rs) == if Tracked(slots, id) >= 0 || id in first then first else first + [id]
  {}

  lemma SeatedStep(slots: seq<Slot>, rs: seq<Report>)
    requires Distinct(slots) && rs != []
    requires Taken(TakeAll(slots, rs[..|rs| - 1]), slots, rs[..|rs| - 1])
    requires Seated(TakeAll(slots, rs[..|rs| - 1]), Frees(slots, |slots|), Newcomers(slots, rs[..|rs| - 1]))
    ensures Seated(TakeAll(slots, rs), Frees(slots, |slots|), Newcomers(slots, rs))
  {
    var first, r := rs[..|rs| - 1], rs[|rs| - 1];
    assert TakeAll(slots, rs) == Take(TakeAll(slots, first), r);
    NewcomersStep(slots, rs);
    hide *;
    var f, frees, ids := TakeAll(slots, first), Frees(slots, |slots|), Newcomers(slots, first);
    KnownFinger(f, slots, first, ids, r.id);
    NextFree(f, slots, first, ids);
    if Tracked(f.slots, r.id) >= 0 { MoveSeats(f, frees, ids, r); } else { PressSeats(f, frees, ids, r); }
  }

  // ---- the event streams of a whole run

  datatype Pen = Lifted | Pressed(x: int, y: int) | Broken

  // A press is followed by moves and by a release at the last position.
  function Draw(p: Pen, e: Event): Pen {
    match e.kind
    case Down => if p.Lifted? then Pressed(e.x, e.y) else Broken
    case Move => if p.Pressed? then Pressed(e.x, e.y) else Broken
    case Up => if p == Pressed(e.x, e.y) then Lifted else Broken
  }

  function DrawAll(p: Pen, es: seq<Event>): Pen {
    if es == [] then p else Draw(DrawAll(p, es[..|es| - 1]), es[|es| - 1])
  }

  function PenOf(s: Slot): Pen { if s.Free? then Lifted else Pressed(s.x, s.y) }

  lemma {:induction false} DrawBoth(p: Pen, a: seq<Event>, b: seq<Event>)
    ensures DrawAll(p, a + b) == DrawAll(DrawAll(p, a), b)
    decreases |b|
  {
    if b == [] {
      assert a + b == a;
    } else {
      assert (a + b)[..|a + b| - 1] == a + b[..|b| - 1];
      DrawBoth(p, a, b[..|b| - 1]);
    }
  }

  lemma {:induction false} DrawScript(p: Pen, s: nat, wasFree: bool, rs: seq<Report>)
    requires rs != [] && (if wasFree then p.Lifted? else p.Pressed?)
    ensures DrawAll(p, Script(s, wasFree, rs)) == Pressed(rs[|rs| - 1].x, rs[|rs| - 1].y)
    decreases |rs|
  {
    var first, r := rs[..|rs| - 1], rs[|rs| - 1];
    assert first + [r] == rs;
    ScriptOne(s, wasFree, first, r);
    var es := Script(s, wasFree, first);
    assert (Script(s, wasFree, rs))[..|rs| - 1] == es;
    if first != [] { DrawScript(p, s, wasFree, first); }
  }

  lemma SlotDraws(before: Slot, now: Slot, es: seq<Event>, s: nat, rs: seq<Report>)
    requires SlotMeans(before, now, es, s, rs)
    ensures DrawAll(PenOf(before), es) == PenOf(now)
  {
    if before.Held? && Of(rs, before.id) != [] {
      DrawScript(PenOf(before), s, false, Of(rs, before.id));
    } else if before.Free? && now.Held? {
      DrawScript(Lifted, s, true, Of(rs, now.id));
    } else if before.Held? {
      assert es[..0] == [] && DrawAll(PenOf(before), es[..0]) == PenOf(before);
    }
  }

  datatype Played = Played(slots: seq<Slot>, events: seq<Event>)

  function PlayFrame(p: Played, reports: seq<Report>): Played {
    var f := TakeAll(p.slots, Looked(reports));
    Played(After(f), p.events + Events(f))
  }

  function PlayAll(p: Played, frames: seq<seq<Report>>): Played {
    if frames == [] then p else PlayFrame(PlayAll(p, frames[..|frames| - 1]), frames[|frames| - 1])
  }

  ghost predicate WellDrawn(p: Played) {
    Distinct(p.slots) && forall s :: 0 <= s < |p.slots| ==> DrawAll(Lifted, On(p.events, s)) == PenOf(p.slots[s])
  }

  lemma FrameDraws(p: Played, reports: seq<Report>)
    requires WellDrawn(p)
    ensures WellDrawn(PlayFrame(p, reports)) && |PlayFrame(p, reports).slots| == |p.slots|
  {
    var f := TakeAll(p.slots, Looked(reports));
    var q := PlayFrame(p, reports);
    FrameMeans(p.slots, reports);
    forall s | 0 <= s < |q.slots| ensures DrawAll(Lifted, On(q.events, s)) == PenOf(q.slots[s]) {
      OnBoth(p.events, Events(f), s);
      DrawBoth(Lifted, On(p.events, s), On(Events(f), s));
      SlotDraws(p.slots[s], q.slots[s], On(Events(f), s), s, Looked(reports));
    }
  }

  // A frame of a run: what becomes of each slot, what the game sees of it, and that the releases
  // come last and in the order of the slots.
  lemma PlayFrameMeans(p: Played, reports: seq<Report>)
    requires Distinct(p.slots)
    ensures var rs, q := reports[..if |reports| < 4 then |reports| else 4], PlayFrame(p, reports);
            && |q.slots| == |p.slots| && |q.events| >= |p.events| && q.events[..|p.events|] == p.events
            && (forall s :: 0 <= s < |p.slots| ==> SlotMeans(p.slots[s], q.slots[s], On(q.events[|p.events|..], s), s, rs))
            && forall i, j :: |p.events| <= i < j < |q.events| && q.events[i].kind == Up ==>
                 q.events[j].kind == Up && q.events[i].slot < q.events[j].slot
  {
    var f := TakeAll(p.slots, Looked(reports));
    var q := PlayFrame(p, reports);
    assert q.events[|p.events|..] == Events(f);
    FrameMeans(p.slots, reports);
    NoUps(p.slots, Looked(reports));
    UpsInOrder(f, |f.slots|);
    forall i, j | |p.events| <= i < j < |q.events| && q.events[i].kind == Up
      ensures q.events[j].kind == Up && q.events[i].slot < q.events[j].slot
    {
      var k := |p.events|;
      assert q.events[i] == Events(f)[i - k] && q.events[j] == Events(f)[j - k];
    }
  }

  lemma {:induction false} NoUps(slots: seq<Slot>, rs: seq<Report>)
    ensures forall k :: 0 <= k < |TakeAll(slots, rs).events| ==> TakeAll(slots, rs).events[k].kind != Up
  {
    if rs != [] { NoUps(slots, rs[..|rs| - 1]); }
  }

  lemma {:induction false} UpsInOrder(f: Frame, n: nat)
    requires n <= |f.slots|
    ensures forall k :: 0 <= k < |Ups(f, n)| ==> Ups(f, n)[k].kind == Up && Ups(f, n)[k].slot < n
    ensures forall i, j :: 0 <= i < j < |Ups(f, n)| ==> Ups(f, n)[i].slot < Ups(f, n)[j].slot
    decreases n
  {
    if n > 0 { UpsInOrder(f, n - 1); }
  }

  // Over every run the stream of each slot is presses, moves and releases in order, and a slot
  // is held exactly while its last press is not released; the fingers stay distinct.
  lemma {:induction false} RunDraws(p: Played, frames: seq<seq<Report>>)
    requires WellDrawn(p)
    ensures WellDrawn(PlayAll(p, frames)) && |PlayAll(p, frames).slots| == |p.slots|
    decreases |frames|
  {
    if frames != [] {
      RunDraws(p, frames[..|frames| - 1]);
      FrameDraws(PlayAll(p, frames[..|frames| - 1]), frames[|frames| - 1]);
    }
  }

  // ---- the block itself

  class Screen {
    const on: array<bool>
    const vid: array<int>
    const lx: array<int>
    const ly: array<int>
    const hasMouse: bool
    var touch: seq<Event>   // what the game's touch function was called with
    var mouse: seq<Event>   // and its mouse function

    ghost predicate Valid()
      reads this, on, vid, lx, ly
    {
      on.Length == vid.Length == lx.Length == ly.Length == SLOTS && vid != lx && vid != ly && lx != ly
    }

    function SlotAt(s: nat): Slot
      reads on, vid, lx, ly
      requires s < on.Length && s < vid.Length && s < lx.Length && s < ly.Length
    {
      if on[s] then Held(vid[s], lx[s], ly[s]) else Free
    }

    function View(): (v: seq<Slot>)
      reads this, on, vid, lx, ly
      requires Valid()
      ensures |v| == 2 && forall s :: 0 <= s < 2 ==> v[s] == SlotAt(s)
    {
      seq(SLOTS, s requires 0 <= s < SLOTS && Valid() reads this, on, vid, lx, ly => SlotAt(s))
    }

    constructor (hasMouse: bool)
      ensures Valid() && fresh(on) && fresh(vid) && fresh(lx) && fresh(ly)
      ensures View() == [Free, Free] && touch == [] && mouse == [] && this.hasMouse == hasMouse
    {
      on, vid, lx, ly := new bool[SLOTS](_ => false), new int[SLOTS](_ => 0), new int[SLOTS](_ => 0), new int[SLOTS](_ => 0);
      touch, mouse := [], [];
      this.hasMouse := hasMouse;
    }

    ghost predicate Mirrors() reads this { mouse == if hasMouse then On(touch, 0) else [] }

    method Emit(e: Event)
      requires Mirrors()
      modifies this
      ensures touch == old(touch) + [e] && Mirrors()
    {
      OnOne(touch, e, 0);
      touch := touch + [e];
      if e.slot == 0 && hasMouse { mouse := mouse + [e]; }
    }

    method Find(id: int, seen: array<bool>) returns (slot: int)
      requires Valid() && seen.Length == SLOTS
      ensures slot == SlotFor(Frame(View(), Marked(seen), []), id)
    {
      ghost var v := View();
      slot := -1;
      assert v[..0] == [] && v[..SLOTS] == v;
      for s := 0 to SLOTS
        invariant slot == Tracked(v[..s], id)
      {
        assert v[..s + 1][..s] == v[..s];
        if on[s] && vid[s] == id { slot := s; }
      }
      if slot < 0 {
        var s := 0;
        ghost var marked := Marked(seen);
        while s < SLOTS
          invariant 0 <= s <= SLOTS && FirstFree(v, marked, 0) == FirstFree(v, marked, s)
        {
          if !on[s] && !seen[s] { slot := s; break; }
          s := s + 1;
        }
      }
    }

    // One report.
    method TakeOne(r: Report, seen: array<bool>)
      requires Valid() && Mirrors() && seen.Length == SLOTS && seen != on
      modifies this, on, vid, lx, ly, seen
      ensures Valid() && Mirrors()
      ensures var f := Take(Frame(old(View()), old(Marked(seen)), []), r);
              View() == f.slots && Marked(seen) == f.seen && touch == old(touch) + f.events
    {
      var slot := Find(r.id, seen);
      if slot < 0 { return; }
      seen[slot] := true;
      assert forall k :: 0 <= k < SLOTS ==> (seen[k] <==> k == slot || old(seen[k]));
      assert forall k :: 0 <= k < SLOTS ==> (k in Marked(seen) <==> seen[k]);
      Emit(Event(if on[slot] then Move else Down, slot, r.x, r.y));
      on[slot], vid[slot], lx[slot], ly[slot] := true, r.id, r.x, r.y;
      assert View() == old(View())[slot := Held(r.id, r.x, r.y)];
      assert forall k :: 0 <= k < SLOTS ==> (k in Marked(seen) <==> k == slot || old(seen[k]));
      assert forall k :: 0 <= k < SLOTS ==> (k in old(Marked(seen)) <==> old(seen[k]));
      assert Marked(seen) == old(Marked(seen)) + {slot};
    }

    // The slots whose fingers were not seen.
    method ReleaseLost(seen: array<bool>)
      requires Valid() && Mirrors() && seen.Length == SLOTS && seen != on
      modifies this, on
      ensures Valid() && Mirrors()
      ensures var f := Frame(old(View()), Marked(seen), []);
              View() == After(f) && touch == old(touch) + Ups(f, SLOTS)
    {
      ghost var f := Frame(View(), Marked(seen), []);
      for s := 0 to SLOTS
        invariant Valid() && Mirrors() && seen[..] == old(seen[..]) && touch == old(touch) + Ups(f, s)
        invariant forall k :: 0 <= k < SLOTS ==> SlotAt(k) == if k < s && Lost(f, k) then Free else f.slots[k]
      {
        if on[s] && !seen[s] {
          Emit(Event(Up, s, lx[s], ly[s]));
          on[s] := false;
        }
      }
      assert View() == After(f);
    }

    method TakeReports(reports: seq<Report>, seen: array<bool>)
      requires Valid() && Mirrors() && seen.Length == SLOTS && seen != on && Marked(seen) == {}
      modifies this, on, vid, lx, ly, seen
      ensures Valid() && Mirrors()
      ensures var f := TakeAll(old(View()), Looked(reports));
              View() == f.slots && Marked(seen) == f.seen && touch == old(touch) + f.events
    {
      hide *;
      var r := 0;
      TakeNone(View());
      while r < |reports| && r < REPORTS
        invariant 0 <= r <= |Looked(reports)| && Valid() && Mirrors()
        invariant var f := TakeAll(old(View()), Looked(reports)[..r]);
                  View() == f.slots && Marked(seen) == f.seen && touch == old(touch) + f.events
      {
        TakeOneMore(old(View()), reports, r);
        TakeOne(reports[r], seen);
        r := r + 1;
      }
      AllLooked(reports, r);
    }

    // The block of one frame.
    method PlayOne(reports: seq<Report>)
      requires Valid() && Mirrors()
      modifies this, on, vid, lx, ly
      ensures Valid() && Mirrors()
      ensures Played(View(), touch) == PlayFrame(Played(old(View()), old(touch)), reports)
    {
      var seen := new bool[SLOTS](_ => false);
      assert Marked(seen) == {};
      ghost var f := TakeAll(View(), Looked(reports));
      hide TakeAll, Ups, After, Looked;
      TakeReports(reports, seen);
      UpsOnly(f, SLOTS);
      ReleaseLost(seen);
    }
  }

  lemma TakeNone(slots: seq<Slot>)
    ensures TakeAll(slots, []) == Frame(slots, {}, [])
  {}

  lemma AllLooked(reports: seq<Report>, r: nat)
    requires r <= |Looked(reports)| && !(r < |reports| && r < REPORTS)
    ensures Looked(reports)[..r] == Looked(reports)
  {}

  // All frames of a run.
  method PlayFrames(screen: Screen, frames: seq<seq<Report>>)
    requires screen.Valid() && screen.Mirrors() && WellDrawn(Played(screen.View(), screen.touch))
    modifies screen, screen.on, screen.vid, screen.lx, screen.ly
    ensures screen.Valid() && WellDrawn(Played(screen.View(), screen.touch))
    ensures Played(screen.View(), screen.touch) == PlayAll(Played(old(screen.View()), old(screen.touch)), frames)
    ensures screen.mouse == if screen.hasMouse then On(screen.touch, 0) else []
  {
    ghost var start := Played(screen.View(), screen.touch);
    for k := 0 to |frames|
      invariant screen.Valid() && screen.Mirrors()
      invariant Played(screen.View(), screen.touch) == PlayAll(start, frames[..k])
    {
      assert frames[..k + 1][..k] == frames[..k];
      screen.PlayOne(frames[k]);
    }
    assert frames[..|frames|] == frames;
    RunDraws(start, frames);
  }

  ghost function Marked(seen: array<bool>): set<nat>
    reads seen
  {
    set s: nat | 0 <= s < seen.Length && seen[s] :: s
  }

  lemma TakeOneMore(slots: seq<Slot>, reports: seq<Report>, r: nat)
    requires r < |reports| && r < REPORTS
    ensures r < |Looked(reports)|
    ensures var rs := Looked(reports);
            var f := TakeAll(slots, rs[..r]);
            var g := Take(Frame(f.slots, f.seen, []), reports[r]);
            TakeAll(slots, rs[..r + 1]) == Frame(g.slots, g.seen, f.events + g.events)
  {
    var rs := Looked(reports);
    assert rs[..r + 1][..r] == rs[..r] && rs[..r + 1][r] == reports[r];
    TakeAppends(TakeAll(slots, rs[..r]), reports[r]);
  }

  lemma TakeAppends(f: Frame, r: Report)
    ensures var g := Take(Frame(f.slots, f.seen, []), r);
            Take(f, r) == Frame(g.slots, g.seen, f.events + g.events)
  {}

  lemma {:induction false} UpsOnly(f: Frame, n: nat)
    requires n <= |f.slots|
    ensures Ups(f, n) == Ups(Frame(f.slots, f.seen, []), n) && After(f) == After(Frame(f.slots, f.seen, []))
    decreases n
  {
    if n > 0 { UpsOnly(f, n - 1); }
  }
}
