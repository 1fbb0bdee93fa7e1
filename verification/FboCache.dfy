// The attach caches of loader/gl_lock.c, for renderbuffers and for textures. Attach calls that
// repeat what a cache remembers are not handed to the driver; the driver must not be able to tell.

module FboCache {

  // ---- the driver (section 4.4 of the OpenGL ES 2.0 specification)

  // What is attached at a point: a renderbuffer, or a face of a texture.
  datatype Image = Buffer(id: nat) | Texture(id: nat, face: nat)

  // bound is the bound framebuffer, objects and textures map the live names to the objects they
  // name, attached maps a framebuffer and an attachment point to an image.
  datatype Gl = Gl(bound: nat, objects: map<nat, nat>, textures: map<nat, nat>, attached: map<(nat, nat), Image>, next: nat)

  datatype Tex = Tex(name: nat, level: nat)

  datatype Call =
    | Bind(fbo: nat)
    | DeleteFbos(fbos: seq<nat>)
    | Generate(rb: nat)
    | DeleteRbs(rbs: seq<nat>)
    | Attach(point: nat, name: nat)
    | GenerateTex(tex: nat)
    | DeleteTexs(texs: seq<nat>)
    | AttachTex(at: nat, image: Tex, face: nat)

  // What an attach call asks for: nothing to be attached, or an image. A dead name and a level
  // other than 0 are errors.
  datatype Want = Error | Detach | Put(image: Image)

  function RbWant(g: Gl, rb: nat): Want {
    if rb == 0 then Detach else if rb in g.objects then Put(Buffer(g.objects[rb])) else Error
  }

  function TexWant(g: Gl, t: Tex, face: nat): Want {
    if t.name == 0 then Detach
    else if t.level == 0 && t.name in g.textures then Put(Texture(g.textures[t.name], face))
    else Error
  }

  function Set(g: Gl, point: nat, w: Want): Gl {
    if g.bound == 0 || w.Error? then g   // nothing changes
    else if w.Detach? then g.(attached := g.attached - {(g.bound, point)})
    else g.(attached := g.attached[(g.bound, point) := w.image])
  }

  // A deleted renderbuffer or texture is detached from the bound framebuffer only; other
  // framebuffers keep the object. Deleting the bound framebuffer binds 0.
  function Driver(g: Gl, c: Call): Gl {
    match c
    case Bind(fbo) => g.(bound := fbo)
    case DeleteFbos(fbos) =>
      g.(bound := if g.bound in fbos then 0 else g.bound,
         attached := map k | k in g.attached && k.0 !in fbos :: g.attached[k])
    case Generate(rb) => g.(objects := g.objects[rb := g.next], next := g.next + 1)
    case DeleteRbs(rbs) =>
      var gone := set rb | rb in g.objects && rb in rbs :: Buffer(g.objects[rb]);
      g.(objects := map rb | rb in g.objects && rb !in rbs :: g.objects[rb],
         attached := map k | k in g.attached && !(k.0 == g.bound && g.attached[k] in gone) :: g.attached[k])
    case Attach(point, rb) => Set(g, point, RbWant(g, rb))
    case GenerateTex(t) => g.(textures := g.textures[t := g.next], next := g.next + 1)
    case DeleteTexs(ts) =>
      g.(textures := map t | t in g.textures && t !in ts :: g.textures[t],
         attached := map k | k in g.attached && !(k.0 == g.bound && Gone(g, ts, g.attached[k])) :: g.attached[k])
    case AttachTex(point, t, face) => Set(g, point, TexWant(g, t, face))
  }

  // A face of one of the textures.
  predicate Gone(g: Gl, ts: seq<nat>, i: Image) {
    i.Texture? && exists k :: 0 <= k < |ts| && ts[k] in g.textures && g.textures[ts[k]] == i.id
  }

  // ---- the caches

  datatype Entry<R> = Entry(fbo: nat, point: nat, what: R)

  const NOTHING: nat := 0xFFFFFFFF   // marks an entry that remembers nothing
  const CAPACITY: nat := 256

  datatype State = State(rbs: seq<Entry<nat>>, texs: seq<Entry<Tex>>, cur: nat, gl: Gl)

  // The first entry of the framebuffer and the point, or |entries|.
  function Slot<R>(entries: seq<Entry<R>>, fbo: nat, point: nat): (i: nat)
    ensures i <= |entries| && (i < |entries| ==> entries[i].fbo == fbo && entries[i].point == point)
    ensures forall j :: 0 <= j < i ==> !(entries[j].fbo == fbo && entries[j].point == point)
  {
    if entries == [] || (entries[0].fbo == fbo && entries[0].point == point) then 0
    else 1 + Slot(entries[1..], fbo, point)
  }

  function ForgetRbs(entries: seq<Entry<nat>>, fbos: seq<nat>, rbs: seq<nat>): (r: seq<Entry<nat>>)
    ensures |r| == |entries|
    ensures forall i :: 0 <= i < |r| ==>
      r[i] == if entries[i].fbo in fbos || entries[i].what in rbs then entries[i].(what := NOTHING) else entries[i]
  {
    seq(|entries|, i requires 0 <= i < |entries| =>
      if entries[i].fbo in fbos || entries[i].what in rbs then entries[i].(what := NOTHING) else entries[i])
  }

  function Wiped(e: Entry<Tex>): Entry<Tex> { e.(what := e.what.(name := NOTHING)) }

  function ForgetTexs(entries: seq<Entry<Tex>>, fbos: seq<nat>): (r: seq<Entry<Tex>>)
    ensures |r| == |entries|
    ensures forall i :: 0 <= i < |r| ==> r[i] == if entries[i].fbo in fbos then Wiped(entries[i]) else entries[i]
  {
    seq(|entries|, i requires 0 <= i < |entries| => if entries[i].fbo in fbos then Wiped(entries[i]) else entries[i])
  }

  // What a cache remembers after an attach call that was handed on.
  function Remember<R>(entries: seq<Entry<R>>, fbo: nat, point: nat, what: R): seq<Entry<R>> {
    var i := Slot(entries, fbo, point);
    if i < |entries| then entries[i := Entry(fbo, point, what)]
    else if |entries| < CAPACITY then entries + [Entry(fbo, point, what)]
    else entries
  }

  predicate Repeats<R(==)>(entries: seq<Entry<R>>, fbo: nat, point: nat, what: R) {
    var i := Slot(entries, fbo, point);
    i < |entries| && entries[i].what == what
  }

  function Filtered(s: State, c: Call): State {
    match c
    case Bind(fbo) => s.(cur := fbo, gl := Driver(s.gl, c))
    case DeleteFbos(fbos) => s.(rbs := ForgetRbs(s.rbs, fbos, []), texs := ForgetTexs(s.texs, fbos), gl := Driver(s.gl, c))
    case Generate(_) => s.(gl := Driver(s.gl, c))
    case DeleteRbs(rbs) => s.(rbs := ForgetRbs(s.rbs, [], rbs), gl := Driver(s.gl, c))
    case Attach(point, rb) =>
      if Repeats(s.rbs, s.cur, point, rb) then s
      else s.(rbs := Remember(s.rbs, s.cur, point, rb), gl := Driver(s.gl, c))
    case GenerateTex(_) => s.(gl := Driver(s.gl, c))
    case DeleteTexs(_) => s.(gl := Driver(s.gl, c))
    case AttachTex(point, t, _) =>
      if Repeats(s.texs, s.cur, point, t) then s
      else s.(texs := Remember(s.texs, s.cur, point, t), gl := Driver(s.gl, c))
  }

  // ---- the caches tell the truth

  ghost predicate Unique<R>(entries: seq<Entry<R>>) {
    forall i, j :: 0 <= i < j < |entries| ==> !(entries[i].fbo == entries[j].fbo && entries[i].point == entries[j].point)
  }

  // What an entry remembers is what the driver has attached.
  predicate RbTrue(e: Entry<nat>, g: Gl) {
    e.what == NOTHING || e.fbo == 0 ||
    (if e.what == 0 then (e.fbo, e.point) !in g.attached
     else e.what in g.objects && (e.fbo, e.point) in g.attached && g.attached[(e.fbo, e.point)] == Buffer(g.objects[e.what]))
  }

  // A level other than 0 is always an error, so that it does not matter.
  predicate TexTrue(e: Entry<Tex>, g: Gl) {
    e.what.name == NOTHING || e.fbo == 0 ||
    (if e.what.name == 0 then (e.fbo, e.point) !in g.attached
     else
       e.what.level != 0 ||
       (e.what.name in g.textures && (e.fbo, e.point) in g.attached && IsTexture(g.attached[(e.fbo, e.point)], g.textures[e.what.name])))
  }

  predicate IsTexture(i: Image, id: nat) { i.Texture? && i.id == id }

  ghost predicate NamesOk(names: map<nat, nat>, next: nat) {
    && (forall a :: a in names ==> names[a] < next && a != 0 && a != NOTHING)
    && (forall a, b :: a in names && b in names && a != b ==> names[a] != names[b])
  }

  ghost predicate Sound(g: Gl) {
    && NamesOk(g.objects, g.next) && NamesOk(g.textures, g.next)
    && (forall k :: k in g.attached ==> k.0 != 0 && g.attached[k].id < g.next)
  }

  // Whatever the entries say.
  ghost predicate Regular(s: State) {
    && |s.rbs| <= 256 && Unique(s.rbs) && |s.texs| <= 256 && Unique(s.texs) && Sound(s.gl)
    && (s.gl.bound != 0 ==> s.cur == s.gl.bound)
    && (s.gl.bound == 0 ==> forall k :: k in s.gl.attached ==> k.0 != s.cur)
  }

  ghost predicate AllTrue(s: State) {
    && (forall i :: 0 <= i < |s.rbs| ==> RbTrue(s.rbs[i], s.gl))
    && (forall i :: 0 <= i < |s.texs| ==> TexTrue(s.texs[i], s.gl))
  }

  ghost predicate Agrees(s: State) { Regular(s) && AllTrue(s) }

  // ---- when they go on doing so

  predicate Full<R>(entries: seq<Entry<R>>, fbo: nat, point: nat) {
    Slot(entries, fbo, point) == |entries| && |entries| == 256
  }

  // An attach call that is remembered: of a live name to the bound framebuffer, or one that cannot
  // do harm.
  predicate RbOwn(s: State, point: nat, rb: nat) {
    (s.cur == s.gl.bound && rb in s.gl.objects) || rb == 0 || s.cur == 0 || rb == 0xFFFF_FFFF || Full(s.rbs, s.cur, point)
  }

  predicate TexOwn(s: State, point: nat, t: Tex) {
    || (s.cur == s.gl.bound && t.name in s.gl.textures) || t.name == 0 || t.level != 0
    || s.cur == 0 || t.name == 0xFFFF_FFFF || Full(s.texs, s.cur, point)
  }

  // The call has an effect that the other cache remembers otherwise.
  predicate RbSpoilt(s: State, point: nat, w: Want) {
    var i := Slot(s.rbs, s.cur, point);
    && s.gl.bound != 0 && !w.Error? && i < |s.rbs|
    && s.rbs[i].what != NOTHING && !(s.rbs[i].what == 0 && w.Detach?)
  }

  predicate TexSpoilt(s: State, point: nat, w: Want) {
    var i := Slot(s.texs, s.cur, point);
    && s.gl.bound != 0 && !w.Error? && i < |s.texs|
    && s.texs[i].what.name != NOTHING && !(s.texs[i].what.name == 0 && w.Detach?)
    && (s.texs[i].what.name == 0 || s.texs[i].what.level == 0)
  }

  // A suppressed call for another face of the texture that is attached.
  predicate OtherFace(s: State, point: nat, t: Tex, face: nat) {
    && s.gl.bound != 0 && TexWant(s.gl, t, face).Put?
    && ((s.gl.bound, point) in s.gl.attached ==> s.gl.attached[(s.gl.bound, point)] != TexWant(s.gl, t, face).image)
  }

  // An attach call has to be of a live name to the bound framebuffer, or of none, at a point of
  // which the other cache remembers nothing. A texture must not be deleted while it is
  // remembered. The driver hands out unused names.
  ghost predicate Guard(s: State, c: Call) {
    match c
    case Attach(point, rb) =>
      Repeats(s.rbs, s.cur, point, rb) ||
      (RbOwn(s, point, rb) && !TexSpoilt(s, point, RbWant(s.gl, rb)))
    case Generate(rb) =>
      rb != 0 && rb != NOTHING && forall i :: 0 <= i < |s.rbs| && s.rbs[i].fbo != 0 ==> s.rbs[i].what != rb
    case AttachTex(point, t, face) =>
      if Repeats(s.texs, s.cur, point, t) then !OtherFace(s, point, t, face)
      else TexOwn(s, point, t) && !RbSpoilt(s, point, TexWant(s.gl, t, face))
    case GenerateTex(t) =>
      t != 0 && t != NOTHING && forall i :: 0 <= i < |s.texs| && s.texs[i].fbo != 0 && s.texs[i].what.level == 0 ==> s.texs[i].what.name != t
    case DeleteTexs(ts) =>
      forall i :: 0 <= i < |s.texs| && s.texs[i].fbo != 0 && s.texs[i].what.level == 0 && s.texs[i].what.name in s.gl.textures ==>
        s.texs[i].what.name !in ts
    case _ => true
  }

  // Suppressing a repeated attach of a renderbuffer changes nothing,
  lemma RepeatChangesNothing(s: State, point: nat, rb: nat)
    requires Agrees(s) && Repeats(s.rbs, s.cur, point, rb)
    ensures Driver(s.gl, Attach(point, rb)) == s.gl
  {
    var e := s.rbs[Slot(s.rbs, s.cur, point)];
    assert RbTrue(e, s.gl) && e.what == rb;
    SetAgain(s.gl, point, RbWant(s.gl, rb));
  }

  lemma SetAgain(g: Gl, point: nat, w: Want)
    requires g.bound != 0 && w.Detach? ==> (g.bound, point) !in g.attached
    requires g.bound != 0 && w.Put? ==> (g.bound, point) in g.attached && g.attached[(g.bound, point)] == w.image
    ensures Set(g, point, w) == g
  {
    var k := (g.bound, point);
    if g.bound != 0 && w.Detach? { assert g.attached - {k} == g.attached; }
    if g.bound != 0 && w.Put? { assert g.attached[k := w.image] == g.attached; }
  }

  // and that of a texture, exactly when it is the same face.
  lemma TexRepeatChangesNothing(s: State, point: nat, t: Tex, face: nat)
    requires Agrees(s) && Repeats(s.texs, s.cur, point, t)
    ensures Driver(s.gl, AttachTex(point, t, face)) == s.gl <==> !OtherFace(s, point, t, face)
  {
    var e := s.texs[Slot(s.texs, s.cur, point)];
    assert TexTrue(e, s.gl) && e.what == t;
    var w := TexWant(s.gl, t, face);
    if OtherFace(s, point, t, face) {
      assert Driver(s.gl, AttachTex(point, t, face)).attached[(s.gl.bound, point)] == w.image;
    } else {
      SetAgain(s.gl, point, w);
    }
  }

  // The driver cannot tell the difference in any single call, save for another face.
  lemma SameDriver(s: State, c: Call)
    requires Agrees(s)
    ensures Filtered(s, c).gl == Driver(s.gl, c) <==>
      !(c.AttachTex? && Repeats(s.texs, s.cur, c.at, c.image) && OtherFace(s, c.at, c.image, c.face))
  {
    if c.Attach? && Repeats(s.rbs, s.cur, c.point, c.name) { RepeatChangesNothing(s, c.point, c.name); }
    if c.AttachTex? && Repeats(s.texs, s.cur, c.at, c.image) { TexRepeatChangesNothing(s, c.at, c.image, c.face); }
  }

  // ---- what every call keeps

  lemma RememberIsUnique<R>(entries: seq<Entry<R>>, fbo: nat, point: nat, what: R)
    requires Unique(entries)
    ensures Unique(Remember(entries, fbo, point, what))
  {}

  lemma DriverIsSound(g: Gl, c: Call)
    requires Sound(g)
    requires c.Generate? ==> c.rb != 0 && c.rb != NOTHING
    requires c.GenerateTex? ==> c.tex != 0 && c.tex != NOTHING
    ensures Sound(Driver(g, c))
  {
    var h := Driver(g, c);
    hide NamesOk;
    match c
    case Bind(_) => SoundLeft(g, h);
    case DeleteFbos(_) => SoundLeft(g, h);
    case Generate(rb) => NewName(g.objects, g.next, rb); NamesGrow(g.textures, g.next);
    case DeleteRbs(_) => NamesLeft(g.objects, h.objects, g.next); SoundLeft(g, h);
    case GenerateTex(t) => NewName(g.textures, g.next, t); NamesGrow(g.objects, g.next);
    case DeleteTexs(_) => NamesLeft(g.textures, h.textures, g.next); SoundLeft(g, h);
    case Attach(point, rb) => WantIsOld(g, RbWant(g, rb)); SoundSet(g, point, RbWant(g, rb));
    case AttachTex(point, t, face) => WantIsOld(g, TexWant(g, t, face)); SoundSet(g, point, TexWant(g, t, face));
  }

  lemma SoundLeft(g: Gl, h: Gl)
    requires Sound(g) && h.next == g.next && NamesOk(h.objects, h.next) && NamesOk(h.textures, h.next)
    requires forall k :: k in h.attached ==> k in g.attached && h.attached[k] == g.attached[k]
    ensures Sound(h)
  {}

  lemma SoundSet(g: Gl, point: nat, w: Want)
    requires Sound(g) && (w.Put? ==> w.image.id < g.next)
    ensures Sound(Set(g, point, w))
  {
    hide NamesOk;
  }

  lemma NewName(names: map<nat, nat>, next: nat, n: nat)
    requires NamesOk(names, next) && n != 0 && n != NOTHING
    ensures NamesOk(names[n := next], next + 1)
  {}

  lemma NamesGrow(names: map<nat, nat>, next: nat)
    requires NamesOk(names, next)
    ensures NamesOk(names, next + 1)
  {}

  lemma NamesLeft(names: map<nat, nat>, left: map<nat, nat>, next: nat)
    requires NamesOk(names, next) && forall a :: a in left ==> a in names && left[a] == names[a]
    ensures NamesOk(left, next)
  {}

  lemma WantIsOld(g: Gl, w: Want)
    requires Sound(g)
    requires w.Put? ==> (exists a :: a in g.objects && g.objects[a] == w.image.id) || (exists a :: a in g.textures && g.textures[a] == w.image.id)
    ensures w.Put? ==> w.image.id < g.next
  {}

  // But for the truth of the entries, and as long as the driver hands out proper names.
  lemma StaysRegular(s: State, c: Call)
    requires Regular(s)
    requires c.Generate? ==> c.rb != 0 && c.rb != NOTHING
    requires c.GenerateTex? ==> c.tex != 0 && c.tex != NOTHING
    ensures Regular(Filtered(s, c))
  {
    DriverIsSound(s.gl, c);
    if c.Attach? { RememberIsUnique(s.rbs, s.cur, c.point, c.name); }
    if c.AttachTex? { RememberIsUnique(s.texs, s.cur, c.at, c.image); }
    hide Sound;
  }

  // ---- the truth after a call

  lemma BindAgrees(s: State, fbo: nat)
    requires Agrees(s)
    ensures AllTrue(Filtered(s, Bind(fbo)))
  {
    var t := Filtered(s, Bind(fbo));
    forall i | 0 <= i < |t.rbs| ensures RbTrue(t.rbs[i], t.gl) { assert RbTrue(s.rbs[i], s.gl); }
    forall i | 0 <= i < |t.texs| ensures TexTrue(t.texs[i], t.gl) { assert TexTrue(s.texs[i], s.gl); }
  }

  lemma DeleteFbosAgrees(s: State, fbos: seq<nat>)
    requires Agrees(s)
    ensures AllTrue(Filtered(s, DeleteFbos(fbos)))
  {
    var t := Filtered(s, DeleteFbos(fbos));
    forall i | 0 <= i < |t.rbs| ensures RbTrue(t.rbs[i], t.gl) { assert RbTrue(s.rbs[i], s.gl); }
    forall i | 0 <= i < |t.texs| ensures TexTrue(t.texs[i], t.gl) { assert TexTrue(s.texs[i], s.gl); }
  }

  lemma DeleteRbsAgrees(s: State, rbs: seq<nat>)
    requires Agrees(s)
    ensures AllTrue(Filtered(s, DeleteRbs(rbs)))
  {
    var t := Filtered(s, DeleteRbs(rbs));
    forall i | 0 <= i < |t.rbs| ensures RbTrue(t.rbs[i], t.gl) { assert RbTrue(s.rbs[i], s.gl); }
    forall i | 0 <= i < |t.texs| ensures TexTrue(t.texs[i], t.gl) { assert TexTrue(s.texs[i], s.gl); }
  }

  // A new name stays unknown to the caches if and only if the guard holds.
  lemma GenerateAgrees(s: State, rb: nat)
    requires Agrees(s)
    ensures Agrees(Filtered(s, Generate(rb))) <==> Guard(s, Generate(rb))
  {
    var t := Filtered(s, Generate(rb));
    if Guard(s, Generate(rb)) {
      StaysRegular(s, Generate(rb));
      forall i | 0 <= i < |t.rbs| ensures RbTrue(t.rbs[i], t.gl) { assert RbTrue(s.rbs[i], s.gl); }
      forall i | 0 <= i < |t.texs| ensures TexTrue(t.texs[i], t.gl) { assert TexTrue(s.texs[i], s.gl); }
    } else {
      assert rb in t.gl.objects;
      if rb != 0 && rb != NOTHING {
        var i :| 0 <= i < |s.rbs| && s.rbs[i].fbo != 0 && s.rbs[i].what == rb;
        assert RbTrue(s.rbs[i], s.gl) && !RbTrue(t.rbs[i], t.gl);
      }
    }
  }

  lemma GenerateTexAgrees(s: State, n: nat)
    requires Agrees(s)
    ensures Agrees(Filtered(s, GenerateTex(n))) <==> Guard(s, GenerateTex(n))
  {
    var t := Filtered(s, GenerateTex(n));
    if Guard(s, GenerateTex(n)) {
      StaysRegular(s, GenerateTex(n));
      forall i | 0 <= i < |t.rbs| ensures RbTrue(t.rbs[i], t.gl) { assert RbTrue(s.rbs[i], s.gl); }
      forall i | 0 <= i < |t.texs| ensures TexTrue(t.texs[i], t.gl) { assert TexTrue(s.texs[i], s.gl); }
    } else {
      assert n in t.gl.textures;
      if n != 0 && n != NOTHING {
        var i :| 0 <= i < |s.texs| && s.texs[i].fbo != 0 && s.texs[i].what.level == 0 && s.texs[i].what.name == n;
        assert TexTrue(s.texs[i], s.gl) && !TexTrue(t.texs[i], t.gl);
      }
    }
  }

  // Deleting a texture does not forget it.
  lemma DeleteTexsAgrees(s: State, ts: seq<nat>)
    requires Agrees(s)
    ensures AllTrue(Filtered(s, DeleteTexs(ts))) <==> Guard(s, DeleteTexs(ts))
  {
    var t := Filtered(s, DeleteTexs(ts));
    if Guard(s, DeleteTexs(ts)) {
      forall i | 0 <= i < |t.rbs| ensures RbTrue(t.rbs[i], t.gl) { assert RbTrue(s.rbs[i], s.gl); }
      forall i | 0 <= i < |t.texs| ensures TexTrue(t.texs[i], t.gl) {
        assert TexTrue(s.texs[i], s.gl);
        StillAttached(s, ts, i);
      }
    } else {
      var i :| 0 <= i < |s.texs| && s.texs[i].fbo != 0 && s.texs[i].what.level == 0 && s.texs[i].what.name in s.gl.textures
               && s.texs[i].what.name in ts;
      assert !TexTrue(t.texs[i], t.gl);
    }
  }

  lemma StillAttached(s: State, ts: seq<nat>, i: nat)
    requires Agrees(s) && Guard(s, DeleteTexs(ts)) && i < |s.texs| && TexTrue(s.texs[i], s.gl)
    ensures TexTrue(s.texs[i], Driver(s.gl, DeleteTexs(ts)))
  {
    var e := s.texs[i];
    var k := (e.fbo, e.point);
    if e.fbo != 0 && e.what.level == 0 && e.what.name in s.gl.textures { GoneIs(s.gl, ts, e.what.name, s.gl.attached[k]); }
  }

  lemma GoneIs(g: Gl, ts: seq<nat>, n: nat, i: Image)
    requires NamesOk(g.textures, g.next) && n in g.textures && IsTexture(i, g.textures[n])
    ensures Gone(g, ts, i) <==> n in ts
  {
    if n in ts { var j :| 0 <= j < |ts| && ts[j] == n; }
  }

  // The entry that an attach call makes, and what it does to the other cache.
  lemma {:induction false} RememberedAt<R>(entries: seq<Entry<R>>, fbo: nat, point: nat, what: R)
    requires !Full(entries, fbo, point) && |entries| <= CAPACITY
    ensures var i, es := Slot(entries, fbo, point), Remember(entries, fbo, point, what);
            i < |es| && Slot(es, fbo, point) == i && es[i] == Entry(fbo, point, what)
  {
    var i, es := Slot(entries, fbo, point), Remember(entries, fbo, point, what);
    var k := Slot(es, fbo, point);
    assert es[i] == Entry(fbo, point, what);
    assert forall j :: 0 <= j < i ==> es[j] == entries[j];
  }

  lemma SlotIsOnly<R>(entries: seq<Entry<R>>, i: nat)
    requires Unique(entries) && i < |entries|
    ensures Slot(entries, entries[i].fbo, entries[i].point) == i
  {
    var k := Slot(entries, entries[i].fbo, entries[i].point);
    assert k <= i;
  }

  // The other entries do not see what an attach call does.
  lemma RbElsewhere(e: Entry<nat>, g: Gl, point: nat, w: Want)
    requires RbTrue(e, g) && !(e.fbo == g.bound && e.point == point)
    ensures RbTrue(e, Set(g, point, w))
  {}

  lemma TexElsewhere(e: Entry<Tex>, g: Gl, point: nat, w: Want)
    requires TexTrue(e, g) && !(e.fbo == g.bound && e.point == point)
    ensures TexTrue(e, Set(g, point, w))
  {}

  // The texture cache, when a renderbuffer is attached or detached.
  lemma TexAfter(s: State, point: nat, w: Want)
    requires Agrees(s) && (w.Put? ==> w.image.Buffer?)
    ensures (forall i :: 0 <= i < |s.texs| ==> TexTrue(s.texs[i], Set(s.gl, point, w))) <==> !TexSpoilt(s, point, w)
  {
    var g := Set(s.gl, point, w);
    var k := Slot(s.texs, s.cur, point);
    forall i | 0 <= i < |s.texs| ensures TexTrue(s.texs[i], g) || (i == k && TexSpoilt(s, point, w)) {
      assert TexTrue(s.texs[i], s.gl);
      SlotIsOnly(s.texs, i);
      if !(s.texs[i].fbo == s.gl.bound && s.texs[i].point == point) { TexElsewhere(s.texs[i], s.gl, point, w); }
    }
    if TexSpoilt(s, point, w) { assert TexTrue(s.texs[k], s.gl) && !TexTrue(s.texs[k], g); }
  }

  lemma RbAfter(s: State, point: nat, w: Want)
    requires Agrees(s) && (w.Put? ==> w.image.Texture?)
    ensures (forall i :: 0 <= i < |s.rbs| ==> RbTrue(s.rbs[i], Set(s.gl, point, w))) <==> !RbSpoilt(s, point, w)
  {
    var g := Set(s.gl, point, w);
    var k := Slot(s.rbs, s.cur, point);
    forall i | 0 <= i < |s.rbs| ensures RbTrue(s.rbs[i], g) || (i == k && RbSpoilt(s, point, w)) {
      assert RbTrue(s.rbs[i], s.gl);
      SlotIsOnly(s.rbs, i);
      if !(s.rbs[i].fbo == s.gl.bound && s.rbs[i].point == point) { RbElsewhere(s.rbs[i], s.gl, point, w); }
    }
    if RbSpoilt(s, point, w) { assert RbTrue(s.rbs[k], s.gl) && !RbTrue(s.rbs[k], g); }
  }

  lemma RbRemembered(s: State, point: nat, rb: nat)
    requires Agrees(s) && !Repeats(s.rbs, s.cur, point, rb)
    ensures var es, g := Remember(s.rbs, s.cur, point, rb), Set(s.gl, point, RbWant(s.gl, rb));
            (forall i :: 0 <= i < |es| ==> RbTrue(es[i], g)) <==> RbOwn(s, point, rb)
  {
    var es, w := Remember(s.rbs, s.cur, point, rb), RbWant(s.gl, rb);
    var g, k := Set(s.gl, point, w), Slot(s.rbs, s.cur, point);
    RememberIsUnique(s.rbs, s.cur, point, rb);
    if Full(s.rbs, s.cur, point) {
      assert es == s.rbs;
    } else {
      RememberedAt(s.rbs, s.cur, point, rb);
      assert RbTrue(es[k], g) <==> RbOwn(s, point, rb);
    }
    forall i | 0 <= i < |es| && (i != k || k == |s.rbs| == CAPACITY) ensures RbTrue(es[i], g) {
      assert es[i] == s.rbs[i] && RbTrue(s.rbs[i], s.gl);
      SlotIsOnly(s.rbs, i);
      if !(es[i].fbo == s.gl.bound && es[i].point == point) { RbElsewhere(es[i], s.gl, point, w); }
    }
  }

  lemma TexRemembered(s: State, point: nat, t: Tex, face: nat)
    requires Agrees(s) && !Repeats(s.texs, s.cur, point, t)
    ensures var es, g := Remember(s.texs, s.cur, point, t), Set(s.gl, point, TexWant(s.gl, t, face));
            (forall i :: 0 <= i < |es| ==> TexTrue(es[i], g)) <==> TexOwn(s, point, t)
  {
    var es, w := Remember(s.texs, s.cur, point, t), TexWant(s.gl, t, face);
    var g, k := Set(s.gl, point, w), Slot(s.texs, s.cur, point);
    RememberIsUnique(s.texs, s.cur, point, t);
    if Full(s.texs, s.cur, point) {
      assert es == s.texs;
    } else {
      RememberedAt(s.texs, s.cur, point, t);
      assert TexTrue(es[k], g) <==> TexOwn(s, point, t);
    }
    forall i | 0 <= i < |es| && (i != k || k == |s.texs| == CAPACITY) ensures TexTrue(es[i], g) {
      assert es[i] == s.texs[i] && TexTrue(s.texs[i], s.gl);
      SlotIsOnly(s.texs, i);
      if !(es[i].fbo == s.gl.bound && es[i].point == point) { TexElsewhere(es[i], s.gl, point, w); }
    }
  }

  lemma AttachAgrees(s: State, point: nat, rb: nat)
    requires Agrees(s)
    ensures AllTrue(Filtered(s, Attach(point, rb))) <==> Guard(s, Attach(point, rb))
  {
    if !Repeats(s.rbs, s.cur, point, rb) {
      RbRemembered(s, point, rb);
      TexAfter(s, point, RbWant(s.gl, rb));
      hide Set, RbTrue, TexTrue, Remember, Regular;
    }
  }

  lemma AttachTexAgrees(s: State, point: nat, t: Tex, face: nat)
    requires Agrees(s) && !Repeats(s.texs, s.cur, point, t)
    ensures AllTrue(Filtered(s, AttachTex(point, t, face))) <==> Guard(s, AttachTex(point, t, face))
  {
    TexRemembered(s, point, t, face);
    RbAfter(s, point, TexWant(s.gl, t, face));
    hide Set, RbTrue, TexTrue, Remember, Regular;
  }

  // The call reaches the driver as it would without the caches, and they stay true, if and only
  // if the guard held before it.
  lemma GuardIsExact(s: State, c: Call)
    requires Agrees(s)
    ensures Filtered(s, c).gl == Driver(s.gl, c) && Agrees(Filtered(s, c)) <==> Guard(s, c)
  {
    SameDriver(s, c);
    if !c.Generate? && !c.GenerateTex? { StaysRegular(s, c); }
    hide Regular, AllTrue, Driver;
    match c
    case Bind(fbo) => BindAgrees(s, fbo);
    case DeleteFbos(fbos) => DeleteFbosAgrees(s, fbos);
    case Generate(rb) => GenerateAgrees(s, rb);
    case DeleteRbs(rbs) => DeleteRbsAgrees(s, rbs);
    case Attach(point, rb) => AttachAgrees(s, point, rb);
    case GenerateTex(t) => GenerateTexAgrees(s, t);
    case DeleteTexs(ts) => DeleteTexsAgrees(s, ts);
    case AttachTex(point, t, face) => if !Repeats(s.texs, s.cur, point, t) { AttachTexAgrees(s, point, t, face); }
  }

  // ---- runs

  function FilteredRun(s: State, cs: seq<Call>): State
    decreases |cs|
  {
    if cs == [] then s else FilteredRun(Filtered(s, cs[0]), cs[1..])
  }

  function DriverRun(g: Gl, cs: seq<Call>): Gl
    decreases |cs|
  {
    if cs == [] then g else DriverRun(Driver(g, cs[0]), cs[1..])
  }

  ghost predicate GuardRun(s: State, cs: seq<Call>)
    decreases |cs|
  {
    cs == [] || (Guard(s, cs[0]) && GuardRun(Filtered(s, cs[0]), cs[1..]))
  }

  // The driver is as it would be without the caches, and they are true, after every call.
  ghost predicate AgreesAlong(s: State, g: Gl, cs: seq<Call>)
    decreases |cs|
  {
    s.gl == g && Agrees(s) && (cs != [] ==> AgreesAlong(Filtered(s, cs[0]), Driver(g, cs[0]), cs[1..]))
  }

  lemma {:induction false} RunGuardIsExact(s: State, cs: seq<Call>)
    requires Agrees(s)
    ensures AgreesAlong(s, s.gl, cs) <==> GuardRun(s, cs)
    decreases |cs|
  {
    if cs != [] {
      GuardIsExact(s, cs[0]);
      if Guard(s, cs[0]) {
        RunGuardIsExact(Filtered(s, cs[0]), cs[1..]);
      } else {
        AgreesFirst(Filtered(s, cs[0]), Driver(s.gl, cs[0]), cs[1..]);
      }
      hide Guard, Filtered, Driver, Agrees;
    }
  }

  lemma AgreesFirst(s: State, g: Gl, cs: seq<Call>)
    ensures AgreesAlong(s, g, cs) ==> s.gl == g && Agrees(s)
  {}

  // After every such run the driver is in the state it would be in without the caches.
  lemma {:induction false} RunAgrees(s: State, cs: seq<Call>)
    requires Agrees(s) && GuardRun(s, cs)
    ensures FilteredRun(s, cs).gl == DriverRun(s.gl, cs) && Agrees(FilteredRun(s, cs))
    decreases |cs|
  {
    if cs != [] {
      GuardIsExact(s, cs[0]);
      hide Guard, Filtered, Driver, Agrees;
      RunAgrees(Filtered(s, cs[0]), cs[1..]);
    }
  }

  lemma FirstCall(s: State, g: Gl, c: Call, cs: seq<Call>)
    ensures FilteredRun(s, [c] + cs) == FilteredRun(Filtered(s, c), cs)
    ensures DriverRun(g, [c] + cs) == DriverRun(Driver(g, c), cs)
  {
    assert ([c] + cs)[1..] == cs;
  }

  // ---- what becomes of a call that breaks the guard

  // A call without an error: an unused name, or an attach of a live one to a bound framebuffer.
  predicate Proper(g: Gl, c: Call) {
    match c
    case Generate(rb) => rb != 0 && rb != NOTHING && rb !in g.objects
    case GenerateTex(t) => t != 0 && t != NOTHING && t !in g.textures
    case Attach(_, rb) => g.bound != 0 && !RbWant(g, rb).Error?
    case AttachTex(_, t, face) => g.bound != 0 && !TexWant(g, t, face).Error?
    case _ => true
  }

  predicate ProperRun(g: Gl, cs: seq<Call>)
    decreases |cs|
  {
    cs == [] || (Proper(g, cs[0]) && ProperRun(Driver(g, cs[0]), cs[1..]))
  }

  lemma FirstProper(g: Gl, c: Call, cs: seq<Call>)
    ensures ProperRun(g, [c] + cs) <==> Proper(g, c) && ProperRun(Driver(g, c), cs)
  {
    assert ([c] + cs)[1..] == cs;
  }

  // The framebuffer is bound and what the entry remembers attached again.
  function Again(e: Entry<nat>): seq<Call> { [Bind(e.fbo)] + ([Attach(e.point, e.what)] + []) }

  function AgainTex(e: Entry<Tex>): seq<Call> { [Bind(e.fbo)] + ([AttachTex(e.point, e.what, 0)] + []) }

  lemma LostAttach(t: State, e: Entry<nat>)
    requires Regular(t) && e in t.rbs && !RbTrue(e, t.gl) && !RbWant(t.gl, e.what).Error?
    ensures ProperRun(t.gl, Again(e)) && FilteredRun(t, Again(e)).gl != DriverRun(t.gl, Again(e))
  {
    var u := Filtered(t, Bind(e.fbo));
    var c := Attach(e.point, e.what);
    var i :| 0 <= i < |t.rbs| && t.rbs[i] == e;
    SlotIsOnly(t.rbs, i);
    FirstCall(t, t.gl, Bind(e.fbo), [c] + []);
    FirstCall(u, u.gl, c, []);
    FirstProper(t.gl, Bind(e.fbo), [c] + []);
    FirstProper(u.gl, c, []);
    var k := (e.fbo, e.point);
    assert k in Driver(u.gl, c).attached <==> e.what != 0;
    hide Regular, Again;
    assert Driver(u.gl, c) != u.gl;
  }

  lemma LostTex(t: State, e: Entry<Tex>)
    requires Regular(t) && e in t.texs && !TexTrue(e, t.gl) && !TexWant(t.gl, e.what, 0).Error?
    ensures ProperRun(t.gl, AgainTex(e)) && FilteredRun(t, AgainTex(e)).gl != DriverRun(t.gl, AgainTex(e))
  {
    var u := Filtered(t, Bind(e.fbo));
    var c := AttachTex(e.point, e.what, 0);
    var i :| 0 <= i < |t.texs| && t.texs[i] == e;
    SlotIsOnly(t.texs, i);
    FirstCall(t, t.gl, Bind(e.fbo), [c] + []);
    FirstCall(u, u.gl, c, []);
    FirstProper(t.gl, Bind(e.fbo), [c] + []);
    FirstProper(u.gl, c, []);
    var k := (e.fbo, e.point);
    assert k in Driver(u.gl, c).attached <==> e.what.name != 0;
    hide Regular, AgainTex;
    assert Driver(u.gl, c) != u.gl;
  }

  // An entry that is not true does harm in the end.
  lemma RbHarm(t: State, e: Entry<nat>) returns (cs: seq<Call>)
    requires Regular(t) && e in t.rbs && !RbTrue(e, t.gl)
    ensures ProperRun(t.gl, cs) && FilteredRun(t, cs).gl != DriverRun(t.gl, cs)
  {
    if !RbWant(t.gl, e.what).Error? {
      LostAttach(t, e);
      return Again(e);
    }
    var c := Generate(e.what);
    var u := Filtered(t, c);
    StaysRegular(t, c);
    StillUntrue(t, e);
    cs := [c] + Again(e);
    FirstCall(t, t.gl, c, Again(e));
    FirstProper(t.gl, c, Again(e));
    LostAttach(u, e);
  }

  lemma StillUntrue(t: State, e: Entry<nat>)
    requires Regular(t) && !RbTrue(e, t.gl) && RbWant(t.gl, e.what).Error?
    ensures Proper(t.gl, Generate(e.what)) && !RbTrue(e, Driver(t.gl, Generate(e.what)))
    ensures !RbWant(Driver(t.gl, Generate(e.what)), e.what).Error?
  {}

  lemma TexHarm(t: State, e: Entry<Tex>) returns (cs: seq<Call>)
    requires Regular(t) && e in t.texs && !TexTrue(e, t.gl)
    ensures ProperRun(t.gl, cs) && FilteredRun(t, cs).gl != DriverRun(t.gl, cs)
  {
    if !TexWant(t.gl, e.what, 0).Error? {
      LostTex(t, e);
      return AgainTex(e);
    }
    var c := GenerateTex(e.what.name);
    var u := Filtered(t, c);
    StaysRegular(t, c);
    TexStillUntrue(t, e);
    cs := [c] + AgainTex(e);
    FirstCall(t, t.gl, c, AgainTex(e));
    FirstProper(t.gl, c, AgainTex(e));
    LostTex(u, e);
  }

  lemma TexStillUntrue(t: State, e: Entry<Tex>)
    requires Regular(t) && !TexTrue(e, t.gl) && TexWant(t.gl, e.what, 0).Error?
    ensures Proper(t.gl, GenerateTex(e.what.name)) && !TexTrue(e, Driver(t.gl, GenerateTex(e.what.name)))
    ensures !TexWant(Driver(t.gl, GenerateTex(e.what.name)), e.what, 0).Error?
  {}

  // After every call of the client that breaks the guard there is a continuation, of proper calls
  // only, that leaves the driver in another state than without the caches.
  lemma BreakingTheGuard(s: State, c: Call) returns (cs: seq<Call>)
    requires Agrees(s) && !Guard(s, c) && !c.Generate? && !c.GenerateTex?
    ensures ProperRun(Driver(s.gl, c), cs) && FilteredRun(s, [c] + cs).gl != DriverRun(s.gl, [c] + cs)
  {
    var t := Filtered(s, c);
    GuardIsExact(s, c);
    StaysRegular(s, c);
    hide Filtered, Driver, Guard, Regular, RbTrue, TexTrue;
    if t.gl != Driver(s.gl, c) {
      cs := [];
    } else if i :| 0 <= i < |t.rbs| && !RbTrue(t.rbs[i], t.gl) {
      cs := RbHarm(t, t.rbs[i]);
    } else {
      var i :| 0 <= i < |t.texs| && !TexTrue(t.texs[i], t.gl);
      cs := TexHarm(t, t.texs[i]);
    }
    FirstCall(s, s.gl, c, cs);
  }

  // ---- what a client can do about it, without looking into the caches

  // It attaches to the framebuffer that it bound last and has not deleted since, and only live
  // names, or detaches; it attaches only textures or only renderbuffers at a point, as kind says;
  // it attaches no other face of the texture that is there, and deletes no attached texture.
  ghost predicate Allowed(kind: (nat, nat) -> bool, last: nat, g: Gl, c: Call) {
    match c
    case Attach(point, rb) => last == 0 || (!kind(last, point) && (rb == 0 || (last == g.bound && rb in g.objects)))
    case AttachTex(point, t, face) =>
      last == 0 ||
      (kind(last, point) &&
        (t.name == 0 || t.level != 0 || (last == g.bound && t.name in g.textures && OneFace(g, point, t, face))))
    case Generate(rb) => rb != 0 && rb != NOTHING && rb !in g.objects
    case GenerateTex(t) => t != 0 && t != NOTHING && t !in g.textures
    case DeleteTexs(ts) => forall k :: k in g.attached ==> !Gone(g, ts, g.attached[k])
    case _ => true
  }

  predicate OneFace(g: Gl, point: nat, t: Tex, face: nat)
    requires t.name in g.textures
  {
    var k := (g.bound, point);
    k in g.attached && IsTexture(g.attached[k], g.textures[t.name]) ==> g.attached[k].face == face
  }

  ghost predicate AllowedRun(kind: (nat, nat) -> bool, last: nat, g: Gl, cs: seq<Call>)
    decreases |cs|
  {
    cs == [] || (Allowed(kind, last, g, cs[0])
                 && AllowedRun(kind, if cs[0].Bind? then cs[0].fbo else last, Driver(g, cs[0]), cs[1..]))
  }

  ghost predicate Kinds(kind: (nat, nat) -> bool, s: State) {
    && (forall i :: 0 <= i < |s.rbs| && s.rbs[i].fbo != 0 && s.rbs[i].what != NOTHING ==> !kind(s.rbs[i].fbo, s.rbs[i].point))
    && (forall i :: 0 <= i < |s.texs| && s.texs[i].fbo != 0 && s.texs[i].what.name != NOTHING ==>
          kind(s.texs[i].fbo, s.texs[i].point))
  }

  lemma AllowedIsGuarded(kind: (nat, nat) -> bool, s: State, c: Call)
    requires Agrees(s) && Kinds(kind, s) && Allowed(kind, s.cur, s.gl, c)
    ensures Guard(s, c) && Kinds(kind, Filtered(s, c))
  {
    match c
    case Attach(point, rb) =>
    case AttachTex(point, t, face) => if Repeats(s.texs, s.cur, point, t) { AllowedRepeat(kind, s, point, t, face); }
    case Generate(rb) => forall i | 0 <= i < |s.rbs| && s.rbs[i].fbo != 0 ensures s.rbs[i].what != rb { assert RbTrue(s.rbs[i], s.gl); }
    case GenerateTex(n) =>
      forall i | 0 <= i < |s.texs| && s.texs[i].fbo != 0 && s.texs[i].what.level == 0 ensures s.texs[i].what.name != n {
        assert TexTrue(s.texs[i], s.gl);
      }
    case DeleteTexs(ts) =>
      forall i | 0 <= i < |s.texs| && s.texs[i].fbo != 0 && s.texs[i].what.level == 0 && s.texs[i].what.name in s.gl.textures
        ensures s.texs[i].what.name !in ts
      {
        NotDeleted(s, ts, i);
      }
    case _ =>
  }

  lemma AllowedRepeat(kind: (nat, nat) -> bool, s: State, point: nat, t: Tex, face: nat)
    requires Agrees(s) && Allowed(kind, s.cur, s.gl, AttachTex(point, t, face)) && Repeats(s.texs, s.cur, point, t)
    ensures !OtherFace(s, point, t, face)
  {
    assert TexTrue(s.texs[Slot(s.texs, s.cur, point)], s.gl);
  }

  lemma NotDeleted(s: State, ts: seq<nat>, i: nat)
    requires Agrees(s) && i < |s.texs| && s.texs[i].fbo != 0 && s.texs[i].what.level == 0 && s.texs[i].what.name in s.gl.textures
    requires forall k :: k in s.gl.attached ==> !Gone(s.gl, ts, s.gl.attached[k])
    ensures s.texs[i].what.name !in ts
  {
    var e := s.texs[i];
    assert TexTrue(e, s.gl);
    GoneIs(s.gl, ts, e.what.name, s.gl.attached[(e.fbo, e.point)]);
  }

  lemma {:induction false} AllowedRunAgrees(kind: (nat, nat) -> bool, s: State, cs: seq<Call>)
    requires Agrees(s) && Kinds(kind, s) && AllowedRun(kind, s.cur, s.gl, cs)
    ensures GuardRun(s, cs) && FilteredRun(s, cs).gl == DriverRun(s.gl, cs) && Agrees(FilteredRun(s, cs))
    decreases |cs|
  {
    if cs != [] {
      AllowedIsGuarded(kind, s, cs[0]);
      GuardIsExact(s, cs[0]);
      assert Filtered(s, cs[0]).cur == if cs[0].Bind? then cs[0].fbo else s.cur;
      hide Filtered, Driver, Guard, Agrees, Allowed, Kinds;
      AllowedRunAgrees(kind, Filtered(s, cs[0]), cs[1..]);
    }
  }

  const START: State := State([], [], 0, Gl(0, map[], map[], map[], 1))

  lemma StartAgrees()
    ensures Agrees(START)
  {}

  // Every run of such a client, from the beginning.
  lemma AnyAllowedRun(kind: (nat, nat) -> bool, cs: seq<Call>)
    requires AllowedRun(kind, 0, START.gl, cs)
    ensures FilteredRun(START, cs).gl == DriverRun(START.gl, cs) && Agrees(FilteredRun(START, cs))
  {
    StartAgrees();
    AllowedRunAgrees(kind, START, cs);
  }

  // ---- each condition is needed

  // A call after which a continuation goes wrong.
  ghost predicate Harmful(s: State, c: Call) {
    exists cs :: ProperRun(Driver(s.gl, c), cs) && FilteredRun(s, [c] + cs).gl != DriverRun(s.gl, [c] + cs)
  }

  lemma UnguardedIsHarmful(s: State, c: Call)
    requires Agrees(s) && !Guard(s, c) && !c.Generate? && !c.GenerateTex?
    ensures Harmful(s, c)
  {
    var cs := BreakingTheGuard(s, c);
  }

  lemma TwoCalls(s: State, a: Call, b: Call)
    ensures FilteredRun(s, [a] + ([b] + [])) == Filtered(Filtered(s, a), b)
  {
    FirstCall(s, s.gl, a, [b] + []);
    FirstCall(Filtered(s, a), s.gl, b, []);
  }

  lemma ThreeCalls(s: State, a: Call, b: Call, c: Call)
    ensures FilteredRun(s, [a] + ([b] + ([c] + []))) == Filtered(Filtered(Filtered(s, a), b), c)
  {
    FirstCall(s, s.gl, a, [b] + ([c] + []));
    TwoCalls(Filtered(s, a), b, c);
  }

  // Without rebinding, a framebuffer name that is used again meets what was remembered of the
  // deleted one.
  lemma RebindingMatters()
    ensures var s := FilteredRun(START, [Generate(7)] + ([Bind(5)] + ([DeleteFbos([5])] + [])));
            && s == State([], [], 5, Gl(0, map[7 := 1], map[], map[], 2))
            && !Guard(s, Attach(0, 7)) && Harmful(s, Attach(0, 7))
  {
    ThreeCalls(START, Generate(7), Bind(5), DeleteFbos([5]));
    var s := Filtered(Filtered(Filtered(START, Generate(7)), Bind(5)), DeleteFbos([5]));
    assert s.gl.attached == map[];
    UnguardedIsHarmful(s, Attach(0, 7));
  }

  // A name that was attached before it was generated is not attached afterwards.
  lemma NamesMatter()
    ensures var s := FilteredRun(START, [Bind(5)] + []);
            && s == State([], [], 5, Gl(5, map[], map[], map[], 1))
            && !Guard(s, Attach(0, 7)) && Harmful(s, Attach(0, 7))
  {
    FirstCall(START, START.gl, Bind(5), []);
    UnguardedIsHarmful(Filtered(START, Bind(5)), Attach(0, 7));
  }

  const TEXTURED: State := State([], [Entry(5, 0, Tex(9, 0))], 5, Gl(5, map[], map[9 := 1], map[(5, 0) := Texture(1, 0)], 2))

  lemma TexturedIsReached()
    ensures FilteredRun(START, [GenerateTex(9)] + ([Bind(5)] + ([AttachTex(0, Tex(9, 0), 0)] + []))) == TEXTURED
    ensures Agrees(TEXTURED)
  {
    ThreeCalls(START, GenerateTex(9), Bind(5), AttachTex(0, Tex(9, 0), 0));
  }

  // A renderbuffer that replaces a texture at a point makes its cache untrue, and the texture
  // cannot be attached there again;
  lemma KindsMatter()
    ensures var s := Filtered(TEXTURED, Generate(7));
            Agrees(s) && !Guard(s, Attach(0, 7)) && Harmful(s, Attach(0, 7))
  {
    TexturedIsReached();
    GuardIsExact(TEXTURED, Generate(7));
    UnguardedIsHarmful(Filtered(TEXTURED, Generate(7)), Attach(0, 7));
  }

  // nor can a texture that gets the name of one that was deleted while it was attached,
  lemma DeletingMatters()
    ensures !Guard(TEXTURED, DeleteTexs([9])) && Harmful(TEXTURED, DeleteTexs([9]))
  {
    TexturedIsReached();
    assert 9 in [9] && TEXTURED.texs[0].what.name == 9;
    UnguardedIsHarmful(TEXTURED, DeleteTexs([9]));
  }

  // nor another face of the texture that is there.
  lemma FacesMatter()
    ensures !Guard(TEXTURED, AttachTex(0, Tex(9, 0), 1)) && Harmful(TEXTURED, AttachTex(0, Tex(9, 0), 1))
  {
    TexturedIsReached();
    assert Repeats(TEXTURED.texs, 5, 0, Tex(9, 0));
    UnguardedIsHarmful(TEXTURED, AttachTex(0, Tex(9, 0), 1));
  }

  // ---- the wrappers

  // The scan of either table.
  method Search<R>(entries: array<Entry<R>>, n: nat, fbo: nat, point: nat) returns (i: nat)
    requires n <= entries.Length
    ensures i == Slot(entries[..n], fbo, point)
  {
    i := 0;
    while i < n && !(entries[i].fbo == fbo && entries[i].point == point)
      invariant 0 <= i <= n
      invariant Slot(entries[..n], fbo, point) == i + Slot(entries[i..n], fbo, point)
    {
      assert entries[i..n][1..] == entries[i + 1..n];
      i := i + 1;
    }
  }

  class Cache {
    const rbs: array<Entry<nat>>
    const texs: array<Entry<Tex>>
    var rbN: nat
    var texN: nat
    var cur: nat
    var gl: Gl   // the driver

    ghost predicate Valid()
      reads this
    {
      rbs.Length == texs.Length == CAPACITY && rbN <= CAPACITY && texN <= CAPACITY
    }

    ghost function View(): State
      reads this, rbs, texs
      requires Valid()
    {
      State(rbs[..rbN], texs[..texN], cur, gl)
    }

    constructor ()
      ensures Valid() && fresh(rbs) && fresh(texs) && View() == START
    {
      rbs := new Entry<nat>[CAPACITY](_ => Entry(0, 0, 0));
      texs := new Entry<Tex>[CAPACITY](_ => Entry(0, 0, Tex(0, 0)));
      rbN, texN, cur, gl := 0, 0, 0, Gl(0, map[], map[], map[], 1);
    }

    method BindFramebuffer(fbo: nat)
      requires Valid()
      modifies this
      ensures Valid() && View() == Filtered(old(View()), Bind(fbo))
    {
      cur := fbo;
      gl := Driver(gl, Bind(fbo));
    }

    method FramebufferRenderbuffer(point: nat, rb: nat)
      requires Valid()
      modifies this, rbs
      ensures Valid() && View() == Filtered(old(View()), Attach(point, rb))
    {
      var found := Search(rbs, rbN, cur, point);
      if found < rbN && rbs[found].what == rb { return; }
      if found == rbN && rbN < CAPACITY {
        rbN := rbN + 1;
        rbs[found] := Entry(cur, point, rbs[found].what);
      }
      if found < rbN { rbs[found] := rbs[found].(what := rb); }
      gl := Driver(gl, Attach(point, rb));
      hide Driver;
      assert rbs[..rbN] == Remember(old(rbs[..rbN]), cur, point, rb);
    }

    method FramebufferTexture2D(point: nat, t: Tex, face: nat)
      requires Valid()
      modifies this, texs
      ensures Valid() && View() == Filtered(old(View()), AttachTex(point, t, face))
    {
      var found := Search(texs, texN, cur, point);
      if found < texN && texs[found].what.name == t.name && texs[found].what.level == t.level { return; }
      if found == texN && texN < CAPACITY {
        texN := texN + 1;
        texs[found] := Entry(cur, point, texs[found].what);
      }
      if found < texN { texs[found] := texs[found].(what := t); }
      gl := Driver(gl, AttachTex(point, t, face));
      hide Driver;
      assert texs[..texN] == Remember(old(texs[..texN]), cur, point, t);
    }

    // The entries of one framebuffer, in both tables.
    method ForgetFbo(fbo: nat)
      requires Valid()
      modifies rbs, texs
      ensures forall j :: 0 <= j < texN ==> texs[j] == if old(texs[j]).fbo == fbo then Wiped(old(texs[j])) else old(texs[j])
      ensures forall j :: 0 <= j < rbN ==>
        rbs[j] == if old(rbs[j]).fbo == fbo then old(rbs[j]).(what := NOTHING) else old(rbs[j])
    {
      for i := 0 to texN
        invariant forall j :: 0 <= j < texN ==>
          texs[j] == if j < i && old(texs[j]).fbo == fbo then Wiped(old(texs[j])) else old(texs[j])
        invariant unchanged(rbs)
      {
        if texs[i].fbo == fbo { texs[i] := Wiped(texs[i]); }
      }
      for i := 0 to rbN
        invariant forall j :: 0 <= j < texN ==> texs[j] == if old(texs[j]).fbo == fbo then Wiped(old(texs[j])) else old(texs[j])
        invariant forall j :: 0 <= j < rbN ==>
          rbs[j] == if j < i && old(rbs[j]).fbo == fbo then old(rbs[j]).(what := NOTHING) else old(rbs[j])
      {
        if rbs[i].fbo == fbo { rbs[i] := rbs[i].(what := NOTHING); }
      }
    }

    method DeleteFramebuffers(fbos: seq<nat>)
      requires Valid()
      modifies this, rbs, texs
      ensures Valid() && View() == Filtered(old(View()), DeleteFbos(fbos))
    {
      for k := 0 to |fbos|
        invariant unchanged(this)
        invariant forall j :: 0 <= j < texN ==>
          texs[j] == if old(texs[j]).fbo in fbos[..k] then Wiped(old(texs[j])) else old(texs[j])
        invariant forall j :: 0 <= j < rbN ==>
          rbs[j] == if old(rbs[j]).fbo in fbos[..k] then old(rbs[j]).(what := NOTHING) else old(rbs[j])
      {
        assert fbos[..k + 1] == fbos[..k] + [fbos[k]];
        ForgetFbo(fbos[k]);
      }
      assert fbos[..|fbos|] == fbos;
      gl := Driver(gl, DeleteFbos(fbos));
      hide Driver;
      assert rbs[..rbN] == ForgetRbs(old(rbs[..rbN]), fbos, []);
      assert texs[..texN] == ForgetTexs(old(texs[..texN]), fbos);
    }

    method DeleteRenderbuffers(names: seq<nat>)
      requires Valid()
      modifies this, rbs
      ensures Valid() && View() == Filtered(old(View()), DeleteRbs(names))
    {
      for k := 0 to |names|
        invariant unchanged(this)
        invariant forall j :: 0 <= j < rbN ==>
          rbs[j] == if old(rbs[j]).what in names[..k] then old(rbs[j]).(what := NOTHING) else old(rbs[j])
      {
        for i := 0 to rbN
          invariant unchanged(this)
          invariant forall j :: 0 <= j < rbN ==>
            rbs[j] == if old(rbs[j]).what in names[..if j < i then k + 1 else k]
                      then old(rbs[j]).(what := NOTHING) else old(rbs[j])
        {
          assert names[..k + 1] == names[..k] + [names[k]];
          if rbs[i].what == names[k] { rbs[i] := rbs[i].(what := NOTHING); }
        }
      }
      assert names[..|names|] == names;
      gl := Driver(gl, DeleteRbs(names));
      hide Driver;
      assert rbs[..rbN] == ForgetRbs(old(rbs[..rbN]), [], names);
    }

    // New names come from the driver, and deleted textures go to it, past the caches.
    method HandOn(c: Call)
      requires Valid() && (c.Generate? || c.GenerateTex? || c.DeleteTexs?)
      modifies this
      ensures Valid() && View() == Filtered(old(View()), c)
    {
      gl := Driver(gl, c);
    }

    method Do(c: Call)
      requires Valid()
      modifies this, rbs, texs
      ensures Valid() && View() == Filtered(old(View()), c)
    {
      hide Filtered, Driver;
      match c
      case Bind(fbo) => BindFramebuffer(fbo);
      case DeleteFbos(fbos) => DeleteFramebuffers(fbos);
      case DeleteRbs(names) => DeleteRenderbuffers(names);
      case Attach(point, rb) => FramebufferRenderbuffer(point, rb);
      case AttachTex(point, t, face) => FramebufferTexture2D(point, t, face);
      case _ => HandOn(c);
    }

    // A client's whole run.
    method Play(cs: seq<Call>)
      requires Valid()
      modifies this, rbs, texs
      ensures Valid() && View() == FilteredRun(old(View()), cs)
      ensures Agrees(old(View())) && GuardRun(old(View()), cs) ==> Agrees(View()) && gl == DriverRun(old(gl), cs)
    {
      ghost var start := View();
      var k := 0;
      assert cs[0..] == cs;
      while k < |cs|
        invariant 0 <= k <= |cs| && Valid() && FilteredRun(View(), cs[k..]) == FilteredRun(start, cs)
      {
        assert cs[k..][1..] == cs[k + 1..];
        hide Filtered, Driver;
        Do(cs[k]);
        k := k + 1;
      }
      hide Agrees, Guard, Filtered, Driver;
      if Agrees(start) && GuardRun(start, cs) { RunAgrees(start, cs); }
    }
  }
}
