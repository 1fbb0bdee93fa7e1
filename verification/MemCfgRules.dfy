// The rules of rewrite_memcfg together: when one of them leaves what another has set, and what
// the whole table achieves.

module MemCfgRules {
  import opened Common
  import opened MemCfg

  // ---- a kept stretch, with one text or another behind it

  ghost predicate EndsInSize(x: string) { |x| >= 5 && AtSize(x[|x| - 5..]) }

  lemma EndChars(x: string)
    requires EndsInSize(x)
    ensures x[|x| - 1] == '=' && !IsWs(x[|x| - 5]) && !IsWs(x[|x| - 4]) && !IsWs(x[|x| - 3]) && !IsWs(x[|x| - 2])
  {
    SizeChars(x[|x| - 5..]);
  }

  lemma Behind5(x: string, w: string)
    requires EndsInSize(x)
    ensures |x| - 5 + 5 <= |x + w| && AtSize((x + w)[|x| - 5..])
  {
    assert (x + w)[|x| - 5..][..5] == x[|x| - 5..][..5];
  }

  lemma HitInside(r: Rule, open: bool, x: string, w: string)
    requires Proper(r) && EndsInSize(x)
    ensures Hit(r, open, x + w) <==> Hit(r, open, x)
    ensures Hit(r, open, x) ==> |r.name| < |x| - 5
  {
    var n := |r.name|;
    Behind5(x, w);
    Behind5(x, []);
    assert x + [] == x;
    if Hit(r, open, x + w) { HitBefore(r, open, x + w, |x| - 5); }
    if Hit(r, open, x) { HitBefore(r, open, x, |x| - 5); }
    if n < |x| { assert (x + w)[..n] == x[..n]; }
  }

  lemma InsideShape(x: string, w: string)
    requires |x| >= 5
    ensures x + w != [] && (x + w)[0] == x[0] && (x + w)[1..] == x[1..] + w && (AtSize(x + w) <==> AtSize(x))
    ensures |x| > 5 && EndsInSize(x) ==> EndsInSize(x[1..])
    ensures |x| == 5 && EndsInSize(x) ==> AtSize(x)
  {
    assert (x + w)[..5] == x[..5];
    if |x| > 5 { assert x[1..][|x| - 6..] == x[|x| - 5..]; }
    if |x| == 5 { assert x[0..] == x; }
  }

  lemma FindUnfolds(s: string)
    requires s != []
    ensures Find(s) ==
      if s[0] == '\n' then -1 else if AtSize(s) then 0 else if Find(s[1..]) < 0 then -1 else Find(s[1..]) + 1
  {}

  lemma SizeIsNoNewline(s: string)
    requires AtSize(s)
    ensures s[0] != '\n'
  {
    SizeChars(s);
  }

  lemma {:induction false} FindInside(x: string, w: string)
    requires EndsInSize(x)
    ensures Find(x + w) == Find(x) <= |x| - 5
    decreases |x|
  {
    assert |x| >= 5;
    hide *;
    InsideShape(x, w);
    FindUnfolds(x);
    FindUnfolds(x + w);
    if |x| > 5 { FindInside(x[1..], w); } else { SizeIsNoNewline(x); }
  }

  lemma {:induction false} TokenInside(x: string, u: string, w: string, depth: int)
    requires TokenEnd(x + u, depth) < |x|
    ensures TokenEnd(x + w, depth) == TokenEnd(x + u, depth)
    decreases |x|
  {
    assert (x + u)[1..] == x[1..] + u && (x + w)[1..] == x[1..] + w && (x + u)[0] == x[0] == (x + w)[0];
    var c := x[0];
    var d := if c == '{' then depth + 1 else if c == '}' then depth - 1 else depth;
    if c == '{' || c == '}' || !(depth == 0 && Delimiter(c)) { TokenInside(x[1..], u, w, d); }
  }

  // A value that is set keeps its end before the '=' that ends the stretch.
  lemma ValueInside(r: Rule, x: string, vs: nat, u: string, w: string)
    requires Proper(r) && EndsInSize(x) && vs < |x|
    requires var t := (x + u)[vs..]; t[..TokenEnd(t, 0)] == r.size
    ensures var t := (x + w)[vs..]; t[..TokenEnd(t, 0)] == r.size
  {
    var y := x[vs..];
    assert (x + u)[vs..] == y + u && (x + w)[vs..] == y + w;
    var n := TokenEnd(y + u, 0);
    EndChars(x);
    assert (y + u)[|y| - 1] == '=';
    forall k | 0 <= k < n ensures (y + u)[k] != '=' { assert (y + u)[..n][k] == r.size[k]; }
    TokenInside(y, u, w, 0);
    assert (y + u)[..n] == y[..n] == (y + w)[..n];
  }

  // The value that starts at vs.
  function Token(s: string, vs: nat): string
    requires vs <= |s|
  {
    s[vs..][..TokenEnd(s[vs..], 0)]
  }

  // Where the line has its first "size=" behind the name that s starts with.
  function SizeAfter(r: Rule, s: string): (k: int)
    requires |r.name| <= |s|
    ensures -1 <= k && (k >= 0 ==> |r.name| + k + 5 <= |s|)
  {
    Find(s[|r.name|..])
  }

  lemma HitLong(r: Rule, open: bool, s: string)
    ensures Hit(r, open, s) ==> |r.name| <= |s|
  {}

  lemma SetMeans(r: Rule, open: bool, s: string)
    requires Hit(r, open, s) && |r.name| <= |s|
    ensures Set(r, open, s) <==> (SizeAfter(r, s) >= 0 ==> Token(s, |r.name| + SizeAfter(r, s) + 5) == r.size)
  {
    if SizeAfter(r, s) >= 0 {
      var vs := ValueStart(r, s);
      hide Find, Hit;
      SliceOfToken(s, vs, TokenEnd(s[vs..], 0));
    }
  }

  lemma SliceOfToken(s: string, vs: nat, n: nat)
    requires vs + n <= |s|
    ensures s[vs..][..n] == s[vs..vs + n]
  {}

  lemma NoHitIsSet(r: Rule, open: bool, s: string)
    requires !Hit(r, open, s)
    ensures Set(r, open, s)
  {}

  lemma NameAtStart(r: Rule, open: bool, x: string)
    requires |r.name| <= |x|
    ensures NameAt(r, open, x, 0) <==> Hit(r, open, x) && SizeAfter(r, x) == |x| - |r.name| - 5 && |r.name| + 5 <= |x|
  {
    assert x[0..] == x;
  }

  lemma SizeAfterInside(r: Rule, x: string, w: string)
    requires EndsInSize(x) && |r.name| < |x| - 5
    ensures SizeAfter(r, x + w) == SizeAfter(r, x) <= |x| - |r.name| - 5
  {
    var y := x[|r.name|..];
    assert (x + w)[|r.name|..] == y + w && y[|y| - 5..] == x[|x| - 5..];
    FindInside(y, w);
  }

  lemma TokenBehind(x: string, v: string, z: string)
    requires (forall k :: 0 <= k < |v| ==> Plain(v[k])) && (z == [] || Delimiter(z[0]))
    ensures Token(x + (v + z), |x|) == v
  {
    PlainToken(v, z);
    assert (x + (v + z))[|x|..] == v + z && (v + z)[..|v|] == v;
  }

  lemma TokenKept(r: Rule, x: string, vs: nat, u: string, w: string)
    requires Proper(r) && EndsInSize(x) && vs < |x| && Token(x + u, vs) == r.size
    ensures Token(x + w, vs) == r.size
  {
    ValueInside(r, x, vs, u, w);
  }

  // Whether the first name of a stretch is set, when w with the value v is put behind it.
  lemma SetKept(r: Rule, open: bool, x: string, u: string, w: string, v: string)
    requires Proper(r) && EndsInSize(x) && |x| > 5 && Set(r, open, x + u) && Token(x + w, |x|) == v
    ensures Set(r, open, x + w) <==> r.size == v || !NameAt(r, open, x, 0)
  {
    hide *;
    HitInside(r, open, x, u);
    HitInside(r, open, x, w);
    HitLong(r, open, x);
    if Hit(r, open, x) {
      NameAtStart(r, open, x);
      SetKeptHit(r, open, x, u, w, v);
    } else {
      NoHitIsSet(r, open, x + w);
      NoNameAt(r, open, x);
    }
  }

  lemma SetKeptHit(r: Rule, open: bool, x: string, u: string, w: string, v: string)
    requires Proper(r) && EndsInSize(x) && Set(r, open, x + u) && Token(x + w, |x|) == v && |r.name| < |x| - 5
    requires Hit(r, open, x + u) && Hit(r, open, x + w)
    ensures Set(r, open, x + w) <==> r.size == v || SizeAfter(r, x) != |x| - |r.name| - 5
  {
    hide *;
    SizeAfterInside(r, x, u);
    SizeAfterInside(r, x, w);
    var vs := |r.name| + SizeAfter(r, x) + 5;
    SetMeans(r, open, x + u);
    SetMeans(r, open, x + w);
    if SizeAfter(r, x) >= 0 && vs < |x| { TokenKept(r, x, vs, u, w); }
  }

  lemma NoNameAt(r: Rule, open: bool, x: string)
    requires !Hit(r, open, x)
    ensures !NameAt(r, open, x, 0)
  {
    assert x[0..] == x;
  }

  lemma {:induction false} NameShiftsBack(r: Rule, open: bool, x: string)
    requires x != []
    ensures Named(r, open, x) <==> NameAt(r, open, x, 0) || Named(r, IsWs(x[0]), x[1..])
  {
    Cons(x);
    if Named(r, IsWs(x[0]), x[1..]) { PrependNamed(r, open, x[0], x[1..]); }
    if Named(r, open, x) {
      var i: nat :| NameAt(r, open, x, i);
      if i > 0 { NameBack(r, open, x, i); }
    }
  }

  lemma NameBack(r: Rule, open: bool, x: string, i: nat)
    requires i > 0 && NameAt(r, open, x, i)
    ensures Named(r, IsWs(x[0]), x[1..])
  {
    var t := x[1..];
    assert t[i - 1..] == x[i..] && t[i - 1 + |r.name|..] == x[i + |r.name|..];
    assert i > 1 ==> t[i - 2] == x[i - 1];
    hide Hit, Find;
    assert NameAt(r, IsWs(x[0]), t, i - 1);
  }

  // Only the size at the end of the stretch can be spoilt by what is put behind it.
  lemma {:induction false} KeptDone(r: Rule, open: bool, x: string, u: string, v: string, z: string)
    requires Proper(r) && EndsInSize(x) && Done(r, open, x + u)
    requires (forall k :: 0 <= k < |v| ==> Plain(v[k])) && (z == [] || Delimiter(z[0])) && Done(r, false, z)
    ensures Done(r, open, x + (v + z)) <==> r.size == v || !Named(r, open, x)
    decreases |x|
  {
    var w := v + z;
    assert (x + w)[1..] == x[1..] + w && (x + w)[0] == x[0] && (x + u)[1..] == x[1..] + u;
    DoneStep(r, open, x + u);
    DoneStep(r, open, x + w);
    if |x| == 5 {
      LastStretch(r, open, x, v, z);
    } else {
      assert x[1..][|x| - 6..] == x[|x| - 5..];
      TokenBehind(x, v, z);
      SetKept(r, open, x, u, w, v);
      KeptDone(r, IsWs(x[0]), x[1..], u, v, z);
      NameShiftsBack(r, open, x);
    }
  }

  lemma LastStretch(r: Rule, open: bool, x: string, v: string, z: string)
    requires Proper(r) && EndsInSize(x) && |x| == 5 && (forall k :: 0 <= k < |v| ==> Plain(v[k])) && Done(r, false, z)
    ensures Done(r, open, x + (v + z)) && !Named(r, open, x)
  {
    EndChars(x);
    var y := x[1..] + v;
    assert (x + (v + z))[1..] == y + z && (x + (v + z))[0] == x[0];
    DoneBehind(r, y, z);
    HitInside(r, open, x, v + z);
    DoneStep(r, open, x + (v + z));
    forall i: nat ensures !NameAt(r, open, x, i) {}
  }

  // ---- when a rule leaves what another one has set

  // A value that a rule replaces, as the cut says, is also named by rule r.
  ghost predicate Clash(r: Rule, open: bool, c: Cut) {
    c.Piece? && (Named(r, open, c.kept) || Clash(r, false, c.rest))
  }

  lemma NamedEnds(r: Rule, open: bool, x: string)
    requires Named(r, open, x)
    ensures EndsInSize(x)
  {
    var i: nat :| NameAt(r, open, x, i);
    NameEnds(r, open, x, i);
  }

  lemma NameEnds(r: Rule, open: bool, x: string, i: nat)
    requires NameAt(r, open, x, i)
    ensures EndsInSize(x)
  {
    var n := i + |r.name|;
    hide Find, AtSize, Hit;
    SuffixOf(x, n, Find(x[n..]));
  }

  lemma {:induction false} DoneLater(r: Rule, open: bool, p: string, y: string)
    requires Done(r, open, p + y) && p != []
    ensures Done(r, false, y)
  {
    if y != [] {
      DoneFrom(r, open, p + y, |p| - 1);
      assert (p + y)[|p|..] == y;
      DoneStep(r, IsWs(p[|p| - 1]), y);
      DoneStep(r, false, y);
    }
  }

  lemma RestHead(q: Rule, c: Cut, v: string)
    requires Good(q, false, c) && (Original(c) == [] || Delimiter(Original(c)[0]))
    ensures With(c, v) == [] || Delimiter(With(c, v)[0])
  {
    if c.Piece? { NamedEnds(q, false, c.kept); }
  }

  // A piece, with v in the place of its token and z in that of the rest y.
  lemma PieceKeeps(r: Rule, open: bool, x: string, token: string, y: string, v: string, z: string)
    requires Proper(r) && EndsInSize(x) && Done(r, open, x + (token + y))
    requires (forall k :: 0 <= k < |v| ==> Plain(v[k])) && (z == [] || Delimiter(z[0]))
    ensures Done(r, open, x + (v + z)) <==> Done(r, false, z) && (r.size == v || !Named(r, open, x))
  {
    assert x != [];
    if Done(r, false, z) {
      KeptDone(r, open, x, token + y, v, z);
    } else {
      hide *;
      Assoc(x, v, z);
      if Done(r, open, x + (v + z)) { DoneLater(r, open, x + v, z); }
    }
  }

  lemma {:induction false} CutKeeps(r: Rule, q: Rule, open: bool, c: Cut)
    requires Proper(r) && Proper(q) && Good(q, open, c) && Done(r, open, Original(c))
    ensures Done(r, open, With(c, q.size)) <==> r.size == q.size || !Clash(r, open, c)
    decreases c
  {
    if c.Piece? {
      var x, v, y, z := c.kept, q.size, Original(c.rest), With(c.rest, q.size);
      assert Original(c) == x + (c.token + y) && With(c, v) == x + (v + z) && Named(q, open, x) && Good(q, false, c.rest);
      assert Clash(r, open, c) <==> Named(r, open, x) || Clash(r, false, c.rest);
      assert (c.token + y)[|c.token|..] == y;
      assert y == [] || Delimiter(y[0]);
      NamedEnds(q, open, x);
      assert x != [] && forall k :: 0 <= k < |v| ==> Plain(v[k]);
      hide *;
      RestHead(q, c.rest, v);
      Assoc(x, c.token, y);
      DoneLater(r, open, x + c.token, y);
      CutKeeps(r, q, false, c.rest);
      PieceKeeps(r, open, x, c.token, y, v, z);
    }
  }

  // Applying rule q leaves all sizes of rule r set if and only if both have one value, or q
  // replaces no size that r names too.
  lemma AppliedKeeps(r: Rule, q: Rule, s: string)
    requires Proper(r) && Proper(q) && Done(r, true, s)
    ensures Done(r, true, Apply(q, true, s)) <==> r.size == q.size || !Clash(r, true, Pieces(q, true, s))
  {
    OnlyValuesChange(q, true, s);
    CutKeeps(r, q, true, Pieces(q, true, s));
  }

  // ---- sizes that two rules name

  // Both rules name the "size=" at m.
  ghost predicate SharedAt(r: Rule, q: Rule, open: bool, s: string, m: nat) {
    m + 5 <= |s| && Named(r, open, s[..m + 5]) && Named(q, open, s[..m + 5])
  }

  ghost predicate Shared(r: Rule, q: Rule, open: bool, s: string) { exists m: nat :: SharedAt(r, q, open, s, m) }

  lemma SharedIs(r: Rule, q: Rule, open: bool, s: string, m: nat)
    requires m + 5 <= |s| && Named(r, open, s[..m + 5]) && Named(q, open, s[..m + 5])
    ensures Shared(r, q, open, s)
  {
    assert SharedAt(r, q, open, s, m);
  }

  lemma NamedIs(r: Rule, open: bool, x: string, i: nat)
    requires NameAt(r, open, x, i)
    ensures Named(r, open, x)
  {}

  lemma Later(p: string, x: string, i: nat)
    requires i <= |x|
    ensures (p + x)[|p| + i..] == x[i..] && (p + x)[..|p| + i] == p + x[..i]
    ensures i > 0 ==> (p + x)[|p| + i - 1] == x[i - 1]
  {}

  lemma NamedLater(r: Rule, open: bool, p: string, x: string)
    requires Named(r, false, x)
    ensures Named(r, open, p + x)
  {
    hide NameAt, Hit, Find;
    var i: nat :| NameAt(r, false, x, i);
    hide *;
    NameLater(r, open, p, x, i);
    NamedIs(r, open, p + x, |p| + i);
  }

  lemma NameLater(r: Rule, open: bool, p: string, x: string, i: nat)
    requires NameAt(r, false, x, i)
    ensures NameAt(r, open, p + x, |p| + i)
  {
    assert i > 0;
    Later(p, x, i);
    Later(p, x, i + |r.name|);
    hide Hit, Find;
  }

  lemma SharedLater(r: Rule, q: Rule, open: bool, p: string, y: string)
    requires Shared(r, q, false, y)
    ensures Shared(r, q, open, p + y)
  {
    var m: nat :| SharedAt(r, q, false, y, m);
    SharedLaterAt(r, q, open, p, y, y[..m + 5], m);
  }

  lemma SharedLaterAt(r: Rule, q: Rule, open: bool, p: string, y: string, x: string, m: nat)
    requires m + 5 <= |y| && x == y[..m + 5] && Named(r, false, x) && Named(q, false, x)
    ensures Shared(r, q, open, p + y)
  {
    hide *;
    NamedLater(r, open, p, x);
    NamedLater(q, open, p, x);
    Later(p, y, m + 5);
    var k := |p| + m;
    assert (p + y)[..k + 5] == p + x;
    SharedIs(r, q, open, p + y, k);
  }

  lemma CutText(x: string, v: string, z: string)
    ensures x + (v + z) == (x + v) + z && |x + v| == |x| + |v|
    ensures (x + (v + z))[..|x|] == x
  {}

  lemma {:induction false} ClashIsShared(r: Rule, q: Rule, open: bool, c: Cut)
    requires Good(q, open, c) && Clash(r, open, c)
    ensures Shared(r, q, open, Original(c))
    decreases c
  {
    var x, y := c.kept, Original(c.rest);
    assert Original(c) == x + (c.token + y) && Named(q, open, x) && Good(q, false, c.rest);
    CutText(x, c.token, y);
    if Named(r, open, x) {
      NamedEnds(q, open, x);
      assert |x| >= 5;
      hide *;
      SharedIs(r, q, open, Original(c), |x| - 5);
    } else {
      ClashIsShared(r, q, false, c.rest);
      hide *;
      SharedLater(r, q, open, x + c.token, y);
    }
  }

  lemma {:induction false} FindIsFirst(x: string, k: nat)
    requires k + 5 <= |x| && AtSize(x[k..]) && Find(x) >= 0
    ensures Find(x) <= k
    decreases k
  {
    if k == 0 {
      assert x[0..] == x;
    } else if !AtSize(x) {
      assert x[1..][k - 1..] == x[k..];
      FindIsFirst(x[1..], k - 1);
    }
  }

  lemma NotTheFirst(r: Rule, open: bool, y: string, k: nat)
    requires Proper(r) && k + 5 < |y| && AtSize(y[k..]) && Hit(r, open, y)
    ensures |r.name| <= |y| && Find(y[|r.name|..]) != |y| - |r.name| - 5
  {
    var n := |r.name|;
    HitBefore(r, open, y, k);
    SuffixOf(y, n, k - n);
    var z := y[n..];
    if Find(z) >= 0 { FindIsFirst(z, k - n); }
    hide Find, AtSize, Hit, Proper;
  }

  lemma NameAtMeans(r: Rule, open: bool, t: string, i: nat, y: string)
    requires i <= |t| && y == t[i..] && |r.name| <= |y|
    ensures NameAt(r, open, t, i) ==>
      Hit(r, if i == 0 then open else IsWs(t[i - 1]), y) && Find(y[|r.name|..]) == |y| - |r.name| - 5
  {
    SuffixOf(t, i, |r.name|);
    hide Find, Hit;
  }

  lemma NameFits(r: Rule, open: bool, t: string, i: nat)
    ensures NameAt(r, open, t, i) ==> i + |r.name| <= |t|
  {}

  lemma NoNameBefore(r: Rule, open: bool, t: string, i: nat, k: nat)
    requires Proper(r) && i <= k && k + 5 < |t| && AtSize(t[k..])
    ensures !NameAt(r, open, t, i)
  {
    hide *;
    var b, y := if i == 0 then open else IsWs(t[i - 1]), t[i..];
    NameFits(r, open, t, i);
    if |r.name| <= |y| {
      NameAtMeans(r, open, t, i, y);
      SuffixOf(t, i, k - i);
      if Hit(r, b, y) { NotTheFirst(r, b, y, k - i); }
    }
  }

  lemma NoNameOnBlank(r: Rule, open: bool, t: string, i: nat)
    requires 0 < i <= |t| && !IsWs(t[i - 1])
    ensures !NameAt(r, open, t, i)
  {}

  // A name whose size lies behind the stretch x and the value v starts behind them too.
  lemma NameBehind(r: Rule, open: bool, x: string, v: string, z: string, i: nat)
    requires Proper(r) && EndsInSize(x) && Unblank(v)
    requires |(x + v) + z| > |x| && i <= |x| + |v|
    ensures !NameAt(r, open, (x + v) + z, i)
  {
    var t, k := (x + v) + z, |x| - 5;
    EndChars(x);
    if i <= k {
      assert t[k..][..5] == x[k..][..5];
      NoNameBefore(r, open, t, i, k);
    } else {
      assert t[i - 1] == if i <= |x| then x[i - 1] else v[i - 1 - |x|];
      NoNameOnBlank(r, open, t, i);
    }
  }

  lemma NamedBehind(r: Rule, open: bool, x: string, v: string, z: string)
    requires Proper(r) && EndsInSize(x) && Unblank(v)
    requires Named(r, open, (x + v) + z) && |(x + v) + z| > |x|
    ensures z != [] && Named(r, false, z)
  {
    var i: nat :| NameAt(r, open, (x + v) + z, i);
    if i <= |x| + |v| { NameBehind(r, open, x, v, z, i); }
    NameBehindAt(r, open, x + v, z, i);
    hide *;
    NamedIs(r, false, z, i - |x + v|);
  }

  lemma NameBehindAt(r: Rule, open: bool, p: string, z: string, i: nat)
    requires NameAt(r, open, p + z, i) && i > |p|
    ensures z != [] && NameAt(r, false, z, i - |p|)
  {
    Later(p, z, i - |p|);
    Later(p, z, i - |p| + |r.name|);
    hide Hit, Find;
  }

  // Applying a rule makes no size shared.
  lemma {:induction false} SharedBefore(r: Rule, q: Rule, p: Rule, open: bool, c: Cut)
    requires Proper(r) && Proper(q) && Proper(p) && Good(p, open, c) && Shared(r, q, open, With(c, p.size))
    ensures Shared(r, q, open, Original(c))
    decreases c
  {
    if c.Piece? {
      var x, v := c.kept, p.size;
      var y, z := Original(c.rest), With(c.rest, v);
      assert With(c, v) == x + (v + z) && Original(c) == x + (c.token + y) && Good(p, false, c.rest) && Unblank(v);
      NamedEnds(p, open, x);
      CutText(x, v, z);
      CutText(x, c.token, y);
      var m: nat :| SharedAt(r, q, open, x + (v + z), m);
      if m + 5 <= |x| {
        SharedWithin(r, q, open, x, v + z, c.token + y, m);
      } else {
        SharedBehind(r, q, open, x, v, z, m);
        SharedBefore(r, q, p, false, c.rest);
        hide *;
        SharedLater(r, q, open, x + c.token, y);
      }
    }
  }

  lemma SharedWithin(r: Rule, q: Rule, open: bool, x: string, w: string, u: string, m: nat)
    requires SharedAt(r, q, open, x + w, m) && m + 5 <= |x|
    ensures Shared(r, q, open, x + u)
  {
    assert (x + w)[..m + 5] == x[..m + 5] == (x + u)[..m + 5];
    hide Named;
    SharedIs(r, q, open, x + u, m);
  }

  lemma TakeOfThree(x: string, v: string, z: string, n: nat)
    requires |x| < n <= |x| + |v| + |z|
    ensures n <= |x| + |v| ==> (x + (v + z))[..n] == (x + v[..n - |x|]) + []
    ensures n > |x| + |v| ==> (x + (v + z))[..n] == (x + v) + z[..n - |x| - |v|]
  {}

  lemma SharedBehind(r: Rule, q: Rule, open: bool, x: string, v: string, z: string, m: nat)
    requires Proper(r) && Proper(q) && EndsInSize(x) && Unblank(v)
    requires SharedAt(r, q, open, x + (v + z), m) && m + 5 > |x|
    ensures Shared(r, q, false, z)
  {
    assert m + 5 <= |x| + |v| + |z|;
    BothBehind(r, q, open, x, v, z, (x + (v + z))[..m + 5]);
  }

  lemma BothBehind(r: Rule, q: Rule, open: bool, x: string, v: string, z: string, p: string)
    requires Proper(r) && Proper(q) && EndsInSize(x) && Unblank(v)
    requires |x| < |p| <= |x| + |v| + |z| && p == (x + (v + z))[..|p|] && Named(r, open, p) && Named(q, open, p)
    ensures Shared(r, q, false, z)
  {
    hide Named, Proper, EndsInSize, Shared;
    TakeOfThree(x, v, z, |p|);
    if |p| <= |x| + |v| {
      NamedBehind(r, open, x, v[..|p| - |x|], []);
    } else {
      var k := |p| - |x| - |v|;
      var y := z[..k];
      NamedBehind(r, open, x, v, y);
      NamedBehind(q, open, x, v, y);
      NamedLong(r, false, y);
      hide *;
      SharedIs(r, q, false, z, k - 5);
    }
  }

  lemma NamedLong(r: Rule, open: bool, x: string)
    requires Named(r, open, x)
    ensures |x| >= 5
  {
    NamedEnds(r, open, x);
  }

  // ---- the whole table

  ghost predicate AllProper(rules: seq<Rule>) { forall k :: 0 <= k < |rules| ==> Proper(rules[k]) }

  // No size is named by two rules with different values.
  ghost predicate Agree(rules: seq<Rule>, s: string) {
    forall i, j :: 0 <= i < |rules| && 0 <= j < |rules| && rules[i].size != rules[j].size ==>
      !Shared(rules[i], rules[j], true, s)
  }

  ghost predicate AllDone(rules: seq<Rule>, s: string) { forall k :: 0 <= k < |rules| ==> Done(rules[k], true, s) }

  lemma AgreeStays(rules: seq<Rule>, p: Rule, s: string)
    requires AllProper(rules) && Proper(p) && Agree(rules, s)
    ensures Agree(rules, Apply(p, true, s))
  {
    OnlyValuesChange(p, true, s);
    forall i, j | 0 <= i < |rules| && 0 <= j < |rules| && rules[i].size != rules[j].size
      ensures !Shared(rules[i], rules[j], true, Apply(p, true, s))
    {
      if Shared(rules[i], rules[j], true, Apply(p, true, s)) {
        SharedBefore(rules[i], rules[j], p, true, Pieces(p, true, s));
      }
    }
  }

  lemma DoneStays(rules: seq<Rule>, i: nat, j: nat, s: string)
    requires AllProper(rules) && Agree(rules, s) && i < |rules| && j < |rules| && Done(rules[i], true, s)
    ensures Done(rules[i], true, Apply(rules[j], true, s))
  {
    var r, q := rules[i], rules[j];
    AppliedKeeps(r, q, s);
    OnlyValuesChange(q, true, s);
    if r.size != q.size && Clash(r, true, Pieces(q, true, s)) { ClashIsShared(r, q, true, Pieces(q, true, s)); }
  }

  // From rule k on, with the rules before k done.
  lemma {:induction false} AllDoneFrom(rules: seq<Rule>, k: nat, s: string)
    requires AllProper(rules) && Agree(rules, s) && k <= |rules|
    requires forall i :: 0 <= i < k ==> Done(rules[i], true, s)
    ensures AllDone(rules, ApplyAll(rules[k..], s))
    decreases |rules| - k
  {
    ApplyAllStep(rules, k, s);
    if k < |rules| {
      var t := Apply(rules[k], true, s);
      ApplyIsDone(rules[k], true, s);
      AgreeStays(rules, rules[k], s);
      forall i | 0 <= i < k + 1 ensures Done(rules[i], true, t) { if i < k { DoneStays(rules, i, k, s); } }
      AllDoneFrom(rules, k + 1, t);
    }
  }

  lemma {:induction false} AllDoneIsFixed(rules: seq<Rule>, s: string)
    requires AllDone(rules, s)
    ensures ApplyAll(rules, s) == s
    decreases |rules|
  {
    if rules != [] {
      DoneIsFixed(rules[0], true, s);
      assert forall k :: 0 <= k < |rules| - 1 ==> rules[1..][k] == rules[k + 1];
      AllDoneIsFixed(rules[1..], s);
    }
  }

  // When no size is named by two rules with different values, every size that a rule of the
  // table names is set after the rewriting, and rewriting again changes nothing.
  lemma RewriteSetsAll(rules: seq<Rule>, s: string)
    requires AllProper(rules) && Agree(rules, s)
    ensures AllDone(rules, ApplyAll(rules, s)) && ApplyAll(rules, ApplyAll(rules, s)) == ApplyAll(rules, s)
  {
    assert rules[0..] == rules;
    AllDoneFrom(rules, 0, s);
    AllDoneIsFixed(rules, ApplyAll(rules, s));
  }

  // -- and not when one is

  lemma NamedValue(r: Rule, open: bool, s: string, m: nat)
    requires m + 5 <= |s| && Done(r, open, s) && Named(r, open, s[..m + 5])
    ensures Token(s, m + 5) == r.size
  {
    var i: nat :| NameAt(r, open, s[..m + 5], i);
    NamedValueFrom(r, open, s, s[..m + 5], i);
  }

  lemma NamedValueFrom(r: Rule, open: bool, s: string, x: string, i: nat)
    requires |x| <= |s| && x == s[..|x|] && Done(r, open, s) && NameAt(r, open, x, i)
    ensures Token(s, |x|) == r.size
  {
    hide *;
    NameFrom(r, open, x, i);
    NameEnds(r, open, x, i);
    DoneAt(r, open, s, i);
    assert i > 0 ==> x[i - 1] == s[i - 1];
    NamedValueAt(r, if i == 0 then open else IsWs(x[i - 1]), s, s[i..], x[i..], s[|x|..], i, |x|);
  }

  lemma NamedValueAt(r: Rule, open: bool, s: string, t: string, y: string, u: string, i: nat, n: nat)
    requires i + |r.name| + 5 <= n <= |s| && t == s[i..] && y == s[..n][i..] && u == s[n..]
    requires EndsInSize(s[..n]) && NameAt(r, open, y, 0) && Done(r, open, t)
    ensures Token(s, n) == r.size
  {
    hide *;
    SplitAt(s, n, i);
    EndsLater(s[..n], i);
    NameIsLong(r, open, y);
    ValueAtEnd(r, open, y, u);
    TokenFrom(s, i, n);
  }

  lemma NameIsLong(r: Rule, open: bool, x: string)
    requires EndsInSize(x) && NameAt(r, open, x, 0)
    ensures |r.name| + 5 < |x|
  {
    assert x[0..] == x;
    assert IsWs(x[|r.name|]);
    EndChars(x);
  }

  lemma NameFrom(r: Rule, open: bool, x: string, i: nat)
    requires NameAt(r, open, x, i)
    ensures i + |r.name| + 5 <= |x|
    ensures NameAt(r, if i == 0 then open else IsWs(x[i - 1]), x[i..], 0)
  {
    var t := x[i..];
    assert t[0..] == t && t[|r.name|..] == x[i + |r.name|..];
    hide Hit, Find;
  }

  lemma DoneAt(r: Rule, open: bool, s: string, i: nat)
    requires Done(r, open, s) && i < |s|
    ensures Done(r, if i == 0 then open else IsWs(s[i - 1]), s[i..])
  {
    if i > 0 { DoneFrom(r, open, s, i - 1); } else { assert s[0..] == s; }
  }

  lemma SplitAt(s: string, n: nat, i: nat)
    requires i <= n <= |s|
    ensures s[..n][i..] + s[n..] == s[i..] && |s[..n][i..]| == n - i && (i > 0 ==> s[..n][i - 1] == s[i - 1])
  {}

  lemma EndsLater(x: string, i: nat)
    requires EndsInSize(x) && i + 5 <= |x|
    ensures EndsInSize(x[i..])
  {
    assert x[i..][|x| - i - 5..] == x[|x| - 5..];
  }

  lemma TokenFrom(s: string, i: nat, n: nat)
    requires i <= n <= |s|
    ensures Token(s[i..], n - i) == Token(s, n)
  {
    assert s[i..][n - i..] == s[n..];
  }

  lemma ValueAtEnd(r: Rule, open: bool, x: string, u: string)
    requires EndsInSize(x) && Done(r, open, x + u) && NameAt(r, open, x, 0) && |r.name| + 5 < |x|
    ensures Token(x + u, |x|) == r.size
  {
    DoneStep(r, open, x + u);
    assert x[0..] == x;
    var n := |r.name|;
    assert (x + u)[..n] == x[..n];
    SizeAfterInside(r, x, u);
    SetMeans(r, open, x + u);
  }

  // Two rules with different values cannot both be set where they name one size.
  lemma SharedSpoils(r: Rule, q: Rule, s: string)
    requires r.size != q.size && Shared(r, q, true, s)
    ensures !(Done(r, true, s) && Done(q, true, s))
  {
    var m: nat :| SharedAt(r, q, true, s, m);
    if Done(r, true, s) && Done(q, true, s) {
      NamedValue(r, true, s, m);
      NamedValue(q, true, s, m);
    }
  }

  // ---- a line that names two rules

  ghost predicate PlainText(v: string) { forall k :: 0 <= k < |v| ==> Plain(v[k]) }

  ghost predicate NameLike(a: string) {
    a != [] && forall k :: 0 <= k < |a| ==> a[k] != '=' && a[k] != '\n' && !IsWs(a[k])
  }

  // The line up to its value.
  function Front(a: string, b: string): string { a + (" " + (b + " size=")) }

  lemma FrontChars(a: string, b: string)
    requires NameLike(a) && NameLike(b)
    ensures OneEquals(Front(a, b))
  {
    var t := " size=";
    var x := Front(a, b);
    assert x[|x| - 5..] == SIZE;
    forall k | 0 <= k < |x| ensures x[k] == '=' <==> k == |x| - 1 {
      if k < |a| { assert x[k] == a[k]; }
      else if k == |a| { assert x[k] == ' '; }
      else if k <= |a| + |b| { assert x[k] == b[k - |a| - 1]; }
      else { assert x[k] == t[k - |a| - |b| - 1]; }
    }
  }

  lemma FindTail()
    ensures Find(" size=") == 1
  {
    var t := " size=";
    assert t[1..] == SIZE && AtSize(t[1..]);
  }

  lemma FindPastWord(b: string, w: string)
    requires NameLike(b) && w != [] && IsWs(w[0]) && Find(w) >= 0
    ensures Find([' '] + (b + w)) == |b| + 1 + Find(w)
  {
    var t := [' '] + (b + w);
    var m := |b| + 1;
    forall k | 0 <= k < m ensures t[k] != '=' && t[k] != '\n' { if k > 0 { assert t[k] == b[k - 1]; } }
    assert t[m..] == w && t[m] == w[0];
    hide Find, AtSize;
    FindSkip(t, m);
  }

  lemma FindBehindWord(b: string)
    requires NameLike(b)
    ensures Find(" " + (b + " size=")) == |b| + 2
  {
    FindTail();
    hide Find;
    FindPastWord(b, " size=");
  }

  lemma FirstIsNamed(r: Rule, b: string)
    requires NameLike(r.name) && NameLike(b)
    ensures Named(r, true, Front(r.name, b))
  {
    var x, n := Front(r.name, b), |r.name|;
    assert x[..n] == r.name && x[n..] == " " + (b + " size=") && x[0..] == x;
    FindBehindWord(b);
    assert NameAt(r, true, x, 0);
  }

  lemma SecondIsNamed(r: Rule, a: string)
    requires NameLike(a) && NameLike(r.name)
    ensures Named(r, true, Front(a, r.name))
  {
    var x, n, i := Front(a, r.name), |r.name|, |a| + 1;
    var t := r.name + " size=";
    assert x[i..] == t && t[..n] == r.name && x[i + n..] == t[n..] == " size=" && x[i - 1] == ' ';
    FindTail();
    assert NameAt(r, true, x, i);
  }

  lemma OnlyEquals(x: string, v: string, y: string)
    requires OneEquals(x) && PlainText(v)
    requires EndsInSize(y) && |y| <= |x + v| && y == (x + v)[..|y|]
    ensures y == x
  {
    EndChars(y);
    var k := |y| - 1;
    assert (x + v)[k] == '=';
    assert forall j :: 0 <= j < |v| ==> v[j] != '=' && (x + v)[|x| + j] == v[j];
    assert (x + v)[..|x|] == x;
  }

  // A rule that the line names sets its value, and any other one leaves it.
  lemma LineApplied(p: Rule, x: string, v: string)
    requires Proper(p) && PlainText(v) && OneEquals(x)
    ensures Apply(p, true, x + v) == x + if Named(p, true, x) then p.size else v
  {
    var c := Pieces(p, true, x + v);
    OnlyValuesChange(p, true, x + v);
    if c.Piece? {
      var y := Original(c.rest);
      NamedEnds(p, true, c.kept);
      assert Original(c)[..|c.kept|] == c.kept;
      OnlyEquals(x, v, c.kept);
      assert c.token + y == (x + v)[|x|..] == v;
      PlainToken(v, []);
      assert v + [] == v && |c.token| == |v|;
      assert y == [];
      NothingLeft(p, c.rest);
    } else if Named(p, true, x) {
      ApplyIsDone(p, true, x + v);
      assert (x + v)[..|x|] == x;
      NamedValue(p, true, x + v, |x| - 5);
      TokenBehind(x, v, []);
      assert v + [] == v;
    }
  }

  lemma PieceIsLong(p: Rule, c: Cut)
    requires Good(p, false, c)
    ensures c.Piece? ==> |Original(c)| >= 5
  {
    if c.Piece? { NamedEnds(p, false, c.kept); }
  }

  lemma NothingLeft(p: Rule, c: Cut)
    requires Good(p, false, c) && Original(c) == []
    ensures With(c, p.size) == []
  {
    PieceIsLong(p, c);
  }

  // A stretch with one '=', at its end.
  ghost predicate OneEquals(x: string) {
    EndsInSize(x) && forall k :: 0 <= k < |x| ==> (x[k] == '=' <==> k == |x| - 1)
  }

  lemma FirstOf(rules: seq<Rule>, s: string)
    requires rules != [] && AllProper(rules)
    ensures ApplyAll(rules, s) == ApplyAll(rules[1..], Apply(rules[0], true, s))
    ensures Proper(rules[0]) && AllProper(rules[1..]) && PlainText(rules[0].size)
    ensures |rules| > 1 ==> rules[1..] != [] && rules[1..][|rules[1..]| - 1] == rules[|rules| - 1]
  {}

  lemma {:induction false} LineStays(rules: seq<Rule>, x: string, v: string) returns (w: string)
    requires AllProper(rules) && PlainText(v) && OneEquals(x)
    ensures PlainText(w) && ApplyAll(rules, x + v) == x + w
    ensures rules == [] ==> w == v
    ensures rules != [] && Named(rules[|rules| - 1], true, x) ==> w == rules[|rules| - 1].size
    decreases |rules|
  {
    if rules == [] { return v; }
    hide *;
    FirstOf(rules, x + v);
    LineApplied(rules[0], x, v);
    w := LineStays(rules[1..], x, if Named(rules[0], true, x) then rules[0].size else v);
  }

  lemma ValueOfLine(r: Rule, x: string, w: string)
    requires Named(r, true, x) && PlainText(w)
    ensures Done(r, true, x + w) ==> w == r.size
  {
    TokenBehind(x, w, []);
    assert w + [] == w;
    if Done(r, true, x + w) {
      NamedEnds(r, true, x);
      assert (x + w)[..|x|] == x;
      NamedValue(r, true, x + w, |x| - 5);
    }
  }

  // A line that names any rule and the last one ends with the last one's value; the other rule
  // is not set when its value is another one.
  lemma LastRuleWins(rules: seq<Rule>, i: nat, v: string)
    requires AllProper(rules) && i < |rules| - 1 && PlainText(v) && rules[i].size != rules[|rules| - 1].size
    ensures var r, q := rules[i], rules[|rules| - 1];
            var t := ApplyAll(rules, Front(r.name, q.name) + v);
            t == Front(r.name, q.name) + q.size && !Done(r, true, t)
  {
    var r, q := rules[i], rules[|rules| - 1];
    var x := Front(r.name, q.name);
    assert Proper(r) && Proper(q);
    FrontChars(r.name, q.name);
    FirstIsNamed(r, q.name);
    SecondIsNamed(q, r.name);
    hide *;
    var w := LineStays(rules, x, v);
    ValueOfLine(r, x, w);
  }

  // The rules of the table.
  lemma TableAllProper()
    ensures AllProper(RULES)
  {
    forall k | 0 <= k < |RULES| ensures Proper(RULES[k]) { TableIsProper(k); }
  }

  lemma TableSetsAll(s: string)
    requires Agree(RULES, s)
    ensures AllDone(RULES, ApplyAll(RULES, s)) && ApplyAll(RULES, ApplyAll(RULES, s)) == ApplyAll(RULES, s)
  {
    TableAllProper();
    hide *;
    RewriteSetsAll(RULES, s);
  }

  lemma TableCanMiss(v: string)
    requires PlainText(v)
    ensures !Done(RULES[16], true, ApplyAll(RULES, Front("ASSETSTREAM_READBUF", "AUDIO_RWAC") + v))
  {
    TableAllProper();
    assert |RULES| == 18 && RULES[16] == Rule("ASSETSTREAM_READBUF", "4M") && RULES[17] == Rule("AUDIO_RWAC", "8M");
    assert "4M"[0] != "8M"[0];
    hide *;
    LastRuleWins(RULES, 16, v);
  }

  // ---- values and lines

  function LineEnd(s: string): (n: nat)
    ensures n <= |s|
  {
    if s == [] || s[0] == '\n' then 0 else 1 + LineEnd(s[1..])
  }

  function DepthAt(s: string, k: nat, depth: int): int
    requires k <= |s|
  {
    if k == 0 then depth
    else DepthAt(s[1..], k - 1, if s[0] == '{' then depth + 1 else if s[0] == '}' then depth - 1 else depth)
  }

  // A delimiter outside all braces, its newline included.
  predicate Stop(s: string, k: nat, depth: int)
    requires k < |s|
  {
    DepthAt(s, k, depth) == 0 && Delimiter(s[k])
  }

  lemma {:induction false} StopLater(s: string, depth: int)
    requires s != []
    ensures var d := if s[0] == '{' then depth + 1 else if s[0] == '}' then depth - 1 else depth;
            forall k: nat :: k < |s| - 1 ==> (Stop(s, k + 1, depth) <==> Stop(s[1..], k, d))
  {}

  // A value ends on its line if and only if the text ends there, or some delimiter of the line
  // lies outside all braces; otherwise the replacement swallows what follows, newline included.
  lemma {:induction false} ValueStaysOnLine(s: string, depth: int)
    ensures TokenEnd(s, depth) <= LineEnd(s) <==>
      LineEnd(s) == |s| || exists k: nat :: k <= LineEnd(s) && Stop(s, k, depth)
    decreases |s|
  {
    if s != [] {
      var d := if s[0] == '{' then depth + 1 else if s[0] == '}' then depth - 1 else depth;
      if depth == 0 && Delimiter(s[0]) {
        assert Stop(s, 0, depth);
      } else if s[0] != '\n' {
        ValueStaysOnLine(s[1..], d);
        StopLater(s, depth);
        if k: nat :| k <= LineEnd(s[1..]) && LineEnd(s[1..]) < |s| - 1 && Stop(s[1..], k, d) { assert Stop(s, k + 1, depth); }
        if k: nat :| k <= LineEnd(s) && LineEnd(s) < |s| && Stop(s, k, depth) { assert k > 0 && Stop(s[1..], k - 1, d); }
      }
    }
  }

  // ---- names and values in terms of characters

  lemma {:induction false} FindIs(x: string, k: nat)
    ensures Find(x) == k <==>
      && k + 5 <= |x| && x[k..k + 5] == "size="
      && forall m: nat :: m < k ==> x[m] != '\n' && !AtSize(x[m..])
    decreases |x|
  {
    if x != [] && x[0] != '\n' && !AtSize(x) {
      if k > 0 {
        FindIs(x[1..], k - 1);
        assert k + 5 <= |x| ==> x[1..][k - 1..k - 1 + 5] == x[k..k + 5];
        forall m: nat | m < |x| - 1 ensures x[1..][m] == x[m + 1] && x[1..][m..] == x[m + 1..] {}
        assert x[0..] == x;
        if k <= |x| { LaterSizes(x, k); }
      } else {
        assert 5 <= |x| ==> x[..5] == x[0..5];
      }
    } else if x != [] {
      assert x[0..] == x && (5 <= |x| ==> x[..5] == x[0..5]);
      assert x[0] == '\n' && 5 <= |x| ==> x[0..5][0] == '\n';
    }
  }

  lemma LaterSizes(x: string, k: nat)
    requires x != [] && 0 < k <= |x| && x[0] != '\n' && !AtSize(x)
    ensures (forall m: nat :: m < k ==> m < |x| && x[m] != '\n' && !AtSize(x[m..])) <==>
            (forall m: nat :: m < k - 1 ==> m < |x| - 1 && x[1..][m] != '\n' && !AtSize(x[1..][m..]))
  {
    if forall m: nat :: m < k - 1 ==> m < |x| - 1 && x[1..][m] != '\n' && !AtSize(x[1..][m..]) {
      forall m: nat | m < k ensures m < |x| && x[m] != '\n' && !AtSize(x[m..]) {
        assert x[0..] == x;
        if m > 0 { assert x[1..][m - 1..] == x[m..]; }
      }
    }
    if forall m: nat :: m < k ==> m < |x| && x[m] != '\n' && !AtSize(x[m..]) {
      forall m: nat | m < k - 1 ensures m < |x| - 1 && x[1..][m] != '\n' && !AtSize(x[1..][m..]) {
        assert x[1..][m..] == x[m + 1..];
      }
    }
  }

  // Where a rule finds its name: at the beginning or behind a blank or a tab, with a blank or a tab
  // behind it, and no newline and no "size=" up to the one at the end.
  lemma NameAtIs(r: Rule, kept: string, i: nat)
    ensures var n := i + |r.name|;
            NameAt(r, true, kept, i) <==>
              && n < |kept| && kept[i..n] == r.name && kept[n] in {' ', '\t'} && (i > 0 ==> kept[i - 1] in {' ', '\t'})
              && n + 5 <= |kept| && kept[|kept| - 5..] == "size="
              && forall m: nat :: n <= m < |kept| - 5 ==> kept[m] != '\n' && kept[m..m + 5] != "size="
  {
    var n := i + |r.name|;
    NameAtHits(r, kept, i);
    hide NameAt, Find, AtSize;
    if n + 5 <= |kept| { StretchIs(kept, n); }
  }

  lemma NameAtHits(r: Rule, kept: string, i: nat)
    ensures var n := i + |r.name|;
            NameAt(r, true, kept, i) <==>
              && n + 5 <= |kept| && Find(kept[n..]) == |kept| - n - 5
              && kept[i..n] == r.name && kept[n] in {' ', '\t'} && (i > 0 ==> kept[i - 1] in {' ', '\t'})
  {
    hide Find, Hit, IsWs;
    if i + |r.name| < |kept| {
      HitIs(r, if i == 0 then true else IsWs(kept[i - 1]), kept, i);
      if i > 0 { BlankIs(kept[i - 1]); }
    }
  }

  lemma BlankIs(c: char)
    ensures IsWs(c) <==> c in {' ', '\t'}
  {}

  lemma HitIs(r: Rule, open: bool, s: string, i: nat)
    requires i + |r.name| < |s|
    ensures Hit(r, open, s[i..]) <==> open && s[i..i + |r.name|] == r.name && s[i + |r.name|] in {' ', '\t'}
  {
    assert s[i..][..|r.name|] == s[i..i + |r.name|];
  }

  lemma StretchIs(s: string, n: nat)
    requires n + 5 <= |s|
    ensures Find(s[n..]) == |s| - n - 5 <==>
      s[|s| - 5..] == "size=" && forall m: nat :: n <= m < |s| - 5 ==> s[m] != '\n' && s[m..m + 5] != "size="
  {
    var x, k := s[n..], |s| - n - 5;
    FindIs(x, k);
    assert x[k..k + 5] == s[|s| - 5..];
    forall m: nat | m < k ensures x[m] == s[n + m] && (AtSize(x[m..]) <==> s[n + m..n + m + 5] == "size=") {
      assert x[m..] == s[n + m..] && s[n + m..][..5] == s[n + m..n + m + 5];
    }
    hide Find, AtSize;
    if forall m: nat :: m < k ==> x[m] != '\n' && !AtSize(x[m..]) {
      forall m: nat | n <= m < |s| - 5 ensures s[m] != '\n' && s[m..m + 5] != "size=" { assert x[m - n] == s[n + (m - n)]; }
    }
  }

  // Where a value ends: at the first of the four delimiters before which as many braces are opened
  // as closed, or with the text.
  lemma TokenEndIs(s: string, depth: int)
    ensures var n := TokenEnd(s, depth);
            && (n < |s| ==> s[n] in {',', ']', ' ', '\n'} && depth + multiset(s[..n])['{'] == multiset(s[..n])['}'])
            && forall k :: 0 <= k < n ==>
                 s[k] !in {',', ']', ' ', '\n'} || depth + multiset(s[..k])['{'] != multiset(s[..k])['}']
  {
    TokenEndStops(s, depth);
    forall k: nat | k < |s|
      ensures Stop(s, k, depth) <==>
        s[k] in {',', ']', ' ', '\n'} && depth + multiset(s[..k])['{'] == multiset(s[..k])['}']
    {
      DepthCounts(s, k, depth);
    }
    hide Stop;
  }

  lemma {:induction false} TokenEndStops(s: string, depth: int)
    ensures var n := TokenEnd(s, depth);
            (n < |s| ==> Stop(s, n, depth)) && forall k: nat :: k < n ==> !Stop(s, k, depth)
    decreases |s|
  {
    if s != [] {
      var d := if s[0] == '{' then depth + 1 else if s[0] == '}' then depth - 1 else depth;
      TokenEndStops(s[1..], d);
      StopLater(s, depth);
      forall k: nat | k < TokenEnd(s, depth) ensures !Stop(s, k, depth) {
        assert k > 0 ==> (Stop(s, k, depth) <==> Stop(s[1..], k - 1, d));
      }
    }
  }

  lemma {:induction false} DepthCounts(s: string, k: nat, depth: int)
    requires k <= |s|
    ensures DepthAt(s, k, depth) == depth + multiset(s[..k])['{'] - multiset(s[..k])['}']
    decreases k
  {
    if k == 0 {
      assert s[..0] == [];
    } else {
      DepthCounts(s[1..], k - 1, if s[0] == '{' then depth + 1 else if s[0] == '}' then depth - 1 else depth);
      assert s[..k] == [s[0]] + s[1..][..k - 1];
    }
  }
}
