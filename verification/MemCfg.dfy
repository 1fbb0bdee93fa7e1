// rewrite_memcfg of loader/jni_patch.c: on every line that names an allocator, the value after
// "size=" is replaced.

module MemCfg {
  import opened Common

  datatype Rule = Rule(name: string, size: string)

  predicate IsWs(c: char) { c == ' ' || c == '\t' }

  predicate Delimiter(c: char) { c == ',' || c == ']' || c == ' ' || c == '\n' }

  // What the rule table promises of a name and of a value.
  ghost predicate Proper(r: Rule) {
    && r.name != [] && (forall k :: 0 <= k < |r.name| ==> r.name[k] != '=' && r.name[k] != '\n' && !IsWs(r.name[k]))
    && (forall k :: 0 <= k < |r.size| ==> Plain(r.size[k]))
  }

  predicate Plain(c: char) { !Delimiter(c) && !IsWs(c) && c != '{' && c != '}' && c != '=' }

  ghost predicate Unblank(v: string) { forall k :: 0 <= k < |v| ==> !IsWs(v[k]) }

  // ---- one rule, on the rest s of a text; open says that a name may start here

  predicate Hit(r: Rule, open: bool, s: string) {
    open && |s| > |r.name| && s[..|r.name|] == r.name && IsWs(s[|r.name|])
  }

  const SIZE: string := "size="

  predicate AtSize(s: string) { |s| >= 5 && s[..5] == SIZE }

  // Where the line s has its first "size=", or -1.
  function Find(s: string): (k: int)
    ensures -1 <= k && (k >= 0 ==> k + 5 <= |s| && AtSize(s[k..]))
  {
    if s == [] || s[0] == '\n' then -1
    else if AtSize(s) then 0
    else var k := Find(s[1..]); if k < 0 then -1 else k + 1
  }

  // The length of a value: up to a delimiter outside all braces.
  function TokenEnd(s: string, depth: int): (n: nat)
    ensures n <= |s| && (n < |s| ==> Delimiter(s[n]))
  {
    if s == [] then 0
    else if s[0] == '{' then 1 + TokenEnd(s[1..], depth + 1)
    else if s[0] == '}' then 1 + TokenEnd(s[1..], depth - 1)
    else if depth == 0 && Delimiter(s[0]) then 0
    else 1 + TokenEnd(s[1..], depth)
  }

  predicate Replaces(r: Rule, open: bool, s: string) { Hit(r, open, s) && Find(s[|r.name|..]) >= 0 }

  function ValueStart(r: Rule, s: string): (v: nat)
    requires Replaces(r, true, s)
    ensures |r.name| + 5 <= v <= |s|
  {
    |r.name| + Find(s[|r.name|..]) + 5
  }

  function ValueEnd(r: Rule, s: string): (v: nat)
    requires Replaces(r, true, s)
    ensures ValueStart(r, s) <= v <= |s| && (v < |s| ==> Delimiter(s[v]))
  {
    ValueStart(r, s) + TokenEnd(s[ValueStart(r, s)..], 0)
  }

  // What becomes of s. The scan goes on one character behind a replaced value.
  function Apply(r: Rule, open: bool, s: string): string
    decreases |s|
  {
    if s == [] then []
    else if Replaces(r, open, s) then
      s[..ValueStart(r, s)] + r.size + Behind(r, s[ValueEnd(r, s)..])
    else [s[0]] + Apply(r, IsWs(s[0]), s[1..])
  }

  function Behind(r: Rule, s: string): string
    decreases |s|, 0
  {
    if s == [] then [] else [s[0]] + Apply(r, IsWs(s[0]), s[1..])
  }

  // ---- every size that follows the name is set

  ghost predicate Done(r: Rule, open: bool, s: string)
    decreases |s|
  {
    s == [] || (Set(r, open, s) && Done(r, IsWs(s[0]), s[1..]))
  }

  ghost predicate Set(r: Rule, open: bool, s: string) {
    Replaces(r, open, s) ==> s[ValueStart(r, s)..ValueEnd(r, s)] == r.size
  }

  lemma DoneStep(r: Rule, open: bool, s: string)
    requires s != []
    ensures Done(r, open, s) <==> Set(r, open, s) && Done(r, IsWs(s[0]), s[1..])
  {}

  lemma ApplyStep(r: Rule, open: bool, s: string)
    requires s != [] && !Replaces(r, open, s)
    ensures Apply(r, open, s) == [s[0]] + Apply(r, IsWs(s[0]), s[1..])
  {}

  lemma ApplyHit(r: Rule, s: string)
    requires Replaces(r, true, s)
    ensures Apply(r, true, s) == s[..ValueStart(r, s)] + r.size + Behind(r, s[ValueEnd(r, s)..])
  {}

  // -- a text that is done is left alone

  lemma Cons(s: string)
    requires s != []
    ensures s == [s[0]] + s[1..]
  {}

  lemma ThreeParts(s: string, a: nat, b: nat)
    requires a <= b <= |s|
    ensures s[..a] + s[a..b] + s[b..] == s
  {}

  lemma {:induction false} DoneFrom(r: Rule, open: bool, s: string, k: nat)
    requires Done(r, open, s) && k < |s|
    ensures Done(r, IsWs(s[k]), s[k + 1..])
    decreases k
  {
    DoneStep(r, open, s);
    if k > 0 {
      DoneFrom(r, IsWs(s[0]), s[1..], k - 1);
      assert s[1..][k..] == s[k + 1..];
    }
  }

  lemma {:induction false} DoneIsFixed(r: Rule, open: bool, s: string)
    requires Done(r, open, s)
    ensures Apply(r, open, s) == s
    decreases |s|
  {
    if s != [] {
      DoneStep(r, open, s);
      if Replaces(r, open, s) {
        var a, b := ValueStart(r, s), ValueEnd(r, s);
        ApplyHit(r, s);
        if b < |s| {
          DoneFrom(r, open, s, b);
          DoneIsFixed(r, IsWs(s[b]), s[b + 1..]);
          assert s[b..][1..] == s[b + 1..];
          Cons(s[b..]);
        }
        assert Behind(r, s[b..]) == s[b..];
        hide *;
        ThreeParts(s, a, b);
      } else {
        ApplyStep(r, open, s);
        DoneIsFixed(r, IsWs(s[0]), s[1..]);
        Cons(s);
      }
    }
  }

  // -- the beginning of the text, and lines without "size=", stay

  function Take(s: string, n: nat): string { if |s| <= n then s else s[..n] }

  lemma TakeCons(c: char, s: string, n: nat)
    ensures Take([c] + s, n + 1) == [c] + Take(s, n)
  {}

  lemma TakeLess(s: string, t: string, n: nat)
    requires Take(s, n + 1) == Take(t, n + 1)
    ensures Take(s, n) == Take(t, n)
  {
    assert Take(Take(s, n + 1), n) == Take(s, n);
  }

  lemma TakeHead(s: string, a: nat, y: string, n: nat)
    requires n <= a <= |s|
    ensures Take(s[..a] + y, n) == Take(s, n)
  {}

  lemma {:induction false} HeadKept(r: Rule, open: bool, s: string)
    ensures Take(Apply(r, open, s), |r.name| + 5) == Take(s, |r.name| + 5)
    decreases |s|
  {
    if s != [] {
      var n := |r.name| + 5;
      if Replaces(r, open, s) {
        ApplyHit(r, s);
        var a := ValueStart(r, s);
        var y := Behind(r, s[ValueEnd(r, s)..]);
        hide *;
        assert s[..a] + r.size + y == s[..a] + (r.size + y);
        TakeHead(s, a, r.size + y, n);
      } else {
        ApplyStep(r, open, s);
        HeadKept(r, IsWs(s[0]), s[1..]);
        hide *;
        TakeLess(Apply(r, IsWs(s[0]), s[1..]), s[1..], n - 1);
        TakeCons(s[0], Apply(r, IsWs(s[0]), s[1..]), n - 1);
        TakeCons(s[0], s[1..], n - 1);
        Cons(s);
      }
    }
  }

  lemma SameHead(r: Rule, open: bool, s: string, t: string)
    requires Take(s, |r.name| + 5) == Take(t, |r.name| + 5)
    ensures Hit(r, open, s) <==> Hit(r, open, t)
    ensures AtSize(s) <==> AtSize(t)
  {
    TakeHit(r, open, s);
    TakeHit(r, open, t);
  }

  lemma TakeHit(r: Rule, open: bool, s: string)
    ensures Hit(r, open, s) <==> Hit(r, open, Take(s, |r.name| + 5))
    ensures AtSize(s) <==> AtSize(Take(s, |r.name| + 5))
  {
    var h := Take(s, |r.name| + 5);
    if |s| > |r.name| { assert h[..|r.name|] == s[..|r.name|] && h[|r.name|] == s[|r.name|]; }
    if |s| >= 5 { assert h[..5] == s[..5]; }
  }

  lemma SizeChars(s: string)
    requires AtSize(s)
    ensures s[0] == 's' && s[1] == 'i' && s[2] == 'z' && s[3] == 'e' && s[4] == '='
  {
    var h := s[..5];
    assert h[0] == 's' && h[1] == 'i' && h[2] == 'z' && h[3] == 'e' && h[4] == '=';
  }

  // "size=" is not looked for inside a name.
  lemma {:induction false} FindSkip(s: string, m: nat)
    requires m < |s| && IsWs(s[m]) && forall k :: 0 <= k < m ==> s[k] != '=' && s[k] != '\n'
    ensures Find(s) == if Find(s[m..]) < 0 then -1 else m + Find(s[m..])
    decreases m
  {
    if m == 0 {
      assert s[0..] == s;
    } else {
      assert s[1..][m - 1..] == s[m..];
      FindSkip(s[1..], m - 1);
      if AtSize(s) { SizeChars(s); }
    }
  }

  lemma FindFromHit(r: Rule, s: string)
    requires Proper(r) && Hit(r, true, s)
    ensures Find(s) == if Find(s[|r.name|..]) < 0 then -1 else |r.name| + Find(s[|r.name|..])
  {
    NameChars(r, true, s);
    FindSkip(s, |r.name|);
  }

  lemma {:induction false} NoSizeKept(r: Rule, open: bool, s: string)
    requires Proper(r) && Find(s) < 0
    ensures Find(Apply(r, open, s)) < 0
    decreases |s|
  {
    if s != [] {
      if Hit(r, open, s) { FindFromHit(r, s); }
      ApplyStep(r, open, s);
      HeadKept(r, open, s);
      SameHead(r, open, s, Apply(r, open, s));
      if s[0] != '\n' {
        NoSizeKept(r, IsWs(s[0]), s[1..]);
        assert Apply(r, open, s)[1..] == Apply(r, IsWs(s[0]), s[1..]);
      }
    }
  }

  lemma StillNoHit(r: Rule, open: bool, s: string)
    requires Proper(r) && s != [] && !Replaces(r, open, s)
    ensures !Replaces(r, open, Apply(r, open, s))
  {
    var u := Apply(r, open, s);
    HeadKept(r, open, s);
    SameHead(r, open, s, u);
    if Hit(r, open, s) {
      FindFromHit(r, s);
      NoSizeKept(r, open, s);
      FindFromHit(r, u);
    }
  }

  // -- the stretch from a name to its new value

  lemma {:induction false} FindPrefix(s: string, y: string)
    requires Find(s) >= 0
    ensures Find(s[..Find(s) + 5] + y) == Find(s)
    decreases |s|
  {
    var k := Find(s);
    PrefixShape(s, k + 5, y);
    if k > 0 { FindPrefix(s[1..], y); }
  }

  lemma PrefixShape(s: string, n: nat, y: string)
    requires 5 <= n <= |s|
    ensures var t := s[..n] + y;
            t != [] && t[0] == s[0] && t[1..] == s[1..][..n - 1] + y && |t| >= 5 && (AtSize(t) <==> AtSize(s))
  {
    assert (s[..n] + y)[..5] == s[..5];
  }

  lemma HitBefore(r: Rule, open: bool, s: string, k: nat)
    requires Proper(r) && k + 5 <= |s| && AtSize(s[k..]) && Hit(r, open, s)
    ensures |r.name| < k
  {
    SizeChars(s[k..]);
    NameChars(r, open, s);
  }

  lemma NameChars(r: Rule, open: bool, s: string)
    requires Hit(r, open, s)
    ensures forall j :: 0 <= j < |r.name| ==> s[j] == r.name[j]
  {
    forall j | 0 <= j < |r.name| ensures s[j] == r.name[j] { assert s[..|r.name|][j] == s[j]; }
  }

  lemma {:induction false} PlainToken(v: string, y: string)
    requires (forall k :: 0 <= k < |v| ==> Plain(v[k])) && (y == [] || Delimiter(y[0]))
    ensures TokenEnd(v + y, 0) == |v|
    decreases |v|
  {
    if v == [] {
      assert v + y == y;
    } else {
      assert (v + y)[1..] == v[1..] + y;
      PlainToken(v[1..], y);
    }
  }

  // No name starts behind a character that is no blank.
  lemma {:induction false} DoneBehind(r: Rule, v: string, y: string)
    requires (forall k :: 0 <= k < |v| ==> !IsWs(v[k])) && Done(r, false, y)
    ensures Done(r, false, v + y)
    decreases |v|
  {
    if v == [] {
      assert v + y == y;
    } else {
      assert (v + y)[0] == v[0] && (v + y)[1..] == v[1..] + y;
      DoneBehind(r, v[1..], y);
      DoneStep(r, false, v + y);
    }
  }

  // s up to and with its first "size=", the new value, and what follows it.
  function Renewed(r: Rule, s: string, y: string): string
    requires Find(s) >= 0
  {
    s[..Find(s) + 5] + (r.size + y)
  }

  lemma RenewedParts(r: Rule, s: string, y: string)
    requires Find(s) >= 0
    ensures var u, k := Renewed(r, s, y), Find(s);
            u != [] && k + 5 <= |u| && AtSize(u[k..]) && u[k + 5..] == r.size + y && Find(u) == k && u[0] == s[0]
  {
    var k := Find(s);
    var u := Renewed(r, s, y);
    FindPrefix(s, r.size + y);
  }

  lemma ValueAt(r: Rule, u: string, k: nat)
    requires Proper(r) && Replaces(r, true, u) && Find(u) == k
    ensures k + 5 <= |u| && ValueStart(r, u) == k + 5 && ValueEnd(r, u) == k + 5 + TokenEnd(u[k + 5..], 0)
  {
    FindFromHit(r, u);
  }

  lemma SliceOf(u: string, i: nat, v: string, y: string)
    requires i <= |u| && u[i..] == v + y
    ensures i + |v| <= |u| && u[i..i + |v|] == v
  {
    assert u[i..][..|v|] == v;
  }

  lemma PlainSize(r: Rule, y: string)
    requires Proper(r) && (y == [] || Delimiter(y[0]))
    ensures TokenEnd(r.size + y, 0) == |r.size|
  {
    PlainToken(r.size, y);
  }

  lemma RenewedIsSet(r: Rule, open: bool, s: string, y: string)
    requires Proper(r) && Find(s) >= 0 && (y == [] || Delimiter(y[0]))
    ensures Set(r, open, Renewed(r, s, y))
  {
    var u, k := Renewed(r, s, y), Find(s);
    hide *;
    if Replaces(r, open, u) {
      OnlyOpen(r, open, u);
      PlainSize(r, y);
      RenewedParts(r, s, y);
      SetFrom(r, u, k, y);
    } else {
      SetNot(r, open, u);
    }
  }

  lemma SetFrom(r: Rule, u: string, k: nat, y: string)
    requires Proper(r) && Replaces(r, true, u) && Find(u) == k
    requires k + 5 <= |u| && u[k + 5..] == r.size + y && TokenEnd(r.size + y, 0) == |r.size|
    ensures Set(r, true, u)
  {
    hide *;
    ValueAt(r, u, k);
    SliceOf(u, k + 5, r.size, y);
    SetIf(r, u);
  }

  lemma OnlyOpen(r: Rule, open: bool, s: string)
    requires Replaces(r, open, s)
    ensures open
  {}

  lemma SetNot(r: Rule, open: bool, s: string)
    requires !Replaces(r, open, s)
    ensures Set(r, open, s)
  {}

  lemma SetIf(r: Rule, s: string)
    requires Replaces(r, true, s) && s[ValueStart(r, s)..ValueEnd(r, s)] == r.size
    ensures Set(r, true, s)
  {}

  lemma {:induction false} RenewedIsDone(r: Rule, open: bool, s: string, y: string)
    requires Proper(r) && Find(s) >= 0 && (y == [] || Delimiter(y[0])) && Done(r, false, y)
    ensures Done(r, open, Renewed(r, s, y))
    decreases |s|
  {
    var u := Renewed(r, s, y);
    RenewedParts(r, s, y);
    RenewedIsSet(r, open, s, y);
    DoneStep(r, open, u);
    if Find(s) > 0 {
      RenewedIsDone(r, IsWs(s[0]), s[1..], y);
      RenewedTail(r, s, y);
    } else {
      assert s[..5] == SIZE;
      var v := "ize=" + r.size;
      assert u[1..] == v + y;
      DoneBehind(r, v, y);
      assert u[0] == 's';
    }
  }

  lemma RenewedTail(r: Rule, s: string, y: string)
    requires Find(s) > 0
    ensures Find(s[1..]) == Find(s) - 1 && Renewed(r, s, y)[1..] == Renewed(r, s[1..], y)
  {
    var k := Find(s);
    var z := r.size + y;
    assert (s[..k + 5] + z)[1..] == s[1..][..k + 4] + z;
  }

  lemma ApplyRenews(r: Rule, s: string)
    requires Proper(r) && Replaces(r, true, s)
    ensures Find(s) >= 0 && Apply(r, true, s) == Renewed(r, s, Behind(r, s[ValueEnd(r, s)..]))
  {
    ApplyHit(r, s);
    FindFromHit(r, s);
    var y := Behind(r, s[ValueEnd(r, s)..]);
    var a := ValueStart(r, s);
    hide Find, Behind;
    Assoc(s[..a], r.size, y);
  }

  lemma BehindHead(r: Rule, e: string)
    requires e != []
    ensures Behind(r, e) != [] && Behind(r, e)[0] == e[0] && Behind(r, e)[1..] == Apply(r, IsWs(e[0]), e[1..])
  {}

  lemma AnyStart(r: Rule, y: string)
    requires y == [] || Done(r, IsWs(y[0]), y[1..])
    ensures Done(r, false, y)
  {}

  // After the rule every size that follows its name on a line has the rule's value.
  lemma {:induction false} ApplyIsDone(r: Rule, open: bool, s: string)
    requires Proper(r)
    ensures Done(r, open, Apply(r, open, s))
    decreases |s|
  {
    if s != [] {
      if Replaces(r, open, s) {
        var e := s[ValueEnd(r, s)..];
        assert |e| < |s| && open && (e == [] || Delimiter(e[0]));
        ApplyRenews(r, s);
        if e != [] {
          BehindHead(r, e);
          ApplyIsDone(r, IsWs(e[0]), e[1..]);
        }
        AnyStart(r, Behind(r, e));
        hide Apply, Done, Find;
        RenewedIsDone(r, open, s, Behind(r, e));
      } else {
        StillNoHit(r, open, s);
        SetNot(r, open, Apply(r, open, s));
        ApplyStep(r, open, s);
        ApplyIsDone(r, IsWs(s[0]), s[1..]);
        DoneStep(r, open, Apply(r, open, s));
        hide *;
        assert Apply(r, open, s)[1..] == Apply(r, IsWs(s[0]), s[1..]);
      }
    }
  }

  // Applying a rule again changes nothing, and it leaves exactly the texts that need no change.
  lemma ApplyTwice(r: Rule, open: bool, s: string)
    requires Proper(r)
    ensures Apply(r, open, Apply(r, open, s)) == Apply(r, open, s)
    ensures Apply(r, open, s) == s <==> Done(r, open, s)
  {
    ApplyIsDone(r, open, s);
    DoneIsFixed(r, open, Apply(r, open, s));
    if Done(r, open, s) { DoneIsFixed(r, open, s); }
  }

  // ---- only those values change

  // A text cut into the values that are replaced and the stretches that are kept.
  datatype Cut = End(kept: string) | Piece(kept: string, token: string, rest: Cut)

  function Original(c: Cut): string {
    match c
    case End(kept) => kept
    case Piece(kept, token, rest) => kept + (token + Original(rest))
  }

  function With(c: Cut, v: string): string {
    match c
    case End(kept) => kept
    case Piece(kept, token, rest) => kept + (v + With(rest, v))
  }

  function Prepend(ch: char, c: Cut): Cut {
    match c
    case End(kept) => End([ch] + kept)
    case Piece(kept, token, rest) => Piece([ch] + kept, token, rest)
  }

  // kept ends with the first "size=" of a line behind a name of the rule at i.
  predicate NameAt(r: Rule, open: bool, kept: string, i: nat) {
    && i + |r.name| <= |kept|
    && Hit(r, if i == 0 then open else IsWs(kept[i - 1]), kept[i..])
    && Find(kept[i + |r.name|..]) == |kept| - (i + |r.name| + 5)
    && i + |r.name| + 5 <= |kept|
  }

  ghost predicate Named(r: Rule, open: bool, kept: string) { exists i: nat :: NameAt(r, open, kept, i) }

  // Every piece follows a name, and is a value up to its delimiter.
  ghost predicate Good(r: Rule, open: bool, c: Cut) {
    c.Piece? ==>
      && Named(r, open, c.kept)
      && TokenEnd(c.token + Original(c.rest), 0) == |c.token|
      && Good(r, false, c.rest)
  }

  function Pieces(r: Rule, open: bool, s: string): Cut
    decreases |s|
  {
    if s == [] then End([])
    else if Replaces(r, open, s) then
      Piece(s[..ValueStart(r, s)], s[ValueStart(r, s)..ValueEnd(r, s)], PiecesBehind(r, s[ValueEnd(r, s)..]))
    else Prepend(s[0], Pieces(r, IsWs(s[0]), s[1..]))
  }

  function PiecesBehind(r: Rule, s: string): Cut
    decreases |s|, 0
  {
    if s == [] then End([]) else Prepend(s[0], Pieces(r, IsWs(s[0]), s[1..]))
  }

  lemma PrependText(ch: char, c: Cut, v: string)
    ensures Original(Prepend(ch, c)) == [ch] + Original(c) && With(Prepend(ch, c), v) == [ch] + With(c, v)
  {
    if c.Piece? {
      Assoc([ch], c.kept, c.token + Original(c.rest));
      Assoc([ch], c.kept, v + With(c.rest, v));
    }
  }

  lemma Shifted(ch: char, kept: string, i: nat)
    requires i <= |kept|
    ensures ([ch] + kept)[i + 1..] == kept[i..] && ([ch] + kept)[i] == if i == 0 then ch else kept[i - 1]
  {}

  lemma NameShifts(r: Rule, open: bool, ch: char, kept: string, i: nat)
    requires NameAt(r, IsWs(ch), kept, i)
    ensures NameAt(r, open, [ch] + kept, i + 1)
  {
    Shifted(ch, kept, i);
    Shifted(ch, kept, i + |r.name|);
    var t := [ch] + kept;
    assert |t| == |kept| + 1 && i + 1 + |r.name| == i + |r.name| + 1;
    hide Hit, Find, AtSize, IsWs;
  }

  lemma PrependNamed(r: Rule, open: bool, ch: char, kept: string)
    requires Named(r, IsWs(ch), kept)
    ensures Named(r, open, [ch] + kept)
  {
    var i: nat :| NameAt(r, IsWs(ch), kept, i);
    NameShifts(r, open, ch, kept, i);
    hide NameAt;
  }

  lemma PrependGood(r: Rule, open: bool, ch: char, c: Cut)
    requires Good(r, IsWs(ch), c)
    ensures Good(r, open, Prepend(ch, c))
  {
    if c.Piece? { PrependNamed(r, open, ch, c.kept); }
  }

  lemma FirstNamed(r: Rule, s: string)
    requires Replaces(r, true, s)
    ensures Named(r, true, s[..ValueStart(r, s)])
  {
    var n, t := |r.name|, s[|r.name|..];
    var kept := s[..ValueStart(r, s)];
    FindPrefix(t, []);
    assert kept[n..] == t[..Find(t) + 5] + [];
    assert kept[0..] == kept && kept[..n] == s[..n];
    assert NameAt(r, true, kept, 0);
  }

  lemma PieceText(s: string, a: nat, b: nat, v: string, y: string)
    requires a <= b <= |s|
    ensures s[..a] + (s[a..b] + s[b..]) == s && s[a..b] + s[b..] == s[a..] && s[..a] + (v + y) == s[..a] + v + y
  {}

  // Putting the old values back gives the source, and putting the new one in gives the result.
  lemma {:induction false} OnlyValuesChange(r: Rule, open: bool, s: string)
    ensures var c := Pieces(r, open, s); Original(c) == s && With(c, r.size) == Apply(r, open, s) && Good(r, open, c)
    decreases |s|, 1
  {
    if s != [] {
      if Replaces(r, open, s) {
        OnlyValuesBehind(r, s[ValueEnd(r, s)..]);
        PieceText(s, ValueStart(r, s), ValueEnd(r, s), r.size, Behind(r, s[ValueEnd(r, s)..]));
        FirstNamed(r, s);
      } else {
        var c := Pieces(r, IsWs(s[0]), s[1..]);
        OnlyValuesChange(r, IsWs(s[0]), s[1..]);
        PrependText(s[0], c, r.size);
        PrependGood(r, open, s[0], c);
        Cons(s);
      }
    }
  }

  lemma {:induction false} OnlyValuesBehind(r: Rule, s: string)
    ensures var c := PiecesBehind(r, s); Original(c) == s && With(c, r.size) == Behind(r, s) && Good(r, false, c)
    decreases |s|, 2
  {
    if s != [] {
      var c := Pieces(r, IsWs(s[0]), s[1..]);
      OnlyValuesChange(r, IsWs(s[0]), s[1..]);
      PrependText(s[0], c, r.size);
      PrependGood(r, false, s[0], c);
      Cons(s);
    }
  }

  // ---- the scans and the rewriting itself

  function FindAt(s: string, i: nat): (k: int)
    requires i <= |s|
    ensures -1 <= k && (k >= 0 ==> i + k + 5 <= |s|)
  {
    Find(s[i..])
  }

  function EndAt(s: string, i: nat, depth: int): (n: nat)
    requires i <= |s|
    ensures i + n <= |s|
  {
    TokenEnd(s[i..], depth)
  }

  lemma FindStep(s: string, i: nat)
    requires i <= |s|
    ensures FindAt(s, i) ==
            if i == |s| || s[i] == '\n' then -1
            else if i + 5 <= |s| && s[i..i + 5] == SIZE then 0
            else if FindAt(s, i + 1) < 0 then -1 else FindAt(s, i + 1) + 1
  {
    if i < |s| { assert s[i..][1..] == s[i + 1..]; }
    if i + 5 <= |s| { assert s[i..][..5] == s[i..i + 5]; }
  }

  lemma EndStep(s: string, i: nat, depth: int)
    requires i <= |s|
    ensures EndAt(s, i, depth) ==
            if i == |s| then 0
            else if s[i] == '{' then 1 + EndAt(s, i + 1, depth + 1)
            else if s[i] == '}' then 1 + EndAt(s, i + 1, depth - 1)
            else if depth == 0 && (s[i] == ',' || s[i] == ']' || s[i] == ' ' || s[i] == '\n') then 0
            else 1 + EndAt(s, i + 1, depth)
  {
    if i < |s| { assert s[i..][1..] == s[i + 1..]; }
  }

  lemma Window(buf: array<char>, size: nat, i: nat, j: nat)
    requires i <= j <= size <= buf.Length
    ensures buf[..size][i..j] == buf[i..j]
  {}

  method FindSize(buf: array<char>, from: nat, size: nat) returns (j: nat)
    requires from <= size <= buf.Length
    ensures from <= j <= size
    ensures var k := FindAt(buf[..size], from);
            if k < 0 then j == size || buf[j] == '\n' else j == from + k && j < size && buf[j] != '\n'
  {
    hide *;
    ghost var s := buf[..size];
    j := from;
    FindStep(s, j);
    while j < size && buf[j] != '\n' && !(j + 5 <= size && buf[j..j + 5] == SIZE)
      invariant from <= j <= size
      invariant FindAt(s, from) == if FindAt(s, j) < 0 then -1 else j - from + FindAt(s, j)
    {
      FindStep(s, j);
      if j + 5 <= size { Window(buf, size, j, j + 5); }
      j := j + 1;
    }
    FindStep(s, j);
    if j + 5 <= size { Window(buf, size, j, j + 5); }
  }

  method FindValueEnd(buf: array<char>, vs: nat, size: nat) returns (ve: nat)
    requires vs <= size <= buf.Length
    ensures ve == vs + EndAt(buf[..size], vs, 0)
  {
    hide *;
    ghost var s := buf[..size];
    ve := vs;
    var depth := 0;
    while ve < size
      invariant vs <= ve <= size && EndAt(s, vs, 0) == ve - vs + EndAt(s, ve, depth)
    {
      var c := buf[ve];
      EndStep(s, ve, depth);
      if c == '{' { depth := depth + 1; }
      else if c == '}' { depth := depth - 1; }
      else if depth == 0 && (c == ',' || c == ']' || c == ' ' || c == '\n') { return; }
      ve := ve + 1;
    }
    EndStep(s, ve, depth);
  }

  predicate OpenAt(s: string, i: nat)
    requires i <= |s|
  {
    i == 0 || IsWs(s[i - 1])
  }

  // What the scan at i ends up with when the buffer holds s.
  ghost function Outcome(r: Rule, s: string, i: nat): string {
    if i <= |s| then s[..i] + Apply(r, OpenAt(s, i), s[i..]) else s
  }

  lemma CopyRound(r: Rule, s: string, i: nat)
    requires i < |s| && !HitAt(r, s, i)
    ensures Outcome(r, s, i + 1) == Outcome(r, s, i)
  {
    ApplyStep(r, OpenAt(s, i), s[i..]);
    OutcomeAt(r, s, i + 1);
    assert Outcome(r, s, i) == s[..i] + Apply(r, OpenAt(s, i), s[i..]);
    hide *;
    OneMore(s, i, Apply(r, IsWs(s[i]), s[i + 1..]));
  }

  lemma OneMore(s: string, i: nat, y: string)
    requires i < |s|
    ensures s[i..][1..] == s[i + 1..] && s[i..][0] == s[i] && s[..i] + ([s[i]] + y) == s[..i + 1] + y
  {}

  // The buffer after one replacement.
  function Replaced(s: string, vs: nat, ve: nat, v: string): string
    requires vs <= ve <= |s|
  {
    s[..vs] + v + s[ve..]
  }

  lemma ReplacedParts(s: string, vs: nat, ve: nat, v: string)
    requires vs <= ve <= |s|
    ensures var t, m := Replaced(s, vs, ve, v), vs + |v|;
            && |t| == |s| - (ve - vs) + |v| && t[..m] == s[..vs] + v && t[m..] == s[ve..]
            && (ve < |s| ==> t[m] == s[ve] && t[..m + 1] == s[..vs] + v + [s[ve]] && t[m + 1..] == s[ve + 1..])
            && (ve == |s| ==> t == s[..vs] + v)
  {}

  // The scan at i replaces the value from VsAt up to VeAt.
  predicate HitAt(r: Rule, s: string, i: nat) { i < |s| && Replaces(r, OpenAt(s, i), s[i..]) }

  function VsAt(r: Rule, s: string, i: nat): (v: nat)
    requires HitAt(r, s, i)
    ensures i <= v <= |s|
  {
    i + ValueStart(r, s[i..])
  }

  function VeAt(r: Rule, s: string, i: nat): (v: nat)
    requires HitAt(r, s, i)
    ensures VsAt(r, s, i) <= v <= |s|
  {
    i + ValueEnd(r, s[i..])
  }

  lemma HitOutcome(r: Rule, s: string, i: nat)
    requires HitAt(r, s, i)
    ensures Outcome(r, s, i) == s[..VsAt(r, s, i)] + r.size + Behind(r, s[VeAt(r, s, i)..])
  {
    hide Behind, ValueStart, ValueEnd, Find;
    assert OpenAt(s, i);
    hide Hit, Replaces;
    assert Outcome(r, s, i) == s[..i] + Apply(r, OpenAt(s, i), s[i..]);
    hide Apply;
    HitText(r, s, i, s[i..]);
  }

  lemma HitText(r: Rule, s: string, i: nat, t: string)
    requires i <= |s| && t == s[i..] && Replaces(r, true, t)
    ensures s[..i] + Apply(r, true, t)
            == s[..i + ValueStart(r, t)] + r.size + Behind(r, s[i + ValueEnd(r, t)..])
  {
    hide *;
    var a, b := ValueStart(r, t), ValueEnd(r, t);
    ApplyHit(r, t);
    SuffixOf(s, i, b);
    KeptParts(s, i, i + a, r.size, Behind(r, t[b..]));
  }

  lemma SuffixOf(s: string, i: nat, b: nat)
    requires i + b <= |s|
    ensures s[i..][b..] == s[i + b..]
  {}

  lemma ReplacedOutcome(r: Rule, s: string, vs: nat, ve: nat)
    requires vs <= ve <= |s|
    ensures Outcome(r, Replaced(s, vs, ve, r.size), vs + |r.size| + 1) == s[..vs] + r.size + Behind(r, s[ve..])
  {
    if ve == |s| { assert Behind(r, s[ve..]) == []; }
    hide *;
    var t, m := Replaced(s, vs, ve, r.size), vs + |r.size|;
    OutcomeAt(r, t, m + 1);
    ReplacedParts(s, vs, ve, r.size);
    if ve < |s| {
      BehindCons(r, s, ve);
      Assoc(s[..vs] + r.size, [s[ve]], Apply(r, IsWs(s[ve]), s[ve + 1..]));
    }
  }

  lemma HitRound(r: Rule, s: string, i: nat)
    requires HitAt(r, s, i)
    ensures var vs, ve := VsAt(r, s, i), VeAt(r, s, i);
            Outcome(r, Replaced(s, vs, ve, r.size), vs + |r.size| + 1) == Outcome(r, s, i)
  {
    hide *;
    HitOutcome(r, s, i);
    ReplacedOutcome(r, s, VsAt(r, s, i), VeAt(r, s, i));
  }

  lemma BehindCons(r: Rule, s: string, ve: nat)
    requires ve < |s|
    ensures Behind(r, s[ve..]) == [s[ve]] + Apply(r, IsWs(s[ve]), s[ve + 1..])
  {
    assert s[ve..][1..] == s[ve + 1..];
  }

  lemma OutcomeAt(r: Rule, t: string, i: nat)
    requires i > 0
    ensures Outcome(r, t, i) == if i <= |t| then t[..i] + Apply(r, IsWs(t[i - 1]), t[i..]) else t
  {}

  lemma KeptParts(s: string, i: nat, vs: nat, v: string, y: string)
    requires i <= vs <= |s|
    ensures s[..i] + (s[i..][..vs - i] + v + y) == s[..vs] + v + y
  {
    assert s[..i] + s[i..][..vs - i] == s[..vs];
  }

  lemma {:induction false} ShortIsKept(r: Rule, open: bool, s: string)
    requires |s| <= |r.name|
    ensures Apply(r, open, s) == s
    decreases |s|
  {
    if s != [] {
      ShortIsKept(r, IsWs(s[0]), s[1..]);
      Cons(s);
    }
  }

  // The replacement: a new buffer of exactly the new size and one character more.
  method Replace(buf: array<char>, size: nat, vs: nat, ve: nat, v: string) returns (nb: array<char>)
    requires vs <= ve <= size <= buf.Length
    ensures fresh(nb) && nb.Length == size - (ve - vs) + |v| + 1
    ensures nb[..nb.Length - 1] == Replaced(buf[..size], vs, ve, v)
  {
    nb := new char[size - (ve - vs) + |v| + 1](_ => '\0');
    var all := buf[..vs] + v + buf[ve..size];
    forall k | 0 <= k < |all| { nb[k] := all[k]; }
    assert nb[..nb.Length - 1] == all;
    assert buf[..size][..vs] == buf[..vs] && buf[..size][ve..] == buf[ve..size];
  }

  // The comparison at i with the name.
  predicate NameHere(r: Rule, s: string, i: nat)
    requires i + |r.name| < |s|
  {
    s[i..i + |r.name|] == r.name && (i == 0 || IsWs(s[i - 1])) && IsWs(s[i + |r.name|])
  }

  lemma LookMeans(r: Rule, s: string, i: nat)
    requires i + |r.name| < |s|
    ensures HitAt(r, s, i) <==> NameHere(r, s, i) && FindAt(s, i + |r.name|) >= 0
  {
    NameHereIsHit(r, s, i);
    SuffixOf(s, i, |r.name|);
  }

  lemma LookFinds(r: Rule, s: string, i: nat)
    requires i + |r.name| < |s| && HitAt(r, s, i)
    ensures VsAt(r, s, i) == i + |r.name| + FindAt(s, i + |r.name|) + 5
    ensures VeAt(r, s, i) == VsAt(r, s, i) + EndAt(s, VsAt(r, s, i), 0)
  {
    assert OpenAt(s, i);
    hide Find, TokenEnd, Hit, Replaces;
    StartIs(r, s, i);
    EndIs(r, s, i);
  }

  lemma StartIs(r: Rule, s: string, i: nat)
    requires i + |r.name| < |s| && Replaces(r, true, s[i..])
    ensures i + ValueStart(r, s[i..]) == i + |r.name| + FindAt(s, i + |r.name|) + 5
  {
    hide Find, Hit;
    SuffixOf(s, i, |r.name|);
  }

  lemma EndIs(r: Rule, s: string, i: nat)
    requires i <= |s| && Replaces(r, true, s[i..])
    ensures var vs := i + ValueStart(r, s[i..]); vs <= |s| && i + ValueEnd(r, s[i..]) == vs + EndAt(s, vs, 0)
  {
    hide Find, Hit, TokenEnd, Replaces;
    SuffixOf(s, i, ValueStart(r, s[i..]));
    hide ValueStart;
  }

  lemma NameHereIsHit(r: Rule, s: string, i: nat)
    requires i + |r.name| < |s|
    ensures Hit(r, OpenAt(s, i), s[i..]) <==> NameHere(r, s, i)
  {
    assert s[i..][..|r.name|] == s[i..i + |r.name|];
  }

  method IsNameHere(r: Rule, buf: array<char>, size: nat, i: nat) returns (here: bool)
    requires i + |r.name| < size <= buf.Length
    ensures here == NameHere(r, buf[..size], i)
  {
    assert buf[..size][i..i + |r.name|] == buf[i..i + |r.name|];
    here := buf[i..i + |r.name|] == r.name && (i == 0 || IsWs(buf[i - 1])) && IsWs(buf[i + |r.name|]);
  }

  // Whether the scan at i replaces a value, and where it lies.
  method Look(r: Rule, buf: array<char>, size: nat, i: nat) returns (hit: bool, vs: nat, ve: nat)
    requires i + |r.name| < size < buf.Length
    ensures hit <==> HitAt(r, buf[..size], i)
    ensures hit ==> vs == VsAt(r, buf[..size], i) && ve == VeAt(r, buf[..size], i)
  {
    hide *;
    var nl := |r.name|;
    LookMeans(r, buf[..size], i);
    var here := IsNameHere(r, buf, size, i);
    if !here { return false, 0, 0; }
    var j := FindSize(buf, i + nl, size);
    if j == size || buf[j] == '\n' { return false, 0, 0; }
    hit, vs := true, j + 5;
    LookFinds(r, buf[..size], i);
    ve := FindValueEnd(buf, vs, size);
  }

  // One round at i: a copied character or a replaced value.
  method Round(r: Rule, buf: array<char>, size: nat, i: nat) returns (nb: array<char>, newSize: nat, next: nat)
    requires i + |r.name| < size < buf.Length
    ensures (nb == buf || fresh(nb)) && newSize < nb.Length && next <= newSize + 1
    ensures newSize - next < size - i
    ensures Outcome(r, nb[..newSize], next) == Outcome(r, buf[..size], i)
  {
    hide *;
    var hit, vs, ve := Look(r, buf, size, i);
    if hit {
      HitRound(r, buf[..size], i);
      nb := Replace(buf, size, vs, ve, r.size);
      newSize := size - (ve - vs) + |r.size|;
      next := vs + |r.size| + 1;
    } else {
      CopyRound(r, buf[..size], i);
      nb, newSize, next := buf, size, i + 1;
    }
  }

  method ApplyRule(r: Rule, buf: array<char>, size: nat) returns (nb: array<char>, newSize: nat)
    requires size < buf.Length
    ensures (nb == buf || fresh(nb)) && newSize < nb.Length && nb[..newSize] == Apply(r, true, buf[..size])
  {
    hide *;
    nb, newSize := buf, size;
    var i := 0;
    OutcomeStart(r, buf[..size]);
    while i + |r.name| < newSize
      invariant (nb == buf || fresh(nb)) && newSize < nb.Length && 0 <= i <= newSize + 1
      invariant Outcome(r, nb[..newSize], i) == Apply(r, true, buf[..size])
      decreases newSize - i
    {
      nb, newSize, i := Round(r, nb, newSize, i);
    }
    OutcomeEnd(r, nb[..newSize], i);
  }

  lemma OutcomeStart(r: Rule, s: string)
    ensures Outcome(r, s, 0) == Apply(r, true, s)
  {
    assert s[..0] == [] && s[0..] == s;
  }

  lemma OutcomeEnd(r: Rule, s: string, i: nat)
    requires i + |r.name| >= |s|
    ensures Outcome(r, s, i) == s
  {
    if i <= |s| { ShortIsKept(r, OpenAt(s, i), s[i..]); }
  }

  // ---- the rule table

  const RULES: seq<Rule> := [
    Rule("AUDIODATA_GEN", "60M"), Rule("GAMEPLAY_GEN", "22M"), Rule("GAMEWORLD_GEN", "8M"),
    Rule("GLOBAL_GEN", "32M"), Rule("RENDER_GEN", "48M"), Rule("STL_GEN", "5M"), Rule("FE_GEN", "7M"),
    Rule("FE_SFGFX_GEN_A", "24M"), Rule("FE_SFGFX_GEN_B", "2M"), Rule("FE_SFGFX_AS_SBA", "2M"),
    Rule("FE_SFGFX_ASCRIPT", "6M"), Rule("FE_SFGFX_REN_SBA", "4M"), Rule("FE_SFGFX_RENDER", "6M"),
    Rule("FE_UX_GEN", "2M"), Rule("GLOBAL_ASSETTMP", "7M"), Rule("GAMEWORLD_SLOTALLOC", "25M"),
    Rule("ASSETSTREAM_READBUF", "4M"), Rule("AUDIO_RWAC", "8M")]

  function ApplyAll(rules: seq<Rule>, s: string): string {
    if rules == [] then s else ApplyAll(rules[1..], Apply(rules[0], true, s))
  }

  lemma ApplyAllStep(rules: seq<Rule>, k: nat, s: string)
    requires k <= |rules|
    ensures ApplyAll(rules[k..], s) ==
            if k == |rules| then s else ApplyAll(rules[k + 1..], Apply(rules[k], true, s))
  {}

  // The whole rewriting; the buffer has room for the terminating zero.
  method Rewrite(rules: seq<Rule>, buf: array<char>, size: nat) returns (nb: array<char>, newSize: nat)
    requires size < buf.Length
    modifies buf
    ensures newSize < nb.Length && nb[..newSize] == ApplyAll(rules, old(buf[..size])) && nb[newSize] == '\0'
  {
    hide *;
    nb, newSize := buf, size;
    var k := 0;
    while k < |rules|
      invariant 0 <= k <= |rules| && (nb == buf || fresh(nb)) && newSize < nb.Length
      invariant buf[..] == old(buf[..])
      invariant ApplyAll(rules[k..], nb[..newSize]) == ApplyAll(rules, old(buf[..size]))
    {
      ApplyAllStep(rules, k, nb[..newSize]);
      nb, newSize := ApplyRule(rules[k], nb, newSize);
      k := k + 1;
    }
    ApplyAllStep(rules, k, nb[..newSize]);
    nb[newSize] := '\0';
  }

  lemma ProperLetters(r: Rule)
    requires r.name != [] && (forall c :: c in r.name ==> c == '_' || 'A' <= c <= 'Z')
    requires forall c :: c in r.size ==> '0' <= c <= '9' || c == 'M'
    ensures Proper(r)
  {
    forall k | 0 <= k < |r.name| ensures r.name[k] != '=' && r.name[k] != '\n' && !IsWs(r.name[k]) { assert r.name[k] in r.name; }
    forall k | 0 <= k < |r.size| ensures Plain(r.size[k]) { assert r.size[k] in r.size; }
  }

  lemma ProperFrom0()
    ensures Proper(Rule("AUDIODATA_GEN", "60M")) && Proper(Rule("GAMEPLAY_GEN", "22M"))
  {
    hide Proper;
    ProperLetters(Rule("AUDIODATA_GEN", "60M"));
    ProperLetters(Rule("GAMEPLAY_GEN", "22M"));
  }

  lemma ProperFrom2()
    ensures Proper(Rule("GAMEWORLD_GEN", "8M")) && Proper(Rule("GLOBAL_GEN", "32M"))
  {
    hide Proper;
    ProperLetters(Rule("GAMEWORLD_GEN", "8M"));
    ProperLetters(Rule("GLOBAL_GEN", "32M"));
  }

  lemma ProperFrom4()
    ensures Proper(Rule("RENDER_GEN", "48M")) && Proper(Rule("STL_GEN", "5M"))
  {
    hide Proper;
    ProperLetters(Rule("RENDER_GEN", "48M"));
    ProperLetters(Rule("STL_GEN", "5M"));
  }

  lemma ProperFrom6()
    ensures Proper(Rule("FE_GEN", "7M")) && Proper(Rule("FE_SFGFX_GEN_A", "24M"))
  {
    hide Proper;
    ProperLetters(Rule("FE_GEN", "7M"));
    ProperLetters(Rule("FE_SFGFX_GEN_A", "24M"));
  }

  lemma ProperFrom8()
    ensures Proper(Rule("FE_SFGFX_GEN_B", "2M")) && Proper(Rule("FE_SFGFX_AS_SBA", "2M"))
  {
    hide Proper;
    ProperLetters(Rule("FE_SFGFX_GEN_B", "2M"));
    ProperLetters(Rule("FE_SFGFX_AS_SBA", "2M"));
  }

  lemma ProperFrom10()
    ensures Proper(Rule("FE_SFGFX_ASCRIPT", "6M")) && Proper(Rule("FE_SFGFX_REN_SBA", "4M"))
  {
    hide Proper;
    ProperLetters(Rule("FE_SFGFX_ASCRIPT", "6M"));
    ProperLetters(Rule("FE_SFGFX_REN_SBA", "4M"));
  }

  lemma ProperFrom12()
    ensures Proper(Rule("FE_SFGFX_RENDER", "6M")) && Proper(Rule("FE_UX_GEN", "2M"))
  {
    hide Proper;
    ProperLetters(Rule("FE_SFGFX_RENDER", "6M"));
    ProperLetters(Rule("FE_UX_GEN", "2M"));
  }

  lemma ProperFrom14()
    ensures Proper(Rule("GLOBAL_ASSETTMP", "7M")) && Proper(Rule("GAMEWORLD_SLOTALLOC", "25M"))
  {
    hide Proper;
    ProperLetters(Rule("GLOBAL_ASSETTMP", "7M"));
    ProperLetters(Rule("GAMEWORLD_SLOTALLOC", "25M"));
  }

  lemma ProperFrom16()
    ensures Proper(Rule("ASSETSTREAM_READBUF", "4M")) && Proper(Rule("AUDIO_RWAC", "8M"))
  {
    hide Proper;
    ProperLetters(Rule("ASSETSTREAM_READBUF", "4M"));
    ProperLetters(Rule("AUDIO_RWAC", "8M"));
  }

  // The names and the values of the table keep their promise.
  lemma TableIsProper(k: nat)
    requires k < |RULES|
    ensures Proper(RULES[k])
  {
    hide Proper;
    ProperFrom0();
    ProperFrom2();
    ProperFrom4();
    ProperFrom6();
    ProperFrom8();
    ProperFrom10();
    ProperFrom12();
    ProperFrom14();
    ProperFrom16();
  }

  // Every rule of the table can be applied twice for once, and sets all it names.
  lemma TableAppliesTwice(k: nat, s: string)
    requires k < |RULES|
    ensures var r := RULES[k]; Apply(r, true, Apply(r, true, s)) == Apply(r, true, s) && Done(r, true, Apply(r, true, s))
  {
    TableIsProper(k);
    hide *;
    ApplyTwice(RULES[k], true, s);
    ApplyIsDone(RULES[k], true, s);
  }
}
