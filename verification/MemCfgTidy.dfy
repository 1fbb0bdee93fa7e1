// rewrite_memcfg of loader/jni_patch.c on texts whose values have no blanks inside: which rule
// sets which size, and exactly when all rules succeed.

module MemCfgTidy {
  import opened Common
  import opened MemCfg
  import opened MemCfgRules

  // No value of a size that a rule names has a blank inside its braces.
  ghost predicate TidyAt(r: Rule, open: bool, s: string, m: nat) {
    m + 5 <= |s| && Named(r, open, s[..m + 5]) ==> Unblank(Token(s, m + 5))
  }

  ghost predicate TidyFor(r: Rule, open: bool, s: string) { forall m: nat :: TidyAt(r, open, s, m) }

  ghost predicate Tidy(rules: seq<Rule>, s: string) { forall k :: 0 <= k < |rules| ==> TidyFor(rules[k], true, s) }

  ghost predicate TidyCut(c: Cut) { c.Piece? ==> Unblank(c.token) && TidyCut(c.rest) }

  // ---- the sizes of a piece: those of its stretch, and those behind its value

  lemma NamedOnlyBehind(r: Rule, open: bool, x: string, v: string, y: string)
    requires Proper(r) && EndsInSize(x) && Unblank(v) && v + y != []
    ensures Named(r, open, (x + v) + y) <==> Named(r, false, y)
  {
    hide *;
    if Named(r, open, (x + v) + y) { NamedBehind(r, open, x, v, y); }
    if Named(r, false, y) { NamedLater(r, open, x + v, y); }
  }

  lemma PieceText(x: string, v: string, z: string, m: nat)
    requires m + 5 <= |z|
    ensures var n := |x| + |v| + m;
            && n + 5 <= |x + (v + z)| && (x + (v + z))[..n + 5] == (x + v) + z[..m + 5]
            && Token(x + (v + z), n + 5) == Token(z, m + 5)
  {
    var n := |x| + |v| + m;
    assert (x + (v + z))[n + 5..] == z[m + 5..];
    hide TokenEnd;
  }

  // Behind the value the same rules name a size as in the rest alone.
  lemma SizesBehind(r: Rule, open: bool, x: string, v: string, z: string, m: nat)
    requires Proper(r) && EndsInSize(x) && Unblank(v) && m + 5 <= |z|
    ensures var n := |x| + |v| + m;
            && n + 5 <= |x + (v + z)|
            && (Named(r, open, (x + (v + z))[..n + 5]) <==> Named(r, false, z[..m + 5]))
            && Token(x + (v + z), n + 5) == Token(z, m + 5)
  {
    hide *;
    PieceText(x, v, z, m);
    var y := z[..m + 5];
    assert |y| == m + 5;
    NamedOnlyBehind(r, open, x, v, y);
  }

  // And there are no others.
  lemma NoSizeInside(r: Rule, open: bool, x: string, v: string, z: string, n: nat)
    requires Proper(r) && EndsInSize(x) && Unblank(v) && n + 5 <= |x + (v + z)|
    requires n + 5 > |x| && Named(r, open, (x + (v + z))[..n + 5])
    ensures n >= |x| + |v|
  {
    hide *;
    var p := (x + (v + z))[..n + 5];
    TakeOfThree(x, v, z, n + 5);
    if n + 5 <= |x| + |v| {
      UnblankPart(v, n + 5 - |x|);
      assert |v[..n + 5 - |x|]| > 0;
      NamedBehind(r, open, x, v[..n + 5 - |x|], []);
    } else {
      var y := z[..n + 5 - |x| - |v|];
      assert |y| > 0;
      NamedBehind(r, open, x, v, y);
      NamedLong(r, false, y);
    }
  }

  lemma UnblankPart(v: string, n: nat)
    requires Unblank(v) && n <= |v|
    ensures Unblank(v[..n])
  {}

  // A value without blanks ends before the next named size does.
  lemma EndsBefore(q: Rule, open: bool, x: string, n: nat, u: string)
    requires Proper(q) && Named(q, open, x) && 5 <= n < |x| && AtSize(x[n - 5..]) && Unblank(Token(x + u, n))
    ensures TokenEnd((x + u)[n..], 0) < |x| - n
  {
    var i: nat :| NameAt(q, open, x, i);
    if i <= n - 5 {
      hide *;
      NoNameBefore(q, open, x, i, n - 5);
    } else {
      assert IsWs(x[i - 1]) && i - 1 < |x|;
      hide *;
      NoBlankInSize(x, n, i - 1);
      BlankInToken(x, n, u, i - 1);
    }
  }

  lemma NoBlankInSize(x: string, n: nat, j: nat)
    requires 5 <= n <= |x| && AtSize(x[n - 5..]) && n - 5 <= j < |x| && IsWs(x[j])
    ensures j >= n
  {
    var t := x[n - 5..];
    SizeChars(t);
    assert forall i :: n - 5 <= i < n ==> x[i] == t[i - (n - 5)];
  }

  lemma BlankInToken(x: string, n: nat, u: string, j: nat)
    requires n <= j < |x| && IsWs(x[j]) && Unblank(Token(x + u, n))
    ensures TokenEnd((x + u)[n..], 0) < |x| - n
  {
    var t := (x + u)[n..];
    assert t[j - n] == x[j];
    hide TokenEnd;
    var token := Token(x + u, n);
    assert forall i :: 0 <= i < |token| ==> token[i] == t[i];
  }

  // So whatever is put behind the stretch, the values inside it stay.
  lemma InsideStays(q: Rule, open: bool, x: string, n: nat, u: string, w: string)
    requires Proper(q) && Named(q, open, x) && 5 <= n < |x| && AtSize(x[n - 5..]) && Unblank(Token(x + u, n))
    ensures Token(x + w, n) == Token(x + u, n)
  {
    hide *;
    EndsBefore(q, open, x, n, u);
    SameInside(x, n, u, w);
  }

  lemma SameInside(x: string, n: nat, u: string, w: string)
    requires n < |x| && TokenEnd((x + u)[n..], 0) < |x| - n
    ensures Token(x + w, n) == Token(x + u, n)
  {
    var y := x[n..];
    assert (x + u)[n..] == y + u && (x + w)[n..] == y + w;
    hide TokenEnd;
    TokenInside(y, u, w, 0);
    var k := TokenEnd(y + u, 0);
    assert (y + u)[..k] == y[..k] == (y + w)[..k];
  }

  lemma NamedSize(r: Rule, open: bool, s: string, n: nat)
    requires n <= |s| && Named(r, open, s[..n])
    ensures 5 <= n && AtSize(s[n - 5..])
  {
    NamedEnds(r, open, s[..n]);
    assert s[..n][n - 5..] + s[n..] == s[n - 5..];
    assert s[..n][n - 5..][..5] == s[n - 5..][..5];
  }

  // ---- a text stays tidy

  lemma TidyRest(r: Rule, open: bool, x: string, v: string, z: string)
    requires Proper(r) && EndsInSize(x) && Unblank(v) && TidyFor(r, open, x + (v + z))
    ensures TidyFor(r, false, z)
  {
    forall m: nat ensures TidyAt(r, false, z, m) {
      if m + 5 <= |z| {
        SizesBehind(r, open, x, v, z, m);
        assert TidyAt(r, open, x + (v + z), |x| + |v| + m);
        hide *;
      }
    }
  }

  lemma {:induction false} TidyIsCut(q: Rule, open: bool, c: Cut)
    requires Proper(q) && Good(q, open, c) && TidyFor(q, open, Original(c))
    ensures TidyCut(c)
    decreases c
  {
    if c.Piece? {
      var x, token, y := c.kept, c.token, Original(c.rest);
      assert Original(c) == x + (token + y) && Named(q, open, x) && Good(q, false, c.rest);
      assert (token + y)[..|token|] == token && TokenEnd(token + y, 0) == |token|;
      NamedEnds(q, open, x);
      hide *;
      PieceValue(x, token, y);
      var m := |x| - 5;
      CutText(x, token, y);
      TidyFirst(q, open, x, token + y);
      TidyRest(q, open, x, token, y);
      TidyIsCut(q, false, c.rest);
      OneMoreTidy(c);
    }
  }

  lemma OneMoreTidy(c: Cut)
    requires c.Piece? && Unblank(c.token) && TidyCut(c.rest)
    ensures TidyCut(c)
  {}

  lemma TidyFirst(q: Rule, open: bool, x: string, w: string)
    requires Named(q, open, x) && TidyFor(q, open, x + w)
    ensures Unblank(Token(x + w, |x|))
  {
    NamedEnds(q, open, x);
    assert TidyAt(q, open, x + w, |x| - 5);
    assert (x + w)[..|x|] == x;
    hide Token, Unblank, Named;
  }

  lemma PieceValue(x: string, token: string, y: string)
    requires TokenEnd(token + y, 0) == |token|
    ensures Token(x + (token + y), |x|) == token
  {
    assert (x + (token + y))[|x|..] == token + y && (token + y)[..|token|] == token;
    hide TokenEnd;
  }

  // Where a size of the new text was before: inside the stretch, at its end, or behind.
  lemma {:induction false} TidyStays(r: Rule, q: Rule, open: bool, c: Cut)
    requires Proper(r) && Proper(q) && Good(q, open, c) && TidyCut(c) && TidyFor(r, open, Original(c))
    ensures TidyFor(r, open, With(c, q.size))
    decreases c
  {
    if c.Piece? {
      var x, token, v, y, z := c.kept, c.token, q.size, Original(c.rest), With(c.rest, q.size);
      assert Original(c) == x + (token + y) && With(c, v) == x + (v + z) && Named(q, open, x) && Good(q, false, c.rest);
      assert Unblank(token) && TidyCut(c.rest) && (y == [] || Delimiter((token + y)[|token|]));
      NamedEnds(q, open, x);
      ProperValue(q);
      hide *;
      TidyRest(r, open, x, token, y);
      TidyStays(r, q, false, c.rest);
      assert y == [] || Delimiter(y[0]);
      RestHead(q, c.rest, v);
      forall m: nat ensures TidyAt(r, open, x + (v + z), m) {
        TidyStaysAt(r, q, open, x, token, y, v, z, m);
      }
      TidyAll(r, open, x + (v + z));
    }
  }

  lemma TidyAll(r: Rule, open: bool, s: string)
    requires forall m: nat :: TidyAt(r, open, s, m)
    ensures TidyFor(r, open, s)
  {}

  lemma ProperValue(q: Rule)
    requires Proper(q)
    ensures Unblank(q.size) && forall k :: 0 <= k < |q.size| ==> Plain(q.size[k])
  {}

  lemma TidyInside(r: Rule, q: Rule, open: bool, x: string, u: string, w: string, m: nat)
    requires Proper(q) && Named(q, open, x) && TidyFor(r, open, x + u)
    requires m + 5 < |x| && Named(r, open, (x + w)[..m + 5])
    ensures Unblank(Token(x + w, m + 5))
  {
    assert (x + w)[..m + 5] == x[..m + 5] == (x + u)[..m + 5];
    assert TidyAt(r, open, x + u, m);
    assert Unblank(Token(x + u, m + 5));
    hide *;
    NamedSize(r, open, x, m + 5);
    InsideStays(q, open, x, m + 5, u, w);
  }

  lemma TidyStaysAt(r: Rule, q: Rule, open: bool, x: string, token: string, y: string, v: string, z: string, m: nat)
    requires Proper(r) && Proper(q) && Named(q, open, x) && TidyFor(r, open, x + (token + y)) && TidyFor(r, false, z)
    requires Unblank(v) && (forall k :: 0 <= k < |v| ==> Plain(v[k])) && (z == [] || Delimiter(z[0]))
    ensures TidyAt(r, open, x + (v + z), m)
  {
    var t := x + (v + z);
    if m + 5 <= |t| && Named(r, open, t[..m + 5]) {
      NamedEnds(q, open, x);
      if m + 5 < |x| {
        hide *;
        TidyInside(r, q, open, x, token + y, v + z, m);
      } else if m + 5 == |x| {
        hide Token;
        TokenBehind(x, v, z);
      } else {
        var k := m - |x| - |v|;
        NoSizeInside(r, open, x, v, z, m);
        SizesBehind(r, open, x, v, z, k);
        assert TidyAt(r, false, z, k);
        hide Named, Token, Unblank;
      }
    }
  }

  // ---- the last rule that names a size

  ghost predicate LastAt(rules: seq<Rule>, open: bool, s: string, k: nat, m: nat) {
    && k < |rules| && m + 5 <= |s| && Named(rules[k], open, s[..m + 5])
    && forall j :: k < j < |rules| ==> !Named(rules[j], open, s[..m + 5])
  }

  // Every size has the value of the last rule that names it.
  ghost predicate LastSet(rules: seq<Rule>, open: bool, s: string) {
    forall k: nat, m: nat :: LastAt(rules, open, s, k, m) ==> Token(s, m + 5) == rules[k].size
  }

  lemma LastNames(rules: seq<Rule>, open: bool, s: string, k: nat, m: nat)
    requires AllProper(rules) && LastAt(rules, open, s, k, m)
    ensures k < |rules| && m + 5 <= |s| && Proper(rules[k]) && Named(rules[k], open, s[..m + 5])
  {
    hide Named;
  }

  lemma LastIsSet(rules: seq<Rule>, open: bool, s: string, k: nat, m: nat)
    requires LastSet(rules, open, s) && LastAt(rules, open, s, k, m)
    ensures k < |rules| && m + 5 <= |s| && Token(s, m + 5) == rules[k].size
  {}

  lemma LastBehind(rules: seq<Rule>, open: bool, x: string, v: string, z: string, k: nat, m: nat)
    requires AllProper(rules) && EndsInSize(x) && Unblank(v) && m + 5 <= |z|
    ensures LastAt(rules, open, x + (v + z), k, |x| + |v| + m) <==> LastAt(rules, false, z, k, m)
  {
    forall j | 0 <= j < |rules|
      ensures Named(rules[j], open, (x + (v + z))[..|x| + |v| + m + 5]) <==> Named(rules[j], false, z[..m + 5])
    {
      SizesBehind(rules[j], open, x, v, z, m);
    }
    hide Named;
  }

  lemma LastRest(rules: seq<Rule>, open: bool, x: string, v: string, z: string)
    requires AllProper(rules) && EndsInSize(x) && Unblank(v) && LastSet(rules, open, x + (v + z))
    ensures LastSet(rules, false, z)
  {
    forall k: nat, m: nat | LastAt(rules, false, z, k, m) ensures Token(z, m + 5) == rules[k].size {
      LastBehind(rules, open, x, v, z, k, m);
      PieceText(x, v, z, m);
      assert LastAt(rules, open, x + (v + z), k, |x| + |v| + m);
    }
  }

  lemma LastInside(rules: seq<Rule>, open: bool, x: string, w: string, u: string, k: nat, m: nat)
    requires m + 5 <= |x|
    ensures LastAt(rules, open, x + w, k, m) <==> LastAt(rules, open, x + u, k, m)
  {
    assert (x + w)[..m + 5] == x[..m + 5] == (x + u)[..m + 5];
    hide Named;
  }

  lemma LastStaysInside(rules: seq<Rule>, q: Rule, open: bool, x: string, w: string, u: string, k: nat, m: nat)
    requires AllProper(rules) && m + 5 <= |x| && Named(q, open, x) && LastSet(rules, open, x + u)
    requires LastAt(rules, open, x + w, k, m) && !Named(q, open, (x + w)[..m + 5])
    ensures Token(x + w, m + 5) == rules[k].size
  {
    LastInside(rules, open, x, w, u, k, m);
    assert x[..|x|] == x == (x + w)[..|x|];
    NamedEnds(q, open, x);
    hide Named, Token, Proper, EndsInSize;
    TokenKept(rules[k], x, m + 5, u, w);
  }

  lemma LastStaysBehind(rules: seq<Rule>, q: Rule, open: bool, x: string, v: string, z: string, k: nat, m: nat)
    requires AllProper(rules) && Proper(q) && EndsInSize(x) && Unblank(v) && m + 5 > |x|
    requires LastAt(rules, open, x + (v + z), k, m) && !Named(q, open, (x + (v + z))[..m + 5])
    ensures var n := m - |x| - |v|;
            && 0 <= n && n + 5 <= |z| && LastAt(rules, false, z, k, n) && !Named(q, false, z[..n + 5])
            && Token(x + (v + z), m + 5) == Token(z, n + 5)
  {
    hide *;
    LastNames(rules, open, x + (v + z), k, m);
    NoSizeInside(rules[k], open, x, v, z, m);
    SizesBehind(q, open, x, v, z, m - |x| - |v|);
    LastBehind(rules, open, x, v, z, k, m - |x| - |v|);
  }

  // A rule that does not name the size leaves it to the last one before that does.
  lemma {:induction false} LastStays(rules: seq<Rule>, q: Rule, open: bool, c: Cut, k: nat, m: nat)
    requires AllProper(rules) && Proper(q) && Good(q, open, c) && TidyCut(c) && LastSet(rules, open, Original(c))
    requires LastAt(rules, open, With(c, q.size), k, m) && !Named(q, open, With(c, q.size)[..m + 5])
    ensures Token(With(c, q.size), m + 5) == rules[k].size
    decreases c
  {
    hide *;
    LastNames(rules, open, With(c, q.size), k, m);
    if c.Piece? {
      var x, token, v, y, z := c.kept, c.token, q.size, Original(c.rest), With(c.rest, q.size);
      PieceShape(q, open, c, v);
      if m + 5 <= |x| {
        LastStaysInside(rules, q, open, x, v + z, token + y, k, m);
      } else {
        LastStaysBehind(rules, q, open, x, v, z, k, m);
        LastRest(rules, open, x, token, y);
        LastStays(rules, q, false, c.rest, k, m - |x| - |v|);
      }
    } else {
      EndShape(c, q.size);
      LastIsSet(rules, open, Original(c), k, m);
    }
  }

  lemma EndShape(c: Cut, v: string)
    requires c.End?
    ensures With(c, v) == Original(c)
  {}

  lemma PieceShape(q: Rule, open: bool, c: Cut, v: string)
    requires c.Piece? && Good(q, open, c) && Proper(q) && TidyCut(c)
    ensures Original(c) == c.kept + (c.token + Original(c.rest)) && With(c, v) == c.kept + (v + With(c.rest, v))
    ensures Named(q, open, c.kept) && EndsInSize(c.kept) && Good(q, false, c.rest)
    ensures Unblank(c.token) && TidyCut(c.rest) && Unblank(q.size)
  {
    NamedEnds(q, open, c.kept);
  }

  lemma LastStep(rules: seq<Rule>, q: Rule, s: string)
    requires AllProper(rules) && Proper(q) && LastSet(rules, true, s) && TidyFor(q, true, s)
    ensures LastSet(rules + [q], true, Apply(q, true, s))
  {
    var c, t, all := Pieces(q, true, s), Apply(q, true, s), rules + [q];
    OnlyValuesChange(q, true, s);
    TidyIsCut(q, true, c);
    ApplyIsDone(q, true, s);
    forall k: nat, m: nat | LastAt(all, true, t, k, m) ensures Token(t, m + 5) == all[k].size {
      LastOfMore(rules, q, t, k, m);
      hide *;
      if k < |rules| { LastStays(rules, q, true, c, k, m); } else { NamedValue(q, true, t, m); }
    }
  }

  lemma LastOfMore(rules: seq<Rule>, q: Rule, t: string, k: nat, m: nat)
    requires LastAt(rules + [q], true, t, k, m)
    ensures m + 5 <= |t| && k <= |rules|
    ensures if k < |rules| then (rules + [q])[k] == rules[k] && LastAt(rules, true, t, k, m) && !Named(q, true, t[..m + 5])
            else (rules + [q])[k] == q && Named(q, true, t[..m + 5])
  {
    hide Named;
    assert (rules + [q])[|rules|] == q;
    assert forall j :: 0 <= j < |rules| ==> (rules + [q])[j] == rules[j];
  }

  // From rule n on, with the sizes of the rules before n set.
  lemma {:induction false} LastSetFrom(rules: seq<Rule>, n: nat, s: string)
    requires AllProper(rules) && Tidy(rules, s) && n <= |rules| && LastSet(rules[..n], true, s)
    ensures LastSet(rules, true, ApplyAll(rules[n..], s))
    decreases |rules| - n
  {
    ApplyAllStep(rules, n, s);
    if n < |rules| {
      var q := rules[n];
      assert Proper(q) && TidyFor(q, true, s) && AllProper(rules[..n]);
      assert rules[..n] + [q] == rules[..n + 1];
      hide *;
      LastStep(rules[..n], q, s);
      TidyAfter(rules, n, s);
      LastSetFrom(rules, n + 1, Apply(q, true, s));
    } else {
      assert rules[..n] == rules;
    }
  }

  lemma TidyAfter(rules: seq<Rule>, n: nat, s: string)
    requires AllProper(rules) && Tidy(rules, s) && n < |rules|
    ensures Tidy(rules, Apply(rules[n], true, s))
  {
    var q := rules[n];
    OnlyValuesChange(q, true, s);
    TidyIsCut(q, true, Pieces(q, true, s));
    forall k | 0 <= k < |rules| ensures TidyFor(rules[k], true, Apply(q, true, s)) {
      TidyStays(rules[k], q, true, Pieces(q, true, s));
    }
  }

  // After the rewriting every size has the value of the last rule that names it.
  lemma LastRuleSets(rules: seq<Rule>, s: string)
    requires AllProper(rules) && Tidy(rules, s)
    ensures LastSet(rules, true, ApplyAll(rules, s))
  {
    assert rules[0..] == rules && rules[..0] == [];
    assert LastSet([], true, s);
    hide *;
    LastSetFrom(rules, 0, s);
  }

  // ---- and so, exactly when all of them succeed

  lemma {:induction false} SharedStays(r: Rule, q: Rule, p: Rule, open: bool, c: Cut)
    requires Proper(r) && Proper(q) && Proper(p) && Good(p, open, c) && TidyCut(c) && Shared(r, q, open, Original(c))
    ensures Shared(r, q, open, With(c, p.size))
    decreases c
  {
    if c.Piece? {
      var x, token, v, y, z := c.kept, c.token, p.size, Original(c.rest), With(c.rest, p.size);
      assert Original(c) == x + (token + y) && With(c, v) == x + (v + z) && Good(p, false, c.rest);
      assert Unblank(token) && TidyCut(c.rest);
      NamedEnds(p, open, x);
      CutText(x, v, z);
      CutText(x, token, y);
      var m: nat :| SharedAt(r, q, open, x + (token + y), m);
      hide *;
      if m + 5 <= |x| {
        SharedWithin(r, q, open, x, token + y, v + z, m);
      } else {
        SharedBehind(r, q, open, x, token, y, m);
        SharedStays(r, q, p, false, c.rest);
        SharedLater(r, q, open, x + v, z);
      }
    }
  }

  lemma {:induction false} SharedAfter(rules: seq<Rule>, n: nat, r: Rule, q: Rule, s: string)
    requires AllProper(rules) && Tidy(rules, s) && n <= |rules| && Proper(r) && Proper(q) && Shared(r, q, true, s)
    ensures Shared(r, q, true, ApplyAll(rules[n..], s))
    decreases |rules| - n
  {
    ApplyAllStep(rules, n, s);
    if n < |rules| {
      var p := rules[n];
      OnlyValuesChange(p, true, s);
      assert Proper(p) && TidyFor(p, true, s);
      hide *;
      TidyIsCut(p, true, Pieces(p, true, s));
      SharedStays(r, q, p, true, Pieces(p, true, s));
      TidyAfter(rules, n, s);
      SharedAfter(rules, n + 1, r, q, Apply(p, true, s));
    }
  }

  // The rewriting sets all sizes of all rules if and only if no size of the text is named by two
  // rules with different values.
  lemma SetsAllExactly(rules: seq<Rule>, s: string)
    requires AllProper(rules) && Tidy(rules, s)
    ensures AllDone(rules, ApplyAll(rules, s)) <==> Agree(rules, s)
  {
    if Agree(rules, s) {
      RewriteSetsAll(rules, s);
    } else {
      var i, j :| 0 <= i < |rules| && 0 <= j < |rules| && rules[i].size != rules[j].size && Shared(rules[i], rules[j], true, s);
      var r, q, t := rules[i], rules[j], ApplyAll(rules, s);
      assert Proper(r) && Proper(q) && rules[0..] == rules;
      assert AllDone(rules, t) ==> Done(r, true, t) && Done(q, true, t);
      hide *;
      SharedAfter(rules, 0, r, q, s);
      SharedSpoils(r, q, t);
    }
  }

  // The same of the table.
  lemma TableSetsExactly(s: string)
    requires Tidy(RULES, s)
    ensures LastSet(RULES, true, ApplyAll(RULES, s))
    ensures AllDone(RULES, ApplyAll(RULES, s)) <==> Agree(RULES, s)
  {
    TableAllProper();
    hide *;
    LastRuleSets(RULES, s);
    SetsAllExactly(RULES, s);
  }

  // ---- when a value has a blank inside

  lemma {:induction false} Unclosed(s: string, depth: int)
    requires depth > 0 && forall k :: 0 <= k < |s| ==> s[k] != '{' && s[k] != '}'
    ensures TokenEnd(s, depth) == |s|
    decreases |s|
  {
    if s != [] { Unclosed(s[1..], depth); }
  }

  function Only(a: string): string { a + " size=" }

  // A line with the names b and c inside an unclosed brace of the value of a.
  function Swallowed(a: string, b: string, c: string): string { (Only(a) + "{") + ([' '] + Front(b, c)) }

  lemma SwallowedValue(a: string, b: string, c: string)
    requires NameLike(a) && NameLike(b) && NameLike(c)
    requires '{' !in b + c && '}' !in b + c
    ensures var s, n := Swallowed(a, b, c), |a|;
            && |s| > n + 6 && s[..n] == a && s[n] == ' ' && s[..n + 6] == Only(a)
            && Find(s[n..]) == 1 && TokenEnd(s[n + 6..], 0) == |s| - n - 6
  {
    var s, n, t := Swallowed(a, b, c), |a|, [' '] + Front(b, c);
    assert s[n + 6..] == "{" + t && ("{" + t)[1..] == t;
    assert s[n..][1..][..5] == " size="[1..] == SIZE;
    NoBraces(b, c);
    Unclosed(t, 1);
  }

  lemma NoBraces(b: string, c: string)
    requires '{' !in b + c && '}' !in b + c
    ensures var t := [' '] + Front(b, c); forall k :: 0 <= k < |t| ==> t[k] != '{' && t[k] != '}'
  {
    var t, f := [' '] + Front(b, c), " size=";
    forall k | 0 <= k < |t| ensures t[k] != '{' && t[k] != '}' {
      if 0 < k <= |b| { assert t[k] == b[k - 1] == (b + c)[k - 1]; }
      else if |b| + 1 < k < |b| + |c| + 2 { assert t[k] == c[k - |b| - 2] == (b + c)[k - 2]; }
      else if k >= |b| + |c| + 2 { assert t[k] == f[k - |b| - |c| - 2]; }
    }
  }

  lemma SwallowedIsReplaced(a: Rule, b: string, c: string)
    requires Proper(a) && NameLike(b) && NameLike(c) && '{' !in b + c && '}' !in b + c
    ensures Apply(a, true, Swallowed(a.name, b, c)) == Only(a.name) + a.size
  {
    var s := Swallowed(a.name, b, c);
    SwallowedValue(a.name, b, c);
    hide Swallowed, Front, Only, TokenEnd, Find;
    ApplyHit(a, s);
    assert s[ValueEnd(a, s)..] == [];
  }

  lemma OnlyChars(a: string)
    requires NameLike(a)
    ensures OneEquals(Only(a)) && forall k :: 0 <= k < |Only(a)| ==> (IsWs(Only(a)[k]) <==> k == |a|)
  {
    var t := " size=";
    var x := Only(a);
    assert x[|x| - 5..] == SIZE;
    forall k | 0 <= k < |x| ensures (x[k] == '=' <==> k == |x| - 1) && (IsWs(x[k]) <==> k == |a|) {
      if k < |a| { assert x[k] == a[k]; } else { assert x[k] == t[k - |a|]; }
    }
  }

  lemma OtherIsNotNamed(r: Rule, a: string)
    requires Proper(r) && NameLike(a) && r.name != a
    ensures !Named(r, true, Only(a))
  {
    if i: nat :| NameAt(r, true, Only(a), i) { OnlyName(r, a, i); }
  }

  lemma OnlyName(r: Rule, a: string, i: nat)
    requires Proper(r) && NameLike(a) && NameAt(r, true, Only(a), i)
    ensures r.name == a
  {
    var x := Only(a);
    OnlyChars(a);
    hide Find;
    assert x[i..][|r.name|] == x[i + |r.name|];
    assert i == 0 && |r.name| == |a| && x[0..] == x && x[..|a|] == a;
  }

  lemma OtherLeaves(r: Rule, a: string, v: string)
    requires Proper(r) && NameLike(a) && r.name != a && PlainText(v)
    ensures Apply(r, true, Only(a) + v) == Only(a) + v && Done(r, true, Only(a) + v)
  {
    OnlyChars(a);
    hide *;
    OtherIsNotNamed(r, a);
    LineApplied(r, Only(a), v);
    ApplyIsDone(r, true, Only(a) + v);
  }

  lemma SwallowedIsShared(a: string, b: Rule, c: Rule)
    requires NameLike(a) && NameLike(b.name) && NameLike(c.name)
    ensures Shared(b, c, true, Swallowed(a, b.name, c.name))
  {
    var f, p := Front(b.name, c.name), Only(a) + "{";
    assert Swallowed(a, b.name, c.name) == p + ([' '] + f) && IsWs(' ');
    hide *;
    FirstIsNamed(b, c.name);
    SecondIsNamed(c, b.name);
    PrependNamed(b, false, ' ', f);
    PrependNamed(c, false, ' ', f);
    NamedLater(b, true, p, [' '] + f);
    NamedLater(c, true, p, [' '] + f);
    WholeIsShared(b, c, p + ([' '] + f));
  }

  lemma WholeIsShared(b: Rule, c: Rule, s: string)
    requires Named(b, true, s) && Named(c, true, s)
    ensures Shared(b, c, true, s)
  {
    hide *;
    NamedLong(b, true, s);
    var m := |s| - 5;
    assert s[..m + 5] == s;
    SharedIs(b, c, true, s, m);
  }

  lemma ThreeRules(rules: seq<Rule>, s: string)
    requires |rules| == 3
    ensures ApplyAll(rules, s) == Apply(rules[2], true, Apply(rules[1], true, Apply(rules[0], true, s)))
  {
    hide *;
    assert rules[0..] == rules;
    ApplyAllStep(rules, 0, s);
    ApplyAllStep(rules, 1, Apply(rules[0], true, s));
    ApplyAllStep(rules, 2, Apply(rules[1], true, Apply(rules[0], true, s)));
    ApplyAllStep(rules, 3, Apply(rules[2], true, Apply(rules[1], true, Apply(rules[0], true, s))));
  }

  // Then the condition is not needed any more: the size that b and c share goes away with the
  // value of a.
  lemma BlanksMatter(a: Rule, b: Rule, c: Rule)
    requires AllProper([a, b, c]) && a.name != b.name && a.name != c.name && b.size != c.size
    requires '{' !in b.name + c.name && '}' !in b.name + c.name
    ensures var rules, s := [a, b, c], Swallowed(a.name, b.name, c.name);
            AllDone(rules, ApplyAll(rules, s)) && !Agree(rules, s)
  {
    var rules, s, t := [a, b, c], Swallowed(a.name, b.name, c.name), Only(a.name) + a.size;
    assert rules[0] == a && rules[1] == b && rules[2] == c;
    assert Proper(a) && Proper(b) && Proper(c);
    assert NameLike(a.name) && NameLike(b.name) && NameLike(c.name) && PlainText(a.size);
    assert Agree(rules, s) ==> !Shared(b, c, true, s);
    assert Done(a, true, t) && Done(b, true, t) && Done(c, true, t) ==> AllDone(rules, t);
    hide *;
    ThreeRules(rules, s);
    SwallowedIsReplaced(a, b.name, c.name);
    ApplyIsDone(a, true, s);
    OtherLeaves(b, a.name, a.size);
    OtherLeaves(c, a.name, a.size);
    SwallowedIsShared(a.name, b, c);
  }
}
