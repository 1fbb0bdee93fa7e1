// glsl_prepass of loader/default_dynlib.c: "lhs *= rhs" is rewritten as "lhs = lhs * rhs".

module MulAssign {
  import opened Common
  import opened TextBuffer

  // A character of an identifier with its .swizzle and [index] chain.
  predicate IsId(c: char) {
    'a' <= c <= 'z' || 'A' <= c <= 'Z' || '0' <= c <= '9' || c == '_' || c == '.' || c == '[' || c == ']'
  }

  const LIMIT: int := 48   // longer left sides are left alone

  // The length of s without its trailing blanks.
  function BlankEnd(s: string): (n: nat)
    ensures n <= |s| && (forall k :: n <= k < |s| ==> IsBlank(s[k])) && (n > 0 ==> !IsBlank(s[n - 1]))
  {
    if s != [] && IsBlank(s[|s| - 1]) then BlankEnd(s[..|s| - 1]) else |s|
  }

  // The length of s without its trailing identifier characters.
  function IdEnd(s: string): (n: nat)
    ensures n <= |s| && (forall k :: n <= k < |s| ==> IsId(s[k])) && (n > 0 ==> !IsId(s[n - 1]))
  {
    if s != [] && IsId(s[|s| - 1]) then IdEnd(s[..|s| - 1]) else |s|
  }

  // The left side that ends the text emitted so far.
  function LeftSide(out: string): (l: string)
    ensures |l| <= |out|
  {
    out[..BlankEnd(out)][IdEnd(out[..BlankEnd(out)])..]
  }

  predicate AtMulAssign(rest: string) { |rest| >= 2 && rest[0] == '*' && rest[1] == '=' }

  predicate Rewritable(l: string) { 0 < |l| < LIMIT }

  // What the pass ends up with when it has emitted out and rest is still to be read.
  function Go(out: string, rest: string): string
    decreases |rest|
  {
    if rest == [] then out
    else if AtMulAssign(rest) && Rewritable(LeftSide(out)) then
      Go(out + ("= " + LeftSide(out) + " *"), rest[2..])
    else Go(out + [rest[0]], rest[1..])
  }

  function Prepass(src: string): string { Go([], src) }

  // ---- the buffer

  function Hits(s: string): nat {
    if s == [] then 0 else (if AtMulAssign(s) then 1 else 0) + Hits(s[1..])
  }

  lemma {:induction false} GoSize(out: string, rest: string)
    ensures |out| <= |Go(out, rest)| <= |out| + |rest| + 64 * Hits(rest)
    decreases |rest|
  {
    if rest != [] {
      if AtMulAssign(rest) && Rewritable(LeftSide(out)) {
        assert rest[1..][1..] == rest[2..];
        GoSize(out + ("= " + LeftSide(out) + " *"), rest[2..]);
      } else {
        GoSize(out + [rest[0]], rest[1..]);
      }
    }
  }

  predicate OperatorAt(s: string, k: int) { 0 <= k < |s| - 1 && s[k] == '*' && s[k + 1] == '=' }

  // The places where "*=" occurs, from i on.
  ghost function Operators(s: string, i: int): set<int> { set k | i <= k < |s| && OperatorAt(s, k) }

  lemma {:induction false} HitsCount(s: string, i: nat)
    requires i <= |s|
    ensures Hits(s[i..]) == |Operators(s, i)|
    decreases |s| - i
  {
    if i == |s| {
      assert Operators(s, i) == {};
    } else {
      HitsCount(s, i + 1);
      assert s[i..][1..] == s[i + 1..];
      assert Operators(s, i) == Operators(s, i + 1) + if OperatorAt(s, i) then {i} else {};
    }
  }

  // ---- statements do not see each other

  // A character that ends a left side, and is no part of "*=".
  predicate Barrier(c: char) { !IsId(c) && !IsBlank(c) && c != '*' && c != '=' }

  lemma GoStep(out: string, rest: string)
    requires rest != []
    ensures Go(out, rest) == if AtMulAssign(rest) && Rewritable(LeftSide(out)) then
                               Go(out + ("= " + LeftSide(out) + " *"), rest[2..])
                             else Go(out + [rest[0]], rest[1..])
  {}

  lemma {:induction false} BlankEndOf(pre: string, x: string)
    requires pre != [] && Barrier(pre[|pre| - 1])
    ensures BlankEnd(pre + x) == |pre| + BlankEnd(x)
  {
    if x == [] {
      assert pre + x == pre;
    } else {
      assert (pre + x)[..|pre + x| - 1] == pre + x[..|x| - 1];
      BlankEndOf(pre, x[..|x| - 1]);
    }
  }

  lemma {:induction false} IdEndOf(pre: string, x: string)
    requires pre != [] && Barrier(pre[|pre| - 1])
    ensures IdEnd(pre + x) == |pre| + IdEnd(x)
  {
    if x == [] {
      assert pre + x == pre;
    } else {
      assert (pre + x)[..|pre + x| - 1] == pre + x[..|x| - 1];
      IdEndOf(pre, x[..|x| - 1]);
    }
  }

  lemma LeftSideDef(out: string)
    ensures LeftSide(out) == out[..BlankEnd(out)][IdEnd(out[..BlankEnd(out)])..]
  {}

  lemma BehindPrefix(pre: string, x: string, n: nat)
    requires n <= |x|
    ensures (pre + x)[..|pre| + n] == pre + x[..n] && (pre + x)[|pre| + n..] == x[n..]
  {}

  lemma LeftSideOf(pre: string, x: string)
    requires pre != [] && Barrier(pre[|pre| - 1])
    ensures LeftSide(pre + x) == LeftSide(x)
  {
    hide *;
    var n := BlankEnd(x);
    LeftSideDef(pre + x);
    LeftSideDef(x);
    BlankEndOf(pre, x);
    BehindPrefix(pre, x, n);
    IdEndOf(pre, x[..n]);
    BehindPrefix(pre, x[..n], IdEnd(x[..n]));
  }

  // What was emitted before a barrier does not matter behind it.
  lemma {:induction false} GoForgets(pre: string, x: string, rest: string)
    requires pre != [] && Barrier(pre[|pre| - 1])
    ensures Go(pre + x, rest) == pre + Go(x, rest)
    decreases |rest|
  {
    if rest == [] {
      GoEmpty(pre + x);
      GoEmpty(x);
    } else {
      LeftSideOf(pre, x);
      GoStep(pre + x, rest);
      GoStep(x, rest);
      var added := "= " + LeftSide(x) + " *";
      Assoc(pre, x, added);
      Assoc(pre, x, [rest[0]]);
      if AtMulAssign(rest) && Rewritable(LeftSide(x)) {
        GoForgets(pre, x + added, rest[2..]);
      } else {
        GoForgets(pre, x + [rest[0]], rest[1..]);
      }
    }
  }

  lemma GoEmpty(out: string)
    ensures Go(out, []) == out
  {}

  lemma RestOfConcat(a: string, c: char, b: string)
    requires a != []
    ensures (a + [c] + b)[0] == a[0] && (a + [c] + b)[1..] == a[1..] + [c] + b
    ensures |a| >= 2 ==> (a + [c] + b)[2..] == a[2..] + [c] + b
    ensures c != '=' ==> (AtMulAssign(a + [c] + b) <==> AtMulAssign(a))
  {}

  lemma {:induction false} GoSplits(out: string, a: string, c: char, b: string)
    requires Barrier(c)
    ensures Go(out, a + [c] + b) == Go(Go(out, a) + [c], b)
    decreases |a|
  {
    if a == [] {
      assert a + [c] + b == [c] + b && ([c] + b)[1..] == b;
      GoEmpty(out);
      GoStep(out, [c] + b);
    } else {
      RestOfConcat(a, c, b);
      GoStep(out, a + [c] + b);
      GoStep(out, a);
      if AtMulAssign(a) && Rewritable(LeftSide(out)) {
        GoSplits(out + ("= " + LeftSide(out) + " *"), a[2..], c, b);
      } else {
        GoSplits(out + [a[0]], a[1..], c, b);
      }
    }
  }

  // The pass works on each statement by itself: at a ';', a brace, a newline or any other
  // barrier the text falls apart into two that are rewritten independently.
  lemma StatementsAreIndependent(a: string, c: char, b: string)
    requires !('a' <= c <= 'z' || 'A' <= c <= 'Z' || '0' <= c <= '9') && c !in {'_', '.', '[', ']', ' ', '\t', '*', '='}
    ensures Prepass(a + [c] + b) == Prepass(a) + [c] + Prepass(b)
  {
    GoSplits([], a, c, b);
    GoForgets(Go([], a) + [c], [], b);
    assert Go([], a) + [c] + [] == Go([], a) + [c];
  }

  // ---- one statement

  ghost predicate Chain(l: string) { l != [] && forall k :: 0 <= k < |l| ==> IsId(l[k]) }

  ghost predicate Blanks(ws: string) { forall k :: 0 <= k < |ws| ==> IsBlank(ws[k]) }

  lemma {:induction false} BlankEndBefore(x: string, ws: string)
    requires (x == [] || !IsBlank(x[|x| - 1])) && Blanks(ws)
    ensures BlankEnd(x + ws) == |x|
  {
    if ws == [] {
      assert x + ws == x;
    } else {
      assert (x + ws)[..|x + ws| - 1] == x + ws[..|ws| - 1];
      BlankEndBefore(x, ws[..|ws| - 1]);
    }
  }

  lemma {:induction false} IdEndBefore(x: string, l: string)
    requires (x == [] || !IsId(x[|x| - 1])) && (forall k :: 0 <= k < |l| ==> IsId(l[k]))
    ensures IdEnd(x + l) == |x|
  {
    if l == [] {
      assert x + l == x;
    } else {
      assert (x + l)[..|x + l| - 1] == x + l[..|l| - 1];
      IdEndBefore(x, l[..|l| - 1]);
    }
  }

  lemma LeftSideIs(pre: string, l: string, ws: string)
    requires (pre == [] || !IsId(pre[|pre| - 1])) && Chain(l) && Blanks(ws)
    ensures LeftSide(pre + l + ws) == l
  {
    assert IsId((pre + l)[|pre + l| - 1]);
    BlankEndBefore(pre + l, ws);
    IdEndBefore(pre, l);
    assert (pre + l + ws)[..|pre + l|] == pre + l;
  }

  lemma HeadOfConcat(a: string, rest: string)
    requires a != [] && (a[|a| - 1] != '*' || rest == [] || rest[0] != '=')
    ensures (a + rest)[0] == a[0] && (a + rest)[1..] == a[1..] + rest
    ensures AtMulAssign(a + rest) <==> AtMulAssign(a)
  {}

  lemma NoHits(a: string)
    requires a != [] && Hits(a) == 0
    ensures !AtMulAssign(a) && Hits(a[1..]) == 0
  {}

  // Text without "*=" is copied.
  lemma {:induction false} GoCopies(out: string, a: string, rest: string)
    requires Hits(a) == 0 && (a == [] || a[|a| - 1] != '*' || rest == [] || rest[0] != '=')
    ensures Go(out, a + rest) == Go(out + a, rest)
    decreases |a|
  {
    if a == [] {
      assert a + rest == rest && out + a == out;
    } else {
      HeadOfConcat(a, rest);
      NoHits(a);
      GoStep(out, a + rest);
      GoCopies(out + [a[0]], a[1..], rest);
      assert (out + [a[0]]) + a[1..] == out + a;
    }
  }

  lemma GoCopiesAll(out: string, a: string)
    requires Hits(a) == 0
    ensures Go(out, a) == out + a
  {
    GoCopies(out, a, []);
    GoEmpty(out + a);
    assert a + [] == a;
  }

  lemma AtHit(r: string)
    ensures AtMulAssign("*=" + r) && ("*=" + r)[2..] == r && ("*=" + r)[1..] == "=" + r && ("*=" + r)[0] == '*'
    ensures Hits(r) == 0 ==> Hits("=" + r) == 0
  {
    assert ("=" + r)[1..] == r;
  }

  lemma LastIsNoStar(pre: string, l: string, ws: string)
    requires Chain(l) && Blanks(ws)
    ensures var a := pre + l + ws; a != [] && a[|a| - 1] != '*'
  {
    var a := pre + l + ws;
    if ws == [] { assert a[|a| - 1] == l[|l| - 1]; } else { assert a[|a| - 1] == ws[|ws| - 1]; }
  }

  lemma GoHit(a: string, l: string, r: string)
    requires LeftSide(a) == l && l != [] && Hits(r) == 0
    ensures Go(a, "*=" + r) == a + (if |l| < LIMIT then "= " + l + " *" else "*=") + r
  {
    AtHit(r);
    GoStep(a, "*=" + r);
    if |l| < LIMIT {
      GoCopiesAll(a + ("= " + l + " *"), r);
    } else {
      GoCopiesAll(a + ['*'], "=" + r);
      hide *;
      StarKept(a, r);
    }
  }

  lemma StarKept(a: string, r: string)
    ensures (a + ['*']) + ("=" + r) == a + "*=" + r
  {}

  // A statement with one "*=": pre is what comes before its left side.
  lemma Rewrites(pre: string, l: string, ws: string, r: string)
    requires (pre == [] || !IsId(pre[|pre| - 1])) && Chain(l) && Blanks(ws)
    requires Hits(pre + l + ws) == 0 && Hits(r) == 0
    ensures Prepass(pre + l + ws + ("*=" + r))
            == pre + l + ws + (if |l| < LIMIT then "= " + l + " *" else "*=") + r
  {
    var a := pre + l + ws;
    LeftSideIs(pre, l, ws);
    AtHit(r);
    LastIsNoStar(pre, l, ws);
    assert l != [];
    PrepassIs(a + ("*=" + r));
    hide *;
    GoCopies([], a, "*=" + r);
    assert [] + a == a;
    GoHit(a, l, r);
  }

  // The same in terms of characters: the left side is a run of letters, digits, underscores,
  // points and brackets, and one of up to 47 characters is repeated.
  lemma StatementInContext(pre: string, l: string, ws: string, r: string)
    requires l != []
    requires forall k :: 0 <= k < |l| ==>
               'a' <= l[k] <= 'z' || 'A' <= l[k] <= 'Z' || '0' <= l[k] <= '9' || l[k] in {'_', '.', '[', ']'}
    requires pre == [] ||
               var c := pre[|pre| - 1];
               !('a' <= c <= 'z' || 'A' <= c <= 'Z' || '0' <= c <= '9' || c in {'_', '.', '[', ']'})
    requires forall k :: 0 <= k < |ws| ==> ws[k] in {' ', '\t'}
    requires NoMulAssign(pre + l + ws) && NoMulAssign(r)
    ensures Prepass(pre + l + ws + ("*=" + r))
            == pre + l + ws + (if |l| < 48 then "= " + l + " *" else "*=") + r
  {
    assert Chain(l) && Blanks(ws);
    HitsAre(pre + l + ws);
    HitsAre(r);
    Rewrites(pre, l, ws, r);
  }

  ghost predicate NoMulAssign(s: string) { forall k :: 0 <= k < |s| - 1 ==> !(s[k] == '*' && s[k + 1] == '=') }

  lemma {:induction false} HitsAre(s: string)
    ensures Hits(s) == 0 <==> NoMulAssign(s)
  {
    if s != [] {
      HitsAre(s[1..]);
      if NoMulAssign(s[1..]) && !AtMulAssign(s) {
        forall k | 0 <= k < |s| - 1 ensures !(s[k] == '*' && s[k + 1] == '=') {
          if k > 0 { assert s[1..][k - 1] == s[k] && s[1..][k] == s[k + 1]; }
        }
      }
      if NoMulAssign(s) {
        forall k | 0 <= k < |s[1..]| - 1 ensures !(s[1..][k] == '*' && s[1..][k + 1] == '=') { assert s[1..][k] == s[k + 1]; }
      }
    }
  }

  lemma PrepassIs(src: string)
    ensures Prepass(src) == Go([], src)
  {}

  // ---- the pass itself

  // The two scans back over the text emitted so far.
  method FindLeftSide(out: array<char>, o: nat) returns (s: nat, e: nat)
    requires o <= out.Length
    ensures s <= e <= o && out[s..e] == LeftSide(out[..o])
  {
    e := o;
    while e > 0 && IsBlank(out[e - 1])
      invariant 0 <= e <= o && BlankEnd(out[..o]) == BlankEnd(out[..e])
    {
      assert out[..e][..e - 1] == out[..e - 1];
      e := e - 1;
    }
    assert BlankEnd(out[..o]) == e && out[..o][..e] == out[..e];
    s := e;
    while s > 0 && IsId(out[s - 1])
      invariant 0 <= s <= e && IdEnd(out[..e]) == IdEnd(out[..s])
    {
      assert out[..s][..s - 1] == out[..s - 1];
      s := s - 1;
    }
    assert IdEnd(out[..e]) == s && out[..e][s..] == out[s..e];
  }

  method CountHits(src: string) returns (extra: nat)
    ensures extra == 64 * Hits(src)
  {
    extra := 0;
    var i := 0;
    while i < |src|
      invariant 0 <= i <= |src| && extra + 64 * Hits(src[i..]) == 64 * Hits(src)
    {
      assert src[i..][1..] == src[i + 1..];
      assert AtMulAssign(src[i..]) <==> i + 1 < |src| && src[i] == '*' && src[i + 1] == '=';
      if i + 1 < |src| && src[i] == '*' && src[i + 1] == '=' { extra := extra + 64; }
      i := i + 1;
    }
  }

  lemma RestAt(src: string, i: nat)
    requires i < |src|
    ensures src[i..] != [] && src[i..][0] == src[i] && src[i..][1..] == src[i + 1..]
    ensures AtMulAssign(src[i..]) <==> i + 1 < |src| && src[i] == '*' && src[i + 1] == '='
    ensures i + 2 <= |src| ==> src[i..][2..] == src[i + 2..]
  {}

  // One round of the loop.
  method EmitOne(buf: array<char>, o: nat, src: string, i: nat) returns (o': nat, i': nat)
    requires i < |src| && o <= buf.Length && |Go(buf[..o], src[i..])| <= buf.Length
    modifies buf
    ensures i < i' <= |src| && o' <= buf.Length && Go(buf[..o'], src[i'..]) == old(Go(buf[..o], src[i..]))
  {
    ghost var out := buf[..o];
    RestAt(src, i);
    GoStep(out, src[i..]);
    hide *;
    if i + 1 < |src| && src[i] == '*' && src[i + 1] == '=' {
      var s, e := FindLeftSide(buf, o);
      RewritableMeans(buf[s..e]);
      if 0 < e - s < LIMIT {
        var added := "= " + buf[s..e] + " *";
        GoSize(out + added, src[i + 2..]);
        Append(buf, o, added);
        return o + |added|, i + 2;
      }
    }
    GoSize(out + [src[i]], src[i + 1..]);
    Append(buf, o, [src[i]]);
    return o + 1, i + 1;
  }

  lemma RewritableMeans(l: string)
    ensures Rewritable(l) <==> 0 < |l| < LIMIT
  {}

  // The buffer of len + 64 * hits + 1 characters is never left.
  method Run(src: string, heapFull: bool) returns (out: array?<char>)
    ensures out == null <==> heapFull
    ensures out != null ==> out.Length == |src| + 64 * |Operators(src, 0)| + 1
    ensures out != null ==> |Prepass(src)| < out.Length && out[..|Prepass(src)|] == Prepass(src) && out[|Prepass(src)|] == '\0'
  {
    hide *;
    HitsCount(src, 0);
    assert src[0..] == src;
    var extra := CountHits(src);
    if heapFull { return null; }
    var buf := new char[|src| + extra + 1](_ => ' ');
    PrepassIs(src);
    GoSize([], src);
    var o, i := 0, 0;
    assert buf[..0] == [] && src[0..] == src;
    while i < |src|
      invariant 0 <= i <= |src| && 0 <= o <= buf.Length && Go(buf[..o], src[i..]) == Prepass(src)
    {
      o, i := EmitOne(buf, o, src, i);
    }
    assert src[i..] == [];
    GoEmpty(buf[..o]);
    buf[o] := '\0';
    out := buf;
  }

  // Behind a line break, or anything else that is no blank and no part of a left side, "*=" stays.
  lemma BreakIsLeft(a: string, ws: string, r: string)
    requires (forall k :: 0 <= k < |ws| ==> !IsId(ws[k]) && ws[k] != '*') && !Blanks(ws)
    requires Hits(a + ws) == 0 && Hits(r) == 0
    ensures Prepass(a + ws + ("*=" + r)) == a + ws + ("*=" + r)
  {
    hide *;
    var t := a + ws;
    NoLeftSide(a, ws);
    LastOfBreak(a, ws);
    AtHit(r);
    PrepassIs(t + ("*=" + r));
    GoCopies([], t, "*=" + r);
    assert [] + t == t;
    GoKeeps(t, r);
  }

  lemma LastOfBreak(a: string, ws: string)
    requires (forall k :: 0 <= k < |ws| ==> ws[k] != '*') && !Blanks(ws)
    ensures a + ws != [] && (a + ws)[|a + ws| - 1] != '*'
  {
    assert (a + ws)[|a + ws| - 1] == ws[|ws| - 1];
  }

  lemma NoLeftSide(a: string, ws: string)
    requires (forall k :: 0 <= k < |ws| ==> !IsId(ws[k])) && !Blanks(ws)
    ensures LeftSide(a + ws) == []
  {
    var n := BlankEnd(ws);
    var x, t := a + ws[..n], a + ws;
    assert n > 0 && t == x + ws[n..] && x[|x| - 1] == ws[n - 1];
    BlankEndBefore(x, ws[n..]);
    assert t[..|x|] == x;
    IdEndBefore(x, []);
    assert x + [] == x;
    LeftSideDef(t);
  }

  lemma GoKeeps(a: string, r: string)
    requires LeftSide(a) == [] && Hits(r) == 0
    ensures Go(a, "*=" + r) == a + ("*=" + r)
  {
    AtHit(r);
    GoStep(a, "*=" + r);
    GoCopiesAll(a + ['*'], "=" + r);
    hide *;
    StarKept(a, r);
    Assoc(a, "*=", r);
  }
}
