// What the rewriting of MulAssign means: statements are read by a tokenizer and a precedence
// parser, and "L *= R" is compared with the rewritten "L = L * R".

module GlslMeaning {
  import opened Common
  import opened MulAssign

  // ---- tokens

  datatype Token = Word(w: string) | Sym(op: string)

  predicate IsSpace(c: char) { c == ' ' || c == '\t' || c == '\r' || c == '\n' }

  predicate StartsWord(s: string) { s != [] && IsId(s[0]) && s[0] != ']' }

  predicate IsLetter(c: char) { 'a' <= c <= 'z' || 'A' <= c <= 'Z' || c == '_' }

  // Blanks inside a word: a subscript, a point, or the name behind a point goes on with it.
  predicate Glued(s: string, dot: bool) {
    s != [] && if IsSpace(s[0]) then Glued(s[1..], dot) else s[0] == '[' || s[0] == '.' || (dot && IsLetter(s[0]))
  }

  // How far a word goes on inside depth open brackets, behind a point if dot says so: names,
  // numbers, swizzles, and everything up to the closing bracket of a subscript.
  function WordLength(s: string, depth: nat, dot: bool): (n: nat)
    ensures n <= |s| && (StartsWord(s) ==> n > 0)
  {
    if s == [] then 0
    else if s[0] == '[' then 1 + WordLength(s[1..], depth + 1, false)
    else if s[0] == ']' then if depth == 0 then 0 else 1 + WordLength(s[1..], depth - 1, false)
    else if depth > 0 then 1 + WordLength(s[1..], depth, false)
    else if IsId(s[0]) then 1 + WordLength(s[1..], 0, s[0] == '.')
    else if IsSpace(s[0]) && Glued(s, dot) then 1 + WordLength(s[1..], 0, dot)
    else 0
  }

  predicate IsDigit(c: char) { '0' <= c <= '9' }

  // Digits, with or without a point.
  predicate Mantissa(m: string) {
    && (forall k :: 0 <= k < |m| ==> IsDigit(m[k]) || m[k] == '.')
    && (exists k :: 0 <= k < |m| && IsDigit(m[k]))
  }

  // A float literal goes on behind the sign at n, which is the sign of its exponent.
  predicate SignedExponent(s: string, n: nat)
    requires n <= |s|
  {
    && 2 <= n && n + 1 < |s| && (s[n] == '+' || s[n] == '-') && IsDigit(s[n + 1])
    && (s[n - 1] == 'e' || s[n - 1] == 'E') && Mantissa(s[..n - 1])
  }

  // The characters of the word that s starts with.
  function TokenLength(s: string): (n: nat)
    ensures n <= |s| && (StartsWord(s) ==> n > 0)
  {
    var n := WordLength(s, 0, false);
    if SignedExponent(s, n) then n + 1 + WordLength(s[n + 1..], 0, false) else n
  }

  // The operators of two characters.
  predicate Pair(a: char, b: char) {
    if b == '=' then a in {'*', '<', '>', '=', '!'} else a == b && a in {'<', '>', '&', '^', '|'}
  }

  function SymLength(s: string): (n: nat)
    requires s != []
    ensures 0 < n <= |s|
  {
    if |s| > 1 && Pair(s[0], s[1]) then 2 else 1
  }

  function Lex(s: string): seq<Token>
    decreases |s|
  {
    if s == [] then []
    else if IsSpace(s[0]) then Lex(s[1..])
    else if StartsWord(s) then
      var n := TokenLength(s);
      [Word(s[..n])] + Lex(s[n..])
    else [Sym(s[..SymLength(s)])] + Lex(s[SymLength(s)..])
  }

  // ---- expressions

  datatype Expr =
    | Leaf(w: string)
    | Prefix(op: string, arg: Expr)
    | Paren(inner: Expr)
    | Call(name: string, args: seq<Expr>)
    | Suffix(of: Expr, w: string)
    | Bin(op: string, a: Expr, b: Expr)
    | Cond(test: Expr, yes: Expr, no: Expr)

  const LEVELS: nat := 11

  // The binary operators, tightest first.
  function Ops(level: nat): set<string> {
    if level == 1 then {"*", "/", "%"}
    else if level == 2 then {"+", "-"}
    else if level == 3 then {"<<", ">>"}
    else if level == 4 then {"<", ">", "<=", ">="}
    else if level == 5 then {"==", "!="}
    else if level == 6 then {"&"}
    else if level == 7 then {"^"}
    else if level == 8 then {"|"}
    else if level == 9 then {"&&"}
    else if level == 10 then {"^^"}
    else if level == 11 then {"||"}
    else {}
  }

  datatype Parsed<T> = Fail | Got(value: T, rest: seq<Token>)

  predicate Next(ts: seq<Token>, op: string) { ts != [] && ts[0] == Sym(op) }

  // A swizzle or a subscript, which needs something before it; but .5 is a number.
  predicate IsSuffix(w: string) {
    w != [] && (w[0] == '[' || (w[0] == '.' && !(|w| > 1 && IsDigit(w[1]))))
  }

  // A swizzle or a subscript behind a closing parenthesis.
  function WithSuffix(e: Expr, ts: seq<Token>): (r: Parsed<Expr>)
    ensures r.Got? && |r.rest| <= |ts| && (r.value == e || r.value.Suffix?)
  {
    if ts != [] && ts[0].Word? && IsSuffix(ts[0].w) then Got(Suffix(e, ts[0].w), ts[1..])
    else Got(e, ts)
  }

  function ParseUnary(ts: seq<Token>): (r: Parsed<Expr>)
    ensures r.Got? ==> |r.rest| < |ts| && !Loose(r.value)
    decreases |ts|, 0
  {
    if ts == [] || (ts[0].Word? && IsSuffix(ts[0].w)) then Fail
    else if ts[0].Word? then
      if Next(ts[1..], "(") then
        var r := ParseArgs(ts[2..]);
        if r.Got? then WithSuffix(Call(ts[0].w, r.value), r.rest) else Fail
      else Got(Leaf(ts[0].w), ts[1..])
    else if ts[0].op in {"-", "+", "!", "~"} then
      var r := ParseUnary(ts[1..]);
      if r.Got? then Got(Prefix(ts[0].op, r.value), r.rest) else Fail
    else if ts[0].op == "(" then
      var r := ParseExpr(ts[1..]);
      if r.Got? && Next(r.rest, ")") then WithSuffix(Paren(r.value), r.rest[1..]) else Fail
    else Fail
  }

  // The arguments of a call up to its closing parenthesis.
  function ParseArgs(ts: seq<Token>): (r: Parsed<seq<Expr>>)
    ensures r.Got? ==> |r.rest| < |ts|
    decreases |ts|, LEVELS + 3
  {
    if Next(ts, ")") then Got([], ts[1..])
    else
      var r := ParseExpr(ts);
      if r.Fail? then Fail
      else if Next(r.rest, ")") then Got([r.value], r.rest[1..])
      else if Next(r.rest, ",") then
        var t := ParseArgs(r.rest[1..]);
        if t.Got? then Got([r.value] + t.value, t.rest) else Fail
      else Fail
  }

  // A chain of operators of one level, associating to the left.
  function ParseLevel(level: nat, ts: seq<Token>): (r: Parsed<Expr>)
    ensures r.Got? ==> |r.rest| < |ts|
    decreases |ts|, level + 1
  {
    if level == 0 then ParseUnary(ts)
    else
      var r := ParseLevel(level - 1, ts);
      if r.Got? then Chained(level, r.value, r.rest) else Fail
  }

  function Chained(level: nat, acc: Expr, ts: seq<Token>): (r: Parsed<Expr>)
    requires level > 0
    ensures r.Got? ==> |r.rest| <= |ts|
    decreases |ts|, 0
  {
    if ts != [] && ts[0].Sym? && ts[0].op in Ops(level) then
      var r := ParseLevel(level - 1, ts[1..]);
      if r.Got? then Chained(level, Bin(ts[0].op, acc, r.value), r.rest) else Fail
    else Got(acc, ts)
  }

  function ParseExpr(ts: seq<Token>): (r: Parsed<Expr>)
    ensures r.Got? ==> |r.rest| < |ts|
    decreases |ts|, LEVELS + 2
  {
    var r := ParseLevel(LEVELS, ts);
    if r.Got? then Branches(r.value, r.rest) else Fail
  }

  // The two branches of a conditional expression, when there are any.
  function Branches(c: Expr, ts: seq<Token>): (r: Parsed<Expr>)
    ensures r.Got? ==> |r.rest| <= |ts|
    decreases |ts|, 0
  {
    if !Next(ts, "?") then Got(c, ts)
    else
      var t := ParseExpr(ts[1..]);
      if t.Got? && Next(t.rest, ":") then
        var f := ParseExpr(t.rest[1..]);
        if f.Got? then Got(Cond(c, t.value, f.value), f.rest) else Fail
      else Fail
  }

  // ---- statements

  datatype Statement = Assign(l: string, value: Expr)

  function ParseAll(ts: seq<Token>): Parsed<Expr> {
    var r := ParseExpr(ts);
    if r.Got? && r.rest == [] then r else Fail
  }

  // An assignment, or a compound assignment, which assigns the product of the old value and
  // the whole right side.
  function ParseStatement(ts: seq<Token>): Parsed<Statement> {
    if |ts| < 2 || !ts[0].Word? then Fail
    else
      var r := ParseAll(ts[2..]);
      if r.Fail? then Fail
      else if ts[1] == Sym("*=") then Got(Assign(ts[0].w, Bin("*", Leaf(ts[0].w), r.value)), [])
      else if ts[1] == Sym("=") then Got(Assign(ts[0].w, r.value), [])
      else Fail
  }

  function Tree(text: string): Parsed<Statement> { ParseStatement(Lex(text)) }

  // ---- the leftmost factor

  // An expression that falls apart when "L *" is put before its text.
  predicate Loose(e: Expr) { e.Bin? || e.Cond? }

  // The tree of "L * R", when e is the tree of R: L joins the leftmost factor.
  function Graft(l: string, e: Expr): Expr {
    match e
    case Bin(op, a, b) => Bin(op, Graft(l, a), b)
    case Cond(c, t, f) => Cond(Graft(l, c), t, f)
    case _ => Bin("*", Leaf(l), e)
  }

  function Grafted(l: string, r: Parsed<Expr>): Parsed<Expr> {
    if r.Got? then Got(Graft(l, r.value), r.rest) else Fail
  }

  lemma {:induction false} ChainedGrafts(l: string, level: nat, acc: Expr, ts: seq<Token>)
    requires level > 0
    ensures Chained(level, Graft(l, acc), ts) == Grafted(l, Chained(level, acc, ts))
    decreases |ts|
  {
    if ts != [] && ts[0].Sym? && ts[0].op in Ops(level) {
      hide Ops;
      var r := ParseLevel(level - 1, ts[1..]);
      if r.Got? { ChainedGrafts(l, level, Bin(ts[0].op, acc, r.value), r.rest); }
    }
  }

  function Factor(l: string): seq<Token> { [Word(l), Sym("*")] }

  lemma UnaryFactor(l: string, ts: seq<Token>)
    requires !IsSuffix(l)
    ensures ParseLevel(0, Factor(l) + ts) == Got(Leaf(l), [Sym("*")] + ts)
  {
    var all := Factor(l) + ts;
    assert all[1..] == [Sym("*")] + ts;
  }

  lemma ProductLevel(l: string, ts: seq<Token>)
    requires !IsSuffix(l)
    ensures ParseLevel(1, Factor(l) + ts) == Grafted(l, ParseLevel(1, ts))
  {
    UnaryFactor(l, ts);
    var r := ParseUnary(ts);
    assert ParseLevel(0, ts) == r;
    assert ([Sym("*")] + ts)[1..] == ts;
    if r.Got? {
      assert Graft(l, r.value) == Bin("*", Leaf(l), r.value);
      ChainedGrafts(l, 1, r.value, r.rest);
    }
  }

  lemma {:induction false} LevelGrafts(l: string, level: nat, ts: seq<Token>)
    requires level > 0 && !IsSuffix(l)
    ensures ParseLevel(level, Factor(l) + ts) == Grafted(l, ParseLevel(level, ts))
    decreases level
  {
    if level == 1 {
      ProductLevel(l, ts);
    } else {
      hide Ops, Factor;
      LevelGrafts(l, level - 1, ts);
      var r := ParseLevel(level - 1, ts);
      if r.Got? { ChainedGrafts(l, level, r.value, r.rest); }
    }
  }

  // Putting "L *" before any text that parses, with L no mere suffix, hangs L onto its leftmost factor.
  lemma ParseGrafts(l: string, ts: seq<Token>)
    requires !IsSuffix(l)
    ensures ParseExpr(Factor(l) + ts) == Grafted(l, ParseExpr(ts))
  {
    LevelGrafts(l, LEVELS, ts);
    hide ParseLevel, Factor;
    var r := ParseLevel(LEVELS, ts);
    if r.Got? { assert Branches(Graft(l, r.value), r.rest) == Grafted(l, Branches(r.value, r.rest)); }
  }

  lemma GraftIsProduct(l: string, e: Expr)
    ensures Graft(l, e) == Bin("*", Leaf(l), e) <==> !Loose(e)
  {}

  // ---- the tokens of a statement

  lemma {:induction false} LexSpaces(gap: string, s: string)
    requires forall k :: 0 <= k < |gap| ==> IsSpace(gap[k])
    ensures Lex(gap + s) == Lex(s)
    decreases |gap|
  {
    if gap == [] {
      assert gap + s == s;
    } else {
      assert (gap + s)[1..] == gap[1..] + s;
      LexSpaces(gap[1..], s);
    }
  }

  // A word that opens depth brackets fewer than it closes, and is otherwise complete: a letter
  // behind every point, and no subscript there.
  predicate Whole(w: string, depth: nat, dot: bool) {
    if w == [] then depth == 0 && !dot
    else if w[0] == '[' then !dot && Whole(w[1..], depth + 1, false)
    else if w[0] == ']' then depth > 0 && Whole(w[1..], depth - 1, false)
    else if depth > 0 then Whole(w[1..], depth, false)
    else if IsId(w[0]) then (dot ==> IsLetter(w[0])) && Whole(w[1..], 0, w[0] == '.')
    else IsSpace(w[0]) && Glued(w, dot) && Whole(w[1..], 0, dot)
  }

  // A word ends before s.
  predicate Stops(s: string) { s == [] || (!IsId(s[0]) && (IsSpace(s[0]) ==> !Glued(s, false))) }

  lemma {:induction false} GluedOn(w: string, dot: bool, s: string)
    requires Glued(w, dot)
    ensures Glued(w + s, dot)
    decreases |w|
  {
    assert (w + s)[1..] == w[1..] + s;
    if IsSpace(w[0]) { GluedOn(w[1..], dot, s); }
  }

  lemma {:induction false} WholeWord(w: string, depth: nat, dot: bool, s: string)
    requires Whole(w, depth, dot) && Stops(s)
    ensures WordLength(w + s, depth, dot) == |w|
    decreases |w|
  {
    if w == [] {
      assert w + s == s;
    } else {
      assert (w + s)[1..] == w[1..] + s && (w + s)[0] == w[0];
      if w[0] == '[' { WholeWord(w[1..], depth + 1, false, s); }
      else if w[0] == ']' { WholeWord(w[1..], depth - 1, false, s); }
      else if depth > 0 { WholeWord(w[1..], depth, false, s); }
      else if IsId(w[0]) { WholeWord(w[1..], 0, w[0] == '.', s); }
      else {
        GluedOn(w, dot, s);
        WholeWord(w[1..], 0, dot, s);
      }
    }
  }

  // A left side: a name with its swizzles and subscripts, and blanks between them or not.
  predicate Lvalue(w: string) { StartsName(w) && Whole(w, 0, false) }

  predicate StartsName(w: string) { w != [] && IsLetter(w[0]) }

  lemma NameIsNoNumber(s: string, n: nat)
    requires n <= |s| && StartsName(s)
    ensures !SignedExponent(s, n)
  {
    if n >= 2 { assert s[..n - 1][0] == s[0]; }
  }

  lemma LexWord(w: string, s: string)
    requires Lvalue(w) && Stops(s)
    ensures Lex(w + s) == [Word(w)] + Lex(s)
  {
    WholeWord(w, 0, false, s);
    NameIsNoNumber(w + s, |w|);
    assert (w + s)[..|w|] == w && (w + s)[|w|..] == s;
  }

  lemma LexMulAssign(s: string)
    ensures Lex("*=" + s) == [Sym("*=")] + Lex(s)
  {
    var t := "*=" + s;
    assert t[0] == '*' && !IsId(t[0]) && t[..2] == "*=" && t[2..] == s;
  }

  lemma LexAssign(s: string)
    ensures Lex("= " + s) == [Sym("=")] + Lex(s)
  {
    var t := "= " + s;
    assert t[0] == '=' && t[1] == ' ' && t[..1] == "=" && t[1..] == " " + s;
    LexSpaces(" ", s);
  }

  lemma LexTimes(s: string)
    requires s == [] || s[0] != '='
    ensures Lex(" *" + s) == [Sym("*")] + Lex(s)
  {
    var t := "*" + s;
    assert " *" + s == " " + t;
    LexSpaces(" ", t);
    assert t[0] == '*' && t[..1] == "*" && t[1..] == s;
  }

  // ---- right sides that do not parse

  lemma {:induction false} FailsUp(level: nat, ts: seq<Token>)
    requires ParseUnary(ts).Fail?
    ensures ParseLevel(level, ts).Fail?
    decreases level
  {
    if level > 0 { FailsUp(level - 1, ts); }
  }

  lemma StartsNoEquals(r: string)
    requires ParseAll(Lex(r)).Got?
    ensures r == [] || r[0] != '='
  {
    if r != [] && r[0] == '=' {
      assert r[..SymLength(r)][0] == '=';
      FailsUp(LEVELS, Lex(r));
    }
  }

  lemma {:induction false} LeafOnly(level: nat, w: string, ts: seq<Token>)
    requires ts != [] && ts[0] == Sym("]") && !IsSuffix(w)
    ensures ParseLevel(level, [Word(w)] + ts) == Got(Leaf(w), ts)
    decreases level
  {
    if level == 0 {
      assert ([Word(w)] + ts)[1..] == ts;
    } else {
      LeafOnly(level - 1, w, ts);
    }
  }

  lemma {:induction false} StrayBracket(l: string, depth: nat, missing: nat, dot: bool, s: string)
    requires Whole(l, depth + missing, false) && missing > 0 && (forall k :: 0 <= k < |l| ==> IsId(l[k]))
    ensures var n := WordLength(l + s, depth, dot); n < |l| && l[n] == ']'
    decreases |l|
  {
    assert (l + s)[1..] == l[1..] + s;
    if l[0] == '[' {
      StrayBracket(l[1..], depth + 1, missing, false, s);
    } else if l[0] == ']' {
      if depth > 0 { StrayBracket(l[1..], depth - 1, missing, false, s); }
    } else {
      StrayBracket(l[1..], depth, missing, depth == 0 && l[0] == '.', s);
    }
  }

  lemma LexStray(s: string)
    requires s != [] && s[0] == ']'
    ensures Lex(s) == [Sym("]")] + Lex(s[1..])
  {
    assert s[..1] == "]";
  }

  lemma NotAllParsed(ts: seq<Token>, w: string)
    requires ts != [] && ts[0] == Sym("]")
    ensures ParseAll(ts).Fail? && ParseAll([Word(w)] + ts).Fail?
  {
    assert "]"[0] != "?"[0];
    FailsUp(LEVELS, ts);
    if IsSuffix(w) {
      FailsUp(LEVELS, [Word(w)] + ts);
    } else {
      LeafOnly(LEVELS, w, ts);
      hide ParseLevel;
      assert ParseExpr([Word(w)] + ts) == Got(Leaf(w), ts);
    }
  }

  lemma LexFirst(s: string)
    requires s != [] && IsId(s[0]) && WordLength(s, 0, false) > 0
    requires WordLength(s, 0, false) < |s| && s[WordLength(s, 0, false)] == ']'
    ensures var n := WordLength(s, 0, false); Lex(s) == [Word(s[..n])] + Lex(s[n..])
  {
    assert TokenLength(s) == WordLength(s, 0, false);
  }

  // A text with a closing bracket too many does not parse.
  lemma StrayFails(l: string, missing: nat, s: string)
    requires Whole(l, missing, false) && missing > 0 && (forall k :: 0 <= k < |l| ==> IsId(l[k]))
    ensures ParseAll(Lex(l + s)).Fail?
  {
    StrayBracket(l, 0, missing, false, s);
    var t := l + s;
    var n := WordLength(t, 0, false);
    var behind := t[n..];
    assert t[0] == l[0] && behind[0] == l[n];
    LexStray(behind);
    NotAllParsed(Lex(behind), t[..n]);
    if n == 0 {
      assert behind == t;
    } else {
      LexFirst(t);
    }
  }

  // ---- what the rewriting means

  // What the end of a left side is by itself: its brackets do not match, or it is a suffix, or the
  // name behind a point.
  lemma {:induction false} WholeSplits(p: string, l: string, depth: nat, dot: bool) returns (missing: nat, point: bool)
    requires Whole(p + l, depth, dot) && (depth > 0 ==> !dot) && (l != [] ==> IsId(l[0]))
    ensures Whole(l, missing, point) && (missing > 0 ==> !point) && (p == [] ==> missing == depth && point == dot)
    ensures p != [] && !IsId(p[|p| - 1]) && missing == 0 ==>
              l != [] && (l[0] == '[' || l[0] == '.' || (point && IsLetter(l[0])))
    decreases |p|
  {
    if p == [] {
      assert p + l == l;
      missing, point := depth, dot;
    } else {
      assert (p + l)[1..] == p[1..] + l && (p + l)[0] == p[0];
      assert |p| > 1 ==> p[1..][|p| - 2] == p[|p| - 1];
      hide *;
      missing, point := WholeStep(p + l, depth, dot);
      missing, point := WholeSplits(p[1..], l, missing, point);
      if |p| == 1 { IdIsGlued(p[1..] + l, l, point); }
    }
  }

  lemma WholeStep(w: string, depth: nat, dot: bool) returns (d: nat, t: bool)
    requires w != [] && Whole(w, depth, dot) && (depth > 0 ==> !dot)
    ensures Whole(w[1..], d, t) && (d > 0 ==> !t) && (!IsId(w[0]) && d == 0 ==> Glued(w[1..], t))
  {
    if w[0] == '[' { return depth + 1, false; }
    if w[0] == ']' { return depth - 1, false; }
    if depth > 0 { return depth, false; }
    if IsId(w[0]) { return 0, w[0] == '.'; }
    return 0, dot;
  }

  lemma IdIsGlued(s: string, l: string, dot: bool)
    requires s == l && (l != [] ==> IsId(l[0]))
    ensures Glued(s, dot) ==> l != [] && (l[0] == '[' || l[0] == '.' || (dot && IsLetter(l[0])))
  {}

  // The identifier characters at the end of a left side, which is all the pass takes for it.
  function Tail(w: string): string { w[IdEnd(w)..] }

  // The pass goes back over blanks only, so that it finds no left side behind a line break.
  ghost predicate LeftAlone(w: string, ws: string) { |Tail(w)| >= LIMIT || !Blanks(ws) }

  ghost predicate Spaces(ws: string) { forall k :: 0 <= k < |ws| ==> IsSpace(ws[k]) }

  lemma SourceTree(pre: string, w: string, ws: string, r: string)
    requires Spaces(pre) && Lvalue(w) && Spaces(ws) && ParseAll(Lex(r)).Got?
    ensures Tree(pre + w + ws + ("*=" + r)) == Got(Assign(w, Bin("*", Leaf(w), ParseAll(Lex(r)).value)), [])
  {
    OperatorStops("*=" + r);
    hide *;
    TreeIs(pre + w + ws + ("*=" + r));
    LexUpTo(pre, w, ws, "*=" + r);
    LexMulAssign(r);
    Assoc([Word(w)], [Sym("*=")], Lex(r));
    Pairs(Word(w), Sym("*="));
    MulAssignTree(w, Lex(r));
  }

  lemma MulAssignTree(w: string, ts: seq<Token>)
    requires ParseAll(ts).Got?
    ensures ParseStatement([Word(w), Sym("*=")] + ts) == Got(Assign(w, Bin("*", Leaf(w), ParseAll(ts).value)), [])
  {
    var all := [Word(w), Sym("*=")] + ts;
    assert all[2..] == ts;
    hide ParseAll;
  }

  // A text that does not go on with the word before it, blanks in between or not.
  predicate Apart(s: string) { s != [] && !IsId(s[0]) && !IsSpace(s[0]) }

  lemma OperatorStops(s: string)
    requires s != [] && (s[0] == '*' || s[0] == '=')
    ensures Apart(s)
  {}

  lemma {:induction false} NotGlued(ws: string, s: string)
    requires Spaces(ws) && Apart(s)
    ensures !Glued(ws + s, false)
    decreases |ws|
  {
    if ws == [] {
      assert ws + s == s;
    } else {
      assert (ws + s)[1..] == ws[1..] + s;
      NotGlued(ws[1..], s);
    }
  }

  lemma BehindSpaces(ws: string, s: string)
    requires Spaces(ws) && Apart(s)
    ensures Stops(ws + s)
  {
    NotGlued(ws, s);
    assert (ws + s)[0] == if ws == [] then s[0] else ws[0];
  }

  lemma LexUpTo(pre: string, w: string, ws: string, s: string)
    requires Spaces(pre) && Lvalue(w) && Spaces(ws) && Apart(s)
    ensures Lex(pre + w + ws + s) == [Word(w)] + Lex(s)
  {
    BehindSpaces(ws, s);
    assert (forall k :: 0 <= k < |pre| ==> IsSpace(pre[k])) && (forall k :: 0 <= k < |ws| ==> IsSpace(ws[k]));
    hide *;
    Assoc(pre + w, ws, s);
    Assoc(pre, w, ws + s);
    LexSpaces(ws, s);
    LexWord(w, ws + s);
    LexSpaces(pre, w + (ws + s));
  }

  lemma RewrittenTokens(pre: string, w: string, ws: string, l: string, r: string)
    requires Spaces(pre) && Lvalue(w) && Spaces(ws)
    ensures Lex(pre + w + ws + ("= " + l + " *") + r) == [Word(w), Sym("=")] + Lex(l + (" *" + r))
  {
    var s := "= " + (l + (" *" + r));
    OperatorStops(s);
    hide *;
    Assoc(pre + w + ws, "= " + l + " *", r);
    Assoc("= " + l, " *", r);
    Assoc("= ", l, " *" + r);
    LexUpTo(pre, w, ws, s);
    LexAssign(l + (" *" + r));
    Assoc([Word(w)], [Sym("=")], Lex(l + (" *" + r)));
    Pairs(Word(w), Sym("="));
  }

  lemma Pairs(a: Token, b: Token)
    ensures [a] + [b] == [a, b]
  {}

  lemma GotAll(ts: seq<Token>, l: string)
    requires ParseAll(ts).Got? && !IsSuffix(l)
    ensures ParseAll(Factor(l) + ts) == Got(Graft(l, ParseAll(ts).value), [])
  {
    ParseGrafts(l, ts);
    hide ParseExpr, Factor;
  }

  lemma ProductTree(w: string, r: string)
    requires Lvalue(w) && ParseAll(Lex(r)).Got?
    ensures ParseAll(Lex(w + (" *" + r))) == Got(Graft(w, ParseAll(Lex(r)).value), [])
  {
    StartsNoEquals(r);
    TimesStops(r);
    assert Factor(w) == [Word(w), Sym("*")] && !IsSuffix(w);
    GotAll(Lex(r), w);
    hide *;
    LexWord(w, " *" + r);
    LexTimes(r);
    Assoc([Word(w)], [Sym("*")], Lex(r));
    Pairs(Word(w), Sym("*"));
  }

  lemma TimesStops(r: string)
    ensures Stops(" *" + r)
  {
    assert " *" + r == " " + ("*" + r);
    BehindSpaces(" ", "*" + r);
  }

  lemma AssignTree(w: string, ts: seq<Token>)
    ensures ParseStatement([Word(w), Sym("=")] + ts)
         == if ParseAll(ts).Got? then Got(Assign(w, ParseAll(ts).value), []) else Fail
  {
    var all := [Word(w), Sym("=")] + ts;
    assert all[2..] == ts;
    assert "="[..] != "*="[..];
  }

  // The statement after the pass: as it was, or with a left side that the pass takes for another
  // one, or broken.
  lemma RewrittenTree(pre: string, w: string, ws: string, r: string)
    requires Spaces(pre) && Lvalue(w) && Spaces(ws)
    requires Hits(pre + w + ws) == 0 && Hits(r) == 0 && ParseAll(Lex(r)).Got?
    ensures Tree(Prepass(pre + w + ws + ("*=" + r)))
         == if LeftAlone(w, ws) then Tree(pre + w + ws + ("*=" + r))
            else if Lvalue(Tail(w)) then Got(Assign(w, Graft(Tail(w), ParseAll(Lex(r)).value)), [])
            else Fail
  {
    assert forall k :: 0 <= k < |ws| ==> !IsId(ws[k]) && ws[k] != '*';
    hide Tree, Prepass, Hits, Tail, ParseAll, Lvalue, Spaces;
    if Blanks(ws) { BlanksRewritten(pre, w, ws, r); } else { BreakIsLeft(pre + w, ws, r); }
  }

  lemma BlanksRewritten(pre: string, w: string, ws: string, r: string)
    requires Spaces(pre) && Lvalue(w) && Spaces(ws) && Blanks(ws)
    requires Hits(pre + w + ws) == 0 && Hits(r) == 0 && ParseAll(Lex(r)).Got?
    ensures Tree(Prepass(pre + w + ws + ("*=" + r)))
         == if |Tail(w)| >= LIMIT then Tree(pre + w + ws + ("*=" + r))
            else if Lvalue(Tail(w)) then Got(Assign(w, Graft(Tail(w), ParseAll(Lex(r)).value)), [])
            else Fail
  {
    hide *;
    var l := Tail(w);
    var p := w[..IdEnd(w)];
    TailSplits(pre, w, ws);
    Rewrites(pre + p, l, ws, r);
    TreeIs(Prepass(pre + w + ws + ("*=" + r)));
    if |l| < LIMIT {
      RewrittenTokens(pre, w, ws, l, r);
      AssignTree(w, Lex(l + (" *" + r)));
      TailTree(p, w, l, r);
    } else {
      Assoc(pre + w + ws, "*=", r);
    }
  }

  lemma TreeIs(text: string)
    ensures Tree(text) == ParseStatement(Lex(text))
  {}

  lemma TailTree(p: string, w: string, l: string, r: string)
    requires Lvalue(w) && p + l == w && (l == w <==> p == []) && (p != [] ==> !IsId(p[|p| - 1]))
    requires Chain(l) && ParseAll(Lex(r)).Got?
    ensures ParseAll(Lex(l + (" *" + r)))
         == if Lvalue(l) then Got(Graft(l, ParseAll(Lex(r)).value), []) else Fail
  {
    if Lvalue(l) {
      ProductTree(l, r);
    } else {
      var missing, point := WholeSplits(p, l, 0, false);
      if missing > 0 { StrayFails(l, missing, " *" + r); } else { SuffixFails(l, point, r); }
    }
  }

  // A swizzle or a subscript alone does not parse.
  lemma SuffixFails(l: string, point: bool, r: string)
    requires Chain(l) && Whole(l, 0, point) && !Lvalue(l) && (l[0] == '[' || l[0] == '.' || (point && IsLetter(l[0])))
    ensures ParseAll(Lex(l + (" *" + r))).Fail?
  {
    var s := " *" + r;
    TimesStops(r);
    if l[0] == '.' { assert l[1..] != [] && IsLetter(l[1..][0]); }
    assert IsSuffix(l) && !IsDigit(l[0]);
    WholeWord(l, 0, point, s);
    PointOnlyFirst(l, s, point);
    SuffixIsNoNumber(l + s, |l|);
    assert (l + s)[..|l|] == l && (l + s)[|l|..] == s && TokenLength(l + s) == |l|;
    assert Lex(l + s) == [Word(l)] + Lex(s);
    FailsUp(LEVELS, Lex(l + s));
  }

  lemma PointOnlyFirst(l: string, s: string, point: bool)
    requires l != [] && (l[0] == '[' || l[0] == '.')
    ensures WordLength(l + s, 0, point) == WordLength(l + s, 0, false)
  {
    assert (l + s)[0] == l[0];
  }

  lemma SuffixIsNoNumber(s: string, n: nat)
    requires n <= |s| && s != [] && (s[0] == '[' || (s[0] == '.' && |s| > 1 && IsLetter(s[1])))
    ensures !SignedExponent(s, n)
  {
    if n >= 2 {
      assert s[..n - 1][0] == s[0];
      if n > 2 { assert s[..n - 1][1] == s[1]; }
    }
  }

  lemma TailSplits(pre: string, w: string, ws: string)
    requires Spaces(pre) && Lvalue(w)
    ensures var l, p := Tail(w), w[..IdEnd(w)];
            && Chain(l) && p + l == w && pre + p + l + ws == pre + w + ws
            && (pre + p == [] || !IsId((pre + p)[|pre + p| - 1]))
            && (l == w <==> p == []) && (p != [] ==> !IsId(p[|p| - 1]))
  {
    LastOfWhole(w, 0, false);
    var n := IdEnd(w);
    assert forall k :: 0 <= k < |pre| ==> !IsId(pre[k]);
    assert n < |w| && Chain(w[n..]) && (n > 0 ==> !IsId(w[n - 1]));
    assert Tail(w) == w[n..];
    hide *;
    CutAt(pre, w, n, ws);
  }

  lemma CutAt(pre: string, w: string, n: nat, ws: string)
    requires n <= |w|
    ensures var p, l := w[..n], w[n..];
            && p + l == w && pre + p + l + ws == pre + w + ws && (l == w <==> p == [])
            && (n > 0 ==> p[|p| - 1] == w[n - 1] && (pre + p)[|pre + p| - 1] == w[n - 1])
            && (n == 0 ==> pre + p == pre)
  {
    assert w[..n] + w[n..] == w;
    if w[n..] == w { assert |w[n..]| == |w|; }
  }

  lemma {:induction false} LastOfWhole(w: string, depth: nat, dot: bool)
    requires w != [] && Whole(w, depth, dot) && (depth > 0 ==> !dot)
    ensures IsId(w[|w| - 1])
    decreases |w|
  {
    var d, t := WholeStep(w, depth, dot);
    if |w| > 1 { LastOfWhole(w[1..], d, t); } else { assert w[1..] == []; }
  }

  // The text after the pass parses to the same tree exactly when the pass leaves the statement
  // alone, or L has identifier characters only and R is unary or parenthesised.
  lemma TreeKept(pre: string, w: string, ws: string, r: string)
    requires Spaces(pre) && Lvalue(w) && Spaces(ws)
    requires Hits(pre + w + ws) == 0 && Hits(r) == 0 && ParseAll(Lex(r)).Got?
    ensures Tree(Prepass(pre + w + ws + ("*=" + r))) == Tree(pre + w + ws + ("*=" + r))
       <==> LeftAlone(w, ws) || (Chain(w) && !Loose(ParseAll(Lex(r)).value))
  {
    hide *;
    RewrittenTree(pre, w, ws, r);
    SourceTree(pre, w, ws, r);
    ProductOf(w, ParseAll(Lex(r)).value);
  }

  lemma ProductOf(w: string, e: Expr)
    requires Lvalue(w)
    ensures Graft(Tail(w), e) == Bin("*", Leaf(w), e) <==> Chain(w) && !Loose(e)
    ensures Chain(w) ==> Lvalue(Tail(w))
  {
    assert w != [];
    hide *;
    ChainTail(w);
    GraftIsProduct(w, e);
    if Tail(w) != w { OtherLeaf(Tail(w), w, e); }
  }

  lemma OtherLeaf(l: string, w: string, e: Expr)
    requires l != w
    ensures Graft(l, e) != Bin("*", Leaf(w), e)
  {
    LeftEndIs(w, l, e);
    LeftEndIs(w, w, e);
  }

  lemma ChainTail(w: string)
    requires w != []
    ensures Tail(w) == w <==> Chain(w)
  {
    if Chain(w) { IdEndBefore([], w); assert [] + w == w; }
    if Tail(w) == w { assert IdEnd(w) == 0; }
  }

  lemma LexPlus(s: string)
    ensures Lex("+" + s) == [Sym("+")] + Lex(s)
  {
    var t := "+" + s;
    assert t[0] == '+' && t[..1] == "+" && t[1..] == s;
  }

  lemma ParseSum(a: string, b: string)
    requires !IsSuffix(a) && !IsSuffix(b)
    ensures ParseAll([Word(a), Sym("+"), Word(b)]) == Got(Bin("+", Leaf(a), Leaf(b)), [])
  {
    var ts := [Word(a), Sym("+"), Word(b)];
    var r := [Sym("+"), Word(b)];
    assert ts[1..] == r && r[1..] == [Word(b)];
    assert "+"[0] == '+' && "*"[0] == '*' && "/"[0] == '/' && "%"[0] == '%' && "("[0] == '(';
    assert "+" !in Ops(1) && "+" in Ops(2);
    assert ParseLevel(0, ts) == ParseUnary(ts) == Got(Leaf(a), r);
    assert ParseLevel(0, [Word(b)]) == ParseUnary([Word(b)]) == Got(Leaf(b), []);
    assert Chained(1, Leaf(a), r) == Got(Leaf(a), r);
    Rises(0, 1, [Word(b)]);
    hide Ops;
    assert Chained(2, Bin("+", Leaf(a), Leaf(b)), []) == Got(Bin("+", Leaf(a), Leaf(b)), []);
    assert ParseLevel(2, ts) == Chained(2, Leaf(a), r) == Got(Bin("+", Leaf(a), Leaf(b)), []);
    Rises(2, LEVELS, ts);
    AllParsed(ts);
  }

  lemma AllParsed(ts: seq<Token>)
    requires ParseLevel(LEVELS, ts).Got? && ParseLevel(LEVELS, ts).rest == []
    ensures ParseAll(ts) == ParseLevel(LEVELS, ts)
  {
    var r := ParseLevel(LEVELS, ts);
    hide ParseLevel;
    assert Branches(r.value, []) == Got(r.value, []);
  }

  lemma {:induction false} Rises(from: nat, level: nat, ts: seq<Token>)
    requires from <= level && ParseLevel(from, ts).Got? && ParseLevel(from, ts).rest == []
    ensures ParseLevel(level, ts) == ParseLevel(from, ts)
    decreases level
  {
    if from < level { Rises(from, level - 1, ts); }
  }

  lemma LexSum(a: string, b: string)
    requires Lvalue(a) && Lvalue(b)
    ensures Lex(a + ("+" + b)) == [Word(a), Sym("+"), Word(b)]
  {
    assert Stops("+" + b);
    LexWord(a, "+" + b);
    LexPlus(b);
    LexOne(b);
    hide Lex;
    assert [Word(a)] + ([Sym("+")] + [Word(b)]) == [Word(a), Sym("+"), Word(b)];
  }

  lemma LexEmpty()
    ensures Lex([]) == []
  {}

  lemma GraftOfSum(x: string, op: string, a: Expr, b: Expr)
    requires !Loose(a)
    ensures Graft(x, Bin(op, a, b)) == Bin(op, Bin("*", Leaf(x), a), b)
  {}

  // In "x *= a+b" only a is multiplied.
  lemma SumsBreak()
    ensures Tree("x *=a+b") == Got(Assign("x", Bin("*", Leaf("x"), Bin("+", Leaf("a"), Leaf("b")))), [])
    ensures Tree(Prepass("x *=a+b")) == Got(Assign("x", Bin("+", Bin("*", Leaf("x"), Leaf("a")), Leaf("b"))), [])
  {
    Literals();
    ParsedLiteral();
    ChainTail("x");
    GraftOfSum("x", "+", Leaf("a"), Leaf("b"));
    hide *;
    RewrittenTree([], "x", " ", "a+b");
    SourceTree([], "x", " ", "a+b");
  }

  // With a blank before a subscript, the pass takes the subscript for the left side.
  lemma BlanksBreak()
    ensures Tree("v [0] *=a") == Got(Assign("v [0]", Bin("*", Leaf("v [0]"), Leaf("a"))), [])
    ensures Tree(Prepass("v [0] *=a")) == Fail
  {
    BlankLiteral();
    LexOne("a");
    WordParses("a");
    hide *;
    RewrittenTree([], "v [0]", " ", "a");
    SourceTree([], "v [0]", " ", "a");
  }

  lemma LexOne(w: string)
    requires Lvalue(w)
    ensures Lex(w) == [Word(w)]
  {
    LexWord(w, []);
    LexEmpty();
    assert w + [] == w;
    hide Lex;
    assert [Word(w)] + [] == [Word(w)];
  }

  lemma BlankLiteral()
    ensures var w := "v [0]";
            && Lvalue(w) && Tail(w) == "[0]" && !Lvalue("[0]") && !LeftAlone(w, " ") && Lvalue("a") && !IsSuffix("a")
            && Hits([] + w + " ") == 0 && Hits("a") == 0 && [] + w + " " + ("*=" + "a") == "v [0] *=a"
  {
    var w := "v [0]";
    assert w[1..] == " [0]" && " [0]"[1..] == "[0]" && "[0]"[1..] == "0]" && "0]"[1..] == "]";
    assert w[..4] == "v [0" && "v [0"[..3] == "v [" && "v ["[..2] == "v " && IdEnd("v ") == 2;
    assert w[2..] == "[0]" && [] + w + " " == "v [0] ";
    var t := "v [0] ";
    assert t[1..] == " [0] " && " [0] "[1..] == "[0] " && "[0] "[1..] == "0] " && "0] "[1..] == "] " && "] "[1..] == " ";
    var u := t + ("*=" + "a");
    assert |u| == 9 && u == "v [0] *=a";
    assert Whole("a", 0, false) && "a"[1..] == [];
  }

  lemma ParsedLiteral()
    ensures ParseAll(Lex("a+b")) == Got(Bin("+", Leaf("a"), Leaf("b")), [])
  {
    Literals();
    hide *;
    LexSum("a", "b");
    ParseSum("a", "b");
  }

  lemma Literals()
    ensures Lvalue("x") && Chain("x") && Lvalue("a") && Lvalue("b") && Spaces(" ") && |"x"| < LIMIT
    ensures [] + "x" + " " == "x " && "a" + ("+" + "b") == "a+b" && "x " + ("*=" + "a+b") == "x *=a+b"
    ensures Hits("x ") == 0 && Hits("a+b") == 0 && !IsSuffix("a") && !IsSuffix("b")
  {
    assert Whole("x", 0, false) && Whole("a", 0, false) && Whole("b", 0, false);
    assert "x "[1..] == " " && "a+b"[1..] == "+b" && "+b"[1..] == "b";
    var t := "x " + ("*=" + "a+b");
    assert |t| == 7 && t[0] == 'x' && t[1] == ' ' && t[2] == '*' && t[3] == '=' && t[4] == 'a' && t[5] == '+';
  }

  // ---- values

  // Any meaning of the names, functions and operators, with values in V.
  datatype Interp<!V> = Interp(
    leaf: string -> V, prefix: (string, V) -> V, call: (string, seq<V>) -> V, suffix: (V, string) -> V,
    bin: (string, V, V) -> V, cond: (V, V, V) -> V)

  function Eval<V>(i: Interp<V>, e: Expr): V {
    match e
    case Leaf(w) => i.leaf(w)
    case Prefix(op, arg) => i.prefix(op, Eval(i, arg))
    case Paren(inner) => Eval(i, inner)
    case Call(name, args) => i.call(name, EvalAll(i, args))
    case Suffix(of, w) => i.suffix(Eval(i, of), w)
    case Bin(op, a, b) => i.bin(op, Eval(i, a), Eval(i, b))
    case Cond(c, t, f) => i.cond(Eval(i, c), Eval(i, t), Eval(i, f))
  }

  function EvalAll<V>(i: Interp<V>, es: seq<Expr>): seq<V> {
    if es == [] then [] else [Eval(i, es[0])] + EvalAll(i, es[1..])
  }

  // Both statements assign the same value to the same place, or neither is one.
  ghost predicate SameEffect<V>(i: Interp<V>, a: Parsed<Statement>, b: Parsed<Statement>) {
    if a.Fail? || b.Fail? then a.Fail? && b.Fail?
    else a.value.l == b.value.l && Eval(i, a.value.value) == Eval(i, b.value.value)
  }

  // The value of a chain of operators is the length of its right end; everything else is 0.
  function RightEnd(): Interp<int> {
    Interp(_ => 0, (_, _) => 0, (_, _) => 0, (_, _) => 0, (_, _, y) => y + 1, (_, _, _) => 0)
  }

  lemma RightEndDiffers(l: string, e: Expr)
    requires Loose(e)
    ensures Eval(RightEnd(), Graft(l, e)) != Eval(RightEnd(), Bin("*", Leaf(l), e))
  {}

  // The value of an expression is whether it starts with the leaf w.
  function LeftEnd(w: string): Interp<int> {
    Interp(x => if x == w then 1 else 0, (_, _) => 0, (_, _) => 0, (_, _) => 0, (_, x, _) => x, (x, _, _) => x)
  }

  lemma {:induction false} LeftEndIs(w: string, l: string, e: Expr)
    ensures Eval(LeftEnd(w), Graft(l, e)) == if l == w then 1 else 0
    ensures Eval(LeftEnd(w), Bin("*", Leaf(w), e)) == 1
    decreases e
  {
    if e.Bin? { LeftEndIs(w, l, e.a); }
    if e.Cond? { LeftEndIs(w, l, e.test); }
  }

  ghost predicate AlwaysSame(a: Parsed<Statement>, b: Parsed<Statement>) {
    forall i: Interp<int> :: SameEffect(i, a, b)
  }

  // What can become of the statement of a product: itself, the product of another left side with
  // the leftmost factor, or none.
  ghost predicate Outcome(l: string, e: Expr, t: string, a: Parsed<Statement>) {
    a == Fail || a == Got(Assign(l, Graft(t, e)), []) || a == Got(Assign(l, Bin("*", Leaf(l), e)), [])
  }

  lemma OnlySameTrees(l: string, e: Expr, t: string, a: Parsed<Statement>, b: Parsed<Statement>)
    requires Outcome(l, e, t, a) && b == Got(Assign(l, Bin("*", Leaf(l), e)), [])
    ensures AlwaysSame(a, b) <==> a == b
  {
    if a.Got? && t != l {
      LeftEndIs(l, t, e);
      assert a != b ==> !SameEffect(LeftEnd(l), a, b);
    } else if a != b {
      GraftIsProduct(l, e);
      if Loose(e) { RightEndDiffers(l, e); }
      assert !SameEffect(RightEnd(), a, b);
    }
  }

  lemma Outcomes(pre: string, w: string, ws: string, r: string)
    requires Spaces(pre) && Lvalue(w) && Spaces(ws)
    requires Hits(pre + w + ws) == 0 && Hits(r) == 0 && ParseAll(Lex(r)).Got?
    ensures Outcome(w, ParseAll(Lex(r)).value, Tail(w), Tree(Prepass(pre + w + ws + ("*=" + r))))
  {
    RewrittenTree(pre, w, ws, r);
    SourceTree(pre, w, ws, r);
    hide Tree, Prepass, Lex, ParseAll, Graft, Hits, Lvalue, Blanks;
  }

  // The rewritten statement does what the source does under every meaning of the operators if
  // and only if it is left alone, or L has identifier characters only, no blanks among them, and
  // R is no binary or conditional expression.
  lemma MeaningKept(pre: string, w: string, ws: string, r: string)
    requires Spaces(pre) && Lvalue(w) && Spaces(ws)
    requires Hits(pre + w + ws) == 0 && Hits(r) == 0 && ParseAll(Lex(r)).Got?
    ensures AlwaysSame(Tree(Prepass(pre + w + ws + ("*=" + r))), Tree(pre + w + ws + ("*=" + r)))
       <==> LeftAlone(w, ws) || (Chain(w) && !Loose(ParseAll(Lex(r)).value))
  {
    hide *;
    Outcomes(pre, w, ws, r);
    SourceTree(pre, w, ws, r);
    TreeKept(pre, w, ws, r);
    OnlySameTrees(w, ParseAll(Lex(r)).value, Tail(w), Tree(Prepass(pre + w + ws + ("*=" + r))), Tree(pre + w + ws + ("*=" + r)));
  }

  // -- the left sides of shaders

  // A swizzle or a subscript.
  datatype Part = Field(name: string) | Index(inside: string)

  function Written(parts: seq<Part>): string {
    if parts == [] then []
    else (match parts[0] case Field(n) => "." + n case Index(x) => "[" + x + "]") + Written(parts[1..])
  }

  predicate PlainName(n: string) {
    && n != [] && ('a' <= n[0] <= 'z' || 'A' <= n[0] <= 'Z' || n[0] == '_')
    && forall k :: 0 <= k < |n| ==> 'a' <= n[k] <= 'z' || 'A' <= n[k] <= 'Z' || '0' <= n[k] <= '9' || n[k] == '_'
  }

  // A number, a name, or nothing.
  predicate PlainIndex(x: string) {
    forall k :: 0 <= k < |x| ==> 'a' <= x[k] <= 'z' || 'A' <= x[k] <= 'Z' || '0' <= x[k] <= '9' || x[k] == '_'
  }

  ghost predicate PlainParts(parts: seq<Part>) {
    forall k :: 0 <= k < |parts| ==> if parts[k].Field? then PlainName(parts[k].name) else PlainIndex(parts[k].inside)
  }

  lemma {:induction false} WholeConcat(a: string, b: string, depth: nat, dot: bool, d: nat, t: bool)
    requires (forall k :: 0 <= k < |a| ==> IsId(a[k])) && Reaches(a, depth, dot, d, t) && Whole(b, d, t)
    ensures Whole(a + b, depth, dot)
    decreases |a|
  {
    if a == [] {
      assert a + b == b;
    } else {
      assert (a + b)[1..] == a[1..] + b && (a + b)[0] == a[0];
      if a[0] == '[' { WholeConcat(a[1..], b, depth + 1, false, d, t); }
      else if a[0] == ']' { WholeConcat(a[1..], b, depth - 1, false, d, t); }
      else if depth > 0 { WholeConcat(a[1..], b, depth, false, d, t); }
      else { WholeConcat(a[1..], b, 0, a[0] == '.', d, t); }
    }
  }

  // Reading a leads from one state of Whole to another.
  predicate Reaches(a: string, depth: nat, dot: bool, d: nat, t: bool) {
    if a == [] then d == depth && t == dot
    else if a[0] == '[' then !dot && Reaches(a[1..], depth + 1, false, d, t)
    else if a[0] == ']' then depth > 0 && Reaches(a[1..], depth - 1, false, d, t)
    else if depth > 0 then Reaches(a[1..], depth, false, d, t)
    else IsId(a[0]) && (dot ==> IsLetter(a[0])) && Reaches(a[1..], 0, a[0] == '.', d, t)
  }

  lemma {:induction false} NameReaches(n: string, depth: nat, dot: bool)
    requires PlainIndex(n) && (dot ==> depth == 0 && PlainName(n))
    ensures Reaches(n, depth, dot, depth, if n == [] then dot else false)
    decreases |n|
  {
    if n != [] { NameReaches(n[1..], depth, false); }
  }

  lemma {:induction false} PartsAreWhole(parts: seq<Part>)
    requires PlainParts(parts)
    ensures Whole(Written(parts), 0, false) && forall k :: 0 <= k < |Written(parts)| ==> IsId(Written(parts)[k])
    decreases |parts|
  {
    if parts != [] {
      var rest := Written(parts[1..]);
      PartsAreWhole(parts[1..]);
      match parts[0]
      case Field(n) =>
        assert PlainName(n) && ("." + n + rest)[1..] == n + rest;
        NameReaches(n, 0, true);
        WholeConcat(n, rest, 0, true, 0, false);
      case Index(x) =>
        var y := "]" + rest;
        assert PlainIndex(x) && ("[" + x + "]" + rest)[1..] == x + y && y[1..] == rest;
        assert Whole(y, 1, false);
        NameReaches(x, 1, false);
        WholeConcat(x, y, 1, false, 1, false);
    }
  }

  // A name with swizzles and subscripts is a left side, and one that the pass finds whole.
  lemma NamesAreLvalues(n: string, parts: seq<Part>)
    requires PlainName(n) && PlainParts(parts)
    ensures Lvalue(n + Written(parts)) && Chain(n + Written(parts))
  {
    PartsAreWhole(parts);
    NameReaches(n, 0, false);
    WholeConcat(n, Written(parts), 0, false, 0, false);
  }

  // So the rewriting of such statements keeps the meaning exactly when R is one factor.
  lemma NamesAreKept(n: string, parts: seq<Part>, ws: string, r: string)
    requires PlainName(n) && PlainParts(parts) && |n + Written(parts)| < 48
    requires (forall k :: 0 <= k < |ws| ==> ws[k] in {' ', '\t'}) && NoMulAssign(r) && ParseAll(Lex(r)).Got?
    ensures var w := n + Written(parts);
            && Prepass(w + ws + ("*=" + r)) == w + ws + ("= " + w + " *") + r
            && (AlwaysSame(Tree(Prepass(w + ws + ("*=" + r))), Tree(w + ws + ("*=" + r))) <==> !Loose(ParseAll(Lex(r)).value))
  {
    hide *;
    var w := n + Written(parts);
    NamesAreLvalues(n, parts);
    NothingInFront(w, ws);
    HitsAre(w + ws);
    HitsAre(r);
    MeaningKept([], w, ws, r);
    Rewrites([], w, ws, r);
    TailLeft(w, ws);
  }

  lemma NothingInFront(w: string, ws: string)
    requires Chain(w) && forall k :: 0 <= k < |ws| ==> ws[k] in {' ', '\t'}
    ensures [] + w + ws == w + ws && Spaces([]) && Spaces(ws) && Blanks(ws) && NoMulAssign(w + ws)
  {
    assert forall k :: 0 <= k < |w + ws| ==> (w + ws)[k] != '*';
  }

  lemma TailLeft(w: string, ws: string)
    requires Chain(w) && |w| < 48 && Blanks(ws)
    ensures !LeftAlone(w, ws) && |w| < LIMIT
  {
    ChainTail(w);
  }

  // Then it does so for values of any other type, too.
  lemma ValuesKept<V>(i: Interp<V>, pre: string, w: string, ws: string, r: string)
    requires Spaces(pre) && Lvalue(w) && Spaces(ws)
    requires Hits(pre + w + ws) == 0 && Hits(r) == 0 && ParseAll(Lex(r)).Got?
    requires LeftAlone(w, ws) || (Chain(w) && !Loose(ParseAll(Lex(r)).value))
    ensures SameEffect(i, Tree(Prepass(pre + w + ws + ("*=" + r))), Tree(pre + w + ws + ("*=" + r)))
  {
    hide *;
    TreeKept(pre, w, ws, r);
    SameTrees(i, Tree(pre + w + ws + ("*=" + r)));
  }

  lemma SameTrees<V>(i: Interp<V>, a: Parsed<Statement>)
    ensures SameEffect(i, a, a)
  {}

  // -- when multiplication is associative

  ghost predicate Associative<V(!new)>(i: Interp<V>) {
    forall x, y, z :: i.bin("*", i.bin("*", x, y), z) == i.bin("*", x, i.bin("*", y, z))
  }

  // Nothing but multiplications down to the leftmost factor.
  predicate Product(e: Expr) { !Loose(e) || (e.Bin? && e.op == "*" && Product(e.a)) }

  lemma {:induction false} ProductValues<V(!new)>(i: Interp<V>, l: string, e: Expr)
    requires Associative(i) && Product(e)
    ensures Eval(i, Graft(l, e)) == Eval(i, Bin("*", Leaf(l), e))
    decreases e
  {
    if e.Bin? { ProductValues(i, l, e.a); }
  }

  // The value is the number of factors.
  function Factors(): Interp<int> {
    Interp(_ => 1, (_, _) => 1, (_, _) => 1, (_, _) => 1, (op, x, y) => if op == "*" then x + y else 1, (_, _, _) => 1)
  }

  lemma {:induction false} FactorsDiffer(l: string, e: Expr)
    ensures Eval(Factors(), Graft(l, e)) == Eval(Factors(), e) + if Product(e) then 1 else 0
    ensures Eval(Factors(), Bin("*", Leaf(l), e)) == Eval(Factors(), e) + 1
    decreases e
  {
    if e.Bin? && e.op == "*" { FactorsDiffer(l, e.a); }
  }

  ghost predicate SameByProducts(a: Parsed<Statement>, b: Parsed<Statement>) {
    forall i: Interp<int> :: Associative(i) ==> SameEffect(i, a, b)
  }

  lemma OnlyProducts(l: string, e: Expr, t: string, a: Parsed<Statement>, b: Parsed<Statement>)
    requires Outcome(l, e, t, a) && b == Got(Assign(l, Bin("*", Leaf(l), e)), [])
    ensures SameByProducts(a, b) <==> a == b || (a.Got? && t == l && Product(e))
  {
    if a.Got? && t != l {
      LeftEndIs(l, t, e);
      assert Associative(LeftEnd(l));
      assert a != b ==> !SameEffect(LeftEnd(l), a, b);
    } else if a != b {
      assert Associative(Factors());
      FactorsDiffer(l, e);
      if a.Got? && Product(e) {
        forall i: Interp<int> | Associative(i) ensures SameEffect(i, a, b) { ProductValues(i, l, e); }
      } else {
        assert !SameEffect(Factors(), a, b);
      }
    }
  }

  // When multiplication is associative, as that of integers is and that of floats up to
  // rounding, R may also be a product, and nothing else.
  lemma MeaningKeptByProducts(pre: string, w: string, ws: string, r: string)
    requires Spaces(pre) && Lvalue(w) && Spaces(ws)
    requires Hits(pre + w + ws) == 0 && Hits(r) == 0 && ParseAll(Lex(r)).Got?
    ensures SameByProducts(Tree(Prepass(pre + w + ws + ("*=" + r))), Tree(pre + w + ws + ("*=" + r)))
       <==> LeftAlone(w, ws) || (Chain(w) && Product(ParseAll(Lex(r)).value))
  {
    var e := ParseAll(Lex(r)).value;
    assert !Loose(e) ==> Product(e);
    ChainTail(w);
    hide *;
    Outcomes(pre, w, ws, r);
    SourceTree(pre, w, ws, r);
    RewrittenTree(pre, w, ws, r);
    TreeKept(pre, w, ws, r);
    OnlyProducts(w, e, Tail(w), Tree(Prepass(pre + w + ws + ("*=" + r))), Tree(pre + w + ws + ("*=" + r)));
  }

  // -- a literal with an exponent is one factor

  lemma ExponentIsOneWord()
    ensures Lex("1e-3") == [Word("1e-3")]
  {
    var s := "1e-3";
    assert s[1..] == "e-3" && s[2..] == "-3" && s[3..] == "3";
    assert WordLength("-3", 0, false) == 0 && WordLength("e-3", 0, false) == 1 && WordLength(s, 0, false) == 2;
    assert s[..1] == "1" && IsDigit(s[..1][0]);
    assert SignedExponent(s, 2);
    assert WordLength("3", 0, false) == 1 && TokenLength(s) == 4;
    assert s[..4] == s && s[4..] == [];
  }

  lemma ExponentsAreKept()
    ensures Tree(Prepass("x *=1e-3")) == Tree("x *=1e-3") == Got(Assign("x", Bin("*", Leaf("x"), Leaf("1e-3"))), [])
  {
    ExponentIsOneWord();
    WordParses("1e-3");
    Literals();
    LiteralsOfExponent();
    ChainTail("x");
    hide *;
    TreeKept([], "x", " ", "1e-3");
    SourceTree([], "x", " ", "1e-3");
    NotLoose("1e-3");
  }

  lemma NotLoose(w: string)
    ensures !Loose(Leaf(w))
  {}

  lemma WordParses(w: string)
    requires !IsSuffix(w)
    ensures ParseAll([Word(w)]) == Got(Leaf(w), [])
  {
    var ts := [Word(w)];
    assert ParseLevel(0, ts) == ParseUnary(ts) == Got(Leaf(w), []);
    Rises(0, LEVELS, ts);
    AllParsed(ts);
  }

  lemma LiteralsOfExponent()
    ensures "x " + ("*=" + "1e-3") == "x *=1e-3" && Hits("1e-3") == 0
  {
    assert "1e-3"[1..] == "e-3" && "e-3"[1..] == "-3" && "-3"[1..] == "3";
    var t := "x " + ("*=" + "1e-3");
    assert |t| == 8 && t[0] == 'x' && t[1] == ' ' && t[2] == '*' && t[3] == '=' && t[4] == '1' && t[5] == 'e';
  }
}
