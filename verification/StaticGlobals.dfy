// static_globals of loader/default_dynlib.c: every file-scope declaration of a shader that is
// not an interface variable gets the prefix "static ".

module StaticGlobals {
  import opened Common
  import opened TextBuffer

  // ---- lines

  // The length of the first line of s, without its newline.
  function LineLength(s: string): (n: nat)
    ensures n <= |s| && (n < |s| ==> s[n] == '\n') && (forall k :: 0 <= k < n ==> s[k] != '\n')
  {
    if s == [] || s[0] == '\n' then 0 else 1 + LineLength(s[1..])
  }

  function Indent(line: string): (b: nat)
    ensures b <= |line| && (forall k :: 0 <= k < b ==> IsBlank(line[k])) && (b < |line| ==> !IsBlank(line[b]))
  {
    if line == [] || !IsBlank(line[0]) then 0 else 1 + Indent(line[1..])
  }

  // The length of t without trailing blanks and carriage returns.
  function Trimmed(t: string): (n: nat)
    ensures n <= |t|
  {
    if t != [] && (t[|t| - 1] == '\r' || IsBlank(t[|t| - 1])) then Trimmed(t[..|t| - 1]) else |t|
  }

  function Braces(line: string): int {
    if line == [] then 0
    else (if line[0] == '{' then 1 else if line[0] == '}' then -1 else 0) + Braces(line[1..])
  }

  predicate StartsWith(t: string, word: string) { word <= t }

  const PREFIX: string := "static "

  // A declaration at file scope that is not to be left alone.
  predicate Qualifies(line: string, depth: int) {
    var t := line[Indent(line)..];
    var n := Trimmed(t);
    && depth == 0 && n > 2 && t[n - 1] == ';'
    && '(' !in t && '=' !in t && '{' !in t && '}' !in t
    && t[0] != '#' && t[0] != '/' && !StartsWith(t, "uniform") && !StartsWith(t, "attribute")
    && !StartsWith(t, "varying") && !StartsWith(t, "struct") && !StartsWith(t, "precision")
    && !StartsWith(t, "const") && !StartsWith(t, "invariant") && !StartsWith(t, "static")
  }

  function Fix(line: string, depth: int): string {
    if Qualifies(line, depth) then line[..Indent(line)] + PREFIX + line[Indent(line)..] else line
  }

  // The text with f applied to each line and the brace depth it starts at.
  function MapLines(s: string, depth: int, f: (string, int) -> string): string
    decreases |s|
  {
    if s == [] then []
    else
      var n := LineLength(s);
      f(s[..n], depth) + if n < |s| then "\n" + MapLines(s[n + 1..], depth + Braces(s[..n]), f) else []
  }

  function Pass(s: string): string { MapLines(s, 0, Fix) }

  // ---- the lines of a mapped text

  predicate OneLine(s: string) { '\n' !in s }

  // f keeps lines lines, non-empty ones non-empty, and the braces on them.
  ghost predicate KeepsLine(f: (string, int) -> string, line: string, depth: int) {
    OneLine(f(line, depth)) && Braces(f(line, depth)) == Braces(line) && (line != [] ==> f(line, depth) != [])
  }

  ghost predicate KeepsLines(f: (string, int) -> string) {
    forall line: string, depth: int :: OneLine(line) ==> KeepsLine(f, line, depth)
  }

  lemma {:induction false} LineOfConcat(line: string, rest: string)
    requires OneLine(line) && (rest == [] || rest[0] == '\n')
    ensures LineLength(line + rest) == |line|
  {
    if line == [] {
      assert line + rest == rest;
    } else {
      assert (line + rest)[1..] == line[1..] + rest;
      assert forall c :: c in line[1..] ==> c in line;
      LineOfConcat(line[1..], rest);
    }
  }

  lemma FirstLine(s: string)
    ensures OneLine(s[..LineLength(s)])
  {}

  lemma MapLinesOfLine(line: string, rest: string, depth: int, f: (string, int) -> string)
    requires OneLine(line)
    ensures MapLines(line + ("\n" + rest), depth, f)
            == f(line, depth) + ("\n" + MapLines(rest, depth + Braces(line), f))
  {
    var s := line + ("\n" + rest);
    LineOfConcat(line, "\n" + rest);
    assert s[..|line|] == line && s[|line| + 1..] == rest;
  }

  lemma MapLinesOfLast(line: string, depth: int, f: (string, int) -> string)
    requires OneLine(line) && line != []
    ensures MapLines(line, depth, f) == f(line, depth)
  {
    LineOfConcat(line, []);
    assert line + [] == line && line[..|line|] == line;
  }

  lemma SplitAt(s: string, n: nat)
    requires n < |s| && s[n] == '\n'
    ensures s == s[..n] + ("\n" + s[n + 1..])
  {}

  // A text is its first line and the rest.
  lemma Lines(s: string)
    ensures var n := LineLength(s); OneLine(s[..n]) && if n < |s| then s == s[..n] + ("\n" + s[n + 1..]) else s == s[..n]
  {
    FirstLine(s);
    hide LineLength;
    hide OneLine;
    var n := LineLength(s);
    if n < |s| { SplitAt(s, n); }
  }

  lemma KeepsAt(f: (string, int) -> string, line: string, depth: int)
    requires KeepsLines(f) && OneLine(line)
    ensures OneLine(f(line, depth)) && Braces(f(line, depth)) == Braces(line) && (line != [] ==> f(line, depth) != [])
  {
    assert KeepsLine(f, line, depth);
  }

  lemma TwiceLine(line: string, rest: string, depth: int, f: (string, int) -> string,
                  g: (string, int) -> string, h: (string, int) -> string)
    requires OneLine(line) && OneLine(f(line, depth)) && Braces(f(line, depth)) == Braces(line)
    requires h(line, depth) == g(f(line, depth), depth)
    requires var d := depth + Braces(line); MapLines(MapLines(rest, d, f), d, g) == MapLines(rest, d, h)
    ensures var s := line + ("\n" + rest); MapLines(MapLines(s, depth, f), depth, g) == MapLines(s, depth, h)
  {
    hide *;
    var d := depth + Braces(line);
    MapLinesOfLine(line, rest, depth, f);
    MapLinesOfLine(line, rest, depth, h);
    MapLinesOfLine(f(line, depth), MapLines(rest, d, f), depth, g);
  }

  lemma TwiceLast(line: string, depth: int, f: (string, int) -> string, g: (string, int) -> string,
                  h: (string, int) -> string)
    requires OneLine(line) && KeepsLines(f) && h(line, depth) == g(f(line, depth), depth)
    ensures MapLines(MapLines(line, depth, f), depth, g) == MapLines(line, depth, h)
  {
    if line != [] {
      KeepsAt(f, line, depth);
      MapLinesOfLast(line, depth, f);
      MapLinesOfLast(line, depth, h);
      MapLinesOfLast(f(line, depth), depth, g);
    }
  }

  // Two line maps in a row are one.
  lemma {:induction false} MapLinesTwice(s: string, depth: int, f: (string, int) -> string,
                                         g: (string, int) -> string, h: (string, int) -> string)
    requires KeepsLines(f)
    requires forall line: string, d: int :: OneLine(line) ==> h(line, d) == g(f(line, d), d)
    ensures MapLines(MapLines(s, depth, f), depth, g) == MapLines(s, depth, h)
    decreases |s|
  {
    hide *;
    var n := LineLength(s);
    Lines(s);
    if n < |s| {
      MapLinesTwice(s[n + 1..], depth + Braces(s[..n]), f, g, h);
      KeepsAt(f, s[..n], depth);
      TwiceLine(s[..n], s[n + 1..], depth, f, g, h);
    } else {
      TwiceLast(s, depth, f, g, h);
    }
  }

  // ---- one line

  predicate IsDeclaration(line: string) { StartsWith(line[Indent(line)..], PREFIX) }

  // Takes the prefix away from a file-scope line.
  function Unfix(line: string, depth: int): string {
    if depth == 0 && IsDeclaration(line) then line[..Indent(line)] + line[Indent(line) + 7..] else line
  }

  lemma {:induction false} IndentOf(a: string, rest: string)
    requires forall k :: 0 <= k < |a| ==> IsBlank(a[k])
    requires rest == [] || !IsBlank(rest[0])
    ensures Indent(a + rest) == |a|
  {
    if a == [] {
      assert a + rest == rest;
    } else {
      assert (a + rest)[1..] == a[1..] + rest;
      IndentOf(a[1..], rest);
    }
  }

  lemma {:induction false} BracesOfConcat(a: string, b: string)
    ensures Braces(a + b) == Braces(a) + Braces(b)
  {
    if a == [] {
      assert a + b == b;
    } else {
      assert (a + b)[1..] == a[1..] + b;
      BracesOfConcat(a[1..], b);
    }
  }

  lemma PrefixBraces()
    ensures Braces(PREFIX) == 0
  {
    assert Braces("tic ") == Braces("ic ") == Braces("c ") == Braces(" ") == 0;
    assert Braces("static ") == Braces("tatic ") == Braces("atic ") == Braces("tic ");
  }

  lemma FixedShape(a: string, rest: string)
    requires (forall k :: 0 <= k < |a| ==> IsBlank(a[k])) && rest != [] && !IsBlank(rest[0])
    ensures var line, t := a + rest, a + PREFIX + rest;
            && Indent(line) == |a| && Indent(t) == |a| && t[|a|..] == PREFIX + rest && t[..|a|] == a
            && Braces(t) == Braces(line) && (OneLine(line) ==> OneLine(t))
  {
    assert a + PREFIX + rest == a + (PREFIX + rest);
    IndentOf(a, rest);
    IndentOf(a, PREFIX + rest);
    BracesOfConcat(a, rest);
    BracesOfConcat(a, PREFIX + rest);
    BracesOfConcat(PREFIX, rest);
    PrefixBraces();
    hide Indent;
    hide Braces;
    assert OneLine(PREFIX);
    assert forall c :: c in a + PREFIX + rest ==> c in a + rest || c in PREFIX;
  }

  lemma QualifiesShape(line: string, depth: int)
    requires Qualifies(line, depth)
    ensures depth == 0 && Indent(line) < |line| && !StartsWith(line[Indent(line)..], "static")
  {
    hide Trimmed;
  }

  lemma PrefixedIsStatic(rest: string)
    ensures StartsWith(PREFIX + rest, PREFIX) && StartsWith(PREFIX + rest, "static")
  {
    assert (PREFIX + rest)[..6] == "static";
  }

  // The prefixed line: same indentation, and no longer a line to be fixed.
  lemma FixedLine(line: string, depth: int)
    requires Qualifies(line, depth)
    ensures var b, t := Indent(line), Fix(line, depth);
            && Indent(t) == b && t[..b] == line[..b] && t[b..] == PREFIX + line[b..]
            && !Qualifies(t, depth) && IsDeclaration(t) && Unfix(t, depth) == line
            && Braces(t) == Braces(line) && (OneLine(line) ==> OneLine(t))
  {
    var b := Indent(line);
    QualifiesShape(line, depth);
    var a, rest := line[..b], line[b..];
    var t := a + PREFIX + rest;
    assert a + rest == line && Fix(line, depth) == t;
    FixedShape(a, rest);
    PrefixedIsStatic(rest);
    if Qualifies(t, depth) { QualifiesShape(t, depth); }
    hide Qualifies;
    hide Indent;
    hide Braces;
    assert t[b + 7..] == rest;
  }

  lemma FixKeepsLines()
    ensures KeepsLines(Fix)
  {
    forall line: string, depth: int | OneLine(line) ensures KeepsLine(Fix, line, depth) {
      if Qualifies(line, depth) { FixedLine(line, depth); }
    }
  }

  // Running the pass twice changes nothing more.
  lemma PassTwice(s: string)
    ensures Pass(Pass(s)) == Pass(s)
  {
    FixKeepsLines();
    forall line: string, d: int | OneLine(line) ensures Fix(line, d) == Fix(Fix(line, d), d) {
      if Qualifies(line, d) { FixedLine(line, d); }
    }
    hide *;
    PassUnfold(s);
    PassUnfold(Pass(s));
    MapLinesTwice(s, 0, Fix, Fix, Fix);
  }

  lemma PassUnfold(s: string)
    ensures Pass(s) == MapLines(s, 0, Fix)
  {}

  // No file-scope line of s is already declared static.
  predicate NoStatics(s: string, depth: int)
    decreases |s|
  {
    s != [] ==>
      var n := LineLength(s);
      && !(depth == 0 && IsDeclaration(s[..n]))
      && (n < |s| ==> NoStatics(s[n + 1..], depth + Braces(s[..n])))
  }

  function Unfixed(line: string, depth: int): string { Unfix(Fix(line, depth), depth) }

  lemma UnfixedLine(line: string, depth: int)
    ensures if depth == 0 && IsDeclaration(line) then |Unfixed(line, depth)| < |line| else Unfixed(line, depth) == line
  {
    if Qualifies(line, depth) {
      FixedLine(line, depth);
      QualifiesShape(line, depth);
      DeclarationIsStatic(line);
    }
  }

  lemma DeclarationIsStatic(line: string)
    ensures IsDeclaration(line) ==> StartsWith(line[Indent(line)..], "static")
  {
    var t := line[Indent(line)..];
    if PREFIX <= t { assert t[..6] == PREFIX[..6] == "static"; }
  }

  lemma NoStaticsOfLine(line: string, rest: string, depth: int)
    requires OneLine(line)
    ensures NoStatics(line + ("\n" + rest), depth)
            <==> !(depth == 0 && IsDeclaration(line)) && NoStatics(rest, depth + Braces(line))
  {
    var s := line + ("\n" + rest);
    LineOfConcat(line, "\n" + rest);
    assert s[..|line|] == line && s[|line| + 1..] == rest;
    hide LineLength;
    hide Braces;
    hide IsDeclaration;
  }

  lemma NoStaticsOfLast(line: string, depth: int)
    requires OneLine(line) && line != []
    ensures NoStatics(line, depth) <==> !(depth == 0 && IsDeclaration(line))
  {
    LineOfConcat(line, []);
    assert line + [] == line && line[..|line|] == line;
    hide IsDeclaration;
  }

  // The effect of both maps on a text of a given shape.
  predicate Undone(t: string, s: string, clean: bool) { (if clean then t == s else |t| < |s|) && |t| <= |s| }

  lemma UndoneLine(line': string, line: string, rest': string, rest: string, a: bool, b: bool)
    requires Undone(line', line, a) && Undone(rest', rest, b)
    ensures Undone(line' + ("\n" + rest'), line + ("\n" + rest), a && b)
  {}

  lemma UnfixedTextStep(line: string, rest: string, depth: int)
    requires OneLine(line)
    requires var d := depth + Braces(line); Undone(MapLines(rest, d, Unfixed), rest, NoStatics(rest, d))
    ensures var s := line + ("\n" + rest); Undone(MapLines(s, depth, Unfixed), s, NoStatics(s, depth))
  {
    hide *;
    var d := depth + Braces(line);
    UnfixedIsUndone(line, depth);
    MapLinesOfLine(line, rest, depth, Unfixed);
    NoStaticsOfLine(line, rest, depth);
    UndoneLine(Unfixed(line, depth), line, MapLines(rest, d, Unfixed), rest,
               !(depth == 0 && IsDeclaration(line)), NoStatics(rest, d));
  }

  lemma UnfixedTextLast(line: string, depth: int)
    requires OneLine(line)
    ensures Undone(MapLines(line, depth, Unfixed), line, NoStatics(line, depth))
  {
    if line != [] {
      UnfixedIsUndone(line, depth);
      MapLinesOfLast(line, depth, Unfixed);
      NoStaticsOfLast(line, depth);
    }
  }

  lemma {:induction false} UnfixedText(s: string, depth: int)
    ensures Undone(MapLines(s, depth, Unfixed), s, NoStatics(s, depth))
    decreases |s|
  {
    hide *;
    var n := LineLength(s);
    Lines(s);
    if n < |s| {
      UnfixedText(s[n + 1..], depth + Braces(s[..n]));
      UnfixedTextStep(s[..n], s[n + 1..], depth);
    } else {
      UnfixedTextLast(s, depth);
    }
  }

  lemma UnfixedIsUndone(line: string, depth: int)
    ensures Undone(Unfixed(line, depth), line, !(depth == 0 && IsDeclaration(line)))
  {
    UnfixedLine(line, depth);
    hide Unfixed;
    hide IsDeclaration;
  }

  // Taking the prefix away from every file-scope line that has it gives the source back,
  // exactly when the source had no such line of its own.
  lemma PassIsUndone(s: string)
    ensures MapLines(Pass(s), 0, Unfix) == s <==> NoStatics(s, 0)
  {
    FixKeepsLines();
    hide *;
    PassUnfold(s);
    UnfixedIs();
    MapLinesTwice(s, 0, Fix, Unfix, Unfixed);
    UnfixedText(s, 0);
    UndoneMeans(MapLines(s, 0, Unfixed), s, NoStatics(s, 0));
  }

  lemma UndoneMeans(t: string, s: string, clean: bool)
    requires Undone(t, s, clean)
    ensures t == s <==> clean
  {}

  lemma UnfixedIs()
    ensures forall line: string, d: int :: OneLine(line) ==> Unfixed(line, d) == Unfix(Fix(line, d), d)
  {}

  // ---- the pass itself

  function Newlines(s: string): nat {
    if s == [] then 0 else (if s[0] == '\n' then 1 else 0) + Newlines(s[1..])
  }

  lemma {:induction false} NewlinesOfConcat(a: string, b: string)
    ensures Newlines(a + b) == Newlines(a) + Newlines(b)
  {
    if a == [] {
      assert a + b == b;
    } else {
      assert (a + b)[1..] == a[1..] + b;
      NewlinesOfConcat(a[1..], b);
    }
  }

  lemma FixSize(line: string, depth: int)
    ensures |Fix(line, depth)| <= |line| + 7
  {}

  lemma {:induction false} NewlinesAre(s: string)
    ensures Newlines(s) == multiset(s)['\n']
  {
    if s != [] {
      assert s == [s[0]] + s[1..];
      NewlinesAre(s[1..]);
    }
  }

  lemma NewlineCount(line: string, rest: string)
    ensures Newlines(line + ("\n" + rest)) >= 1 + Newlines(rest)
  {
    NewlinesOfConcat(line, "\n" + rest);
    assert ("\n" + rest)[1..] == rest;
  }

  // Seven characters per line are room enough.
  lemma {:induction false} PassSize(s: string, depth: int)
    ensures |MapLines(s, depth, Fix)| <= |s| + 7 * (1 + Newlines(s))
    decreases |s|
  {
    hide *;
    var n := LineLength(s);
    Lines(s);
    FixSize(s[..n], depth);
    if n < |s| {
      var rest := s[n + 1..];
      PassSize(rest, depth + Braces(s[..n]));
      MapLinesOfLine(s[..n], rest, depth, Fix);
      NewlineCount(s[..n], rest);
    } else if s != [] {
      MapLinesOfLast(s, depth, Fix);
    } else {
      MapLinesOfNothing(depth, Fix);
    }
  }

  // ---- the pass in terms of characters

  lemma {:induction false} BracesCount(s: string)
    ensures Braces(s) + multiset(s)['}'] == multiset(s)['{']
  {
    if s != [] {
      assert s == [s[0]] + s[1..];
      BracesCount(s[1..]);
    }
  }

  lemma {:induction false} TrimmedOf(t: string, w: string)
    requires t != [] && t[|t| - 1] !in {' ', '\t', '\r'} && forall k :: 0 <= k < |w| ==> w[k] in {' ', '\t', '\r'}
    ensures Trimmed(t + w) == |t|
  {
    if w == [] {
      assert t + w == t;
    } else {
      assert (t + w)[..|t + w| - 1] == t + w[..|w| - 1];
      TrimmedOf(t, w[..|w| - 1]);
    }
  }

  lemma EmptyStays(depth: int)
    ensures Fix([], depth) == []
  {}

  // The text falls apart at a newline.
  lemma {:induction false} FixSplits(s: string, post: string, depth: int)
    ensures MapLines(s + ("\n" + post), depth, Fix)
            == MapLines(s, depth, Fix) + ("\n" + MapLines(post, depth + Braces(s), Fix))
    decreases |s|
  {
    hide *;
    var n := LineLength(s);
    var line := s[..n];
    Lines(s);
    if n == |s| {
      assert line == s;
      MapLinesOfLine(s, post, depth, Fix);
      EmptyStays(depth);
      if s == [] { MapLinesOfNothing(depth, Fix); } else { MapLinesOfLast(s, depth, Fix); }
    } else {
      var rest := s[n + 1..];
      FixSplits(rest, post, depth + Braces(line));
      FixSplitsLine(line, rest, post, depth);
    }
  }

  lemma FixSplitsLine(line: string, rest: string, post: string, depth: int)
    requires OneLine(line)
    requires var d := depth + Braces(line);
             MapLines(rest + ("\n" + post), d, Fix) == MapLines(rest, d, Fix) + ("\n" + MapLines(post, d + Braces(rest), Fix))
    ensures var s := line + ("\n" + rest);
            MapLines(s + ("\n" + post), depth, Fix) == MapLines(s, depth, Fix) + ("\n" + MapLines(post, depth + Braces(s), Fix))
  {
    hide *;
    var d := depth + Braces(line);
    MapLinesOfLine(line, rest, depth, Fix);
    MapLinesOfLine(line, rest + ("\n" + post), depth, Fix);
    BracesOfConcat(line, "\n" + rest);
    NewlineIsNoBrace(rest);
    FourRegrouped(line, "\n", rest, "\n" + post);
    FourRegrouped(Fix(line, depth), "\n", MapLines(rest, d, Fix), "\n" + MapLines(post, d + Braces(rest), Fix));
  }

  lemma NewlineIsNoBrace(rest: string)
    ensures Braces("\n" + rest) == Braces(rest)
  {
    assert ("\n" + rest)[1..] == rest;
  }

  lemma FourRegrouped(a: string, b: string, c: string, d: string)
    ensures (a + (b + c)) + d == a + (b + (c + d))
  {}

  // What becomes of a line: a is its indentation, t its text, and w the blanks and the carriage
  // return behind it. With as many braces opened as closed before it, it is prefixed unless it is
  // no plain declaration or starts with one of the eight words.
  predicate IsPlain(t: string, w: string) {
    && |t| > 2 && t[|t| - 1] == ';'
    && '(' !in t + w && '=' !in t + w && '{' !in t + w && '}' !in t + w && t[0] != '#' && t[0] != '/'
    && !("uniform" <= t + w) && !("attribute" <= t + w) && !("varying" <= t + w) && !("struct" <= t + w)
    && !("precision" <= t + w) && !("const" <= t + w) && !("invariant" <= t + w) && !("static" <= t + w)
  }

  lemma LineInContext(pre: string, a: string, t: string, w: string, post: string)
    requires pre == [] || pre[|pre| - 1] == '\n'
    requires post == [] || post[0] == '\n'
    requires (forall k :: 0 <= k < |a| ==> a[k] in {' ', '\t'}) && (forall k :: 0 <= k < |w| ==> w[k] in {' ', '\t', '\r'})
    requires t != [] && t[0] !in {' ', '\t'} && t[|t| - 1] !in {' ', '\t', '\r'} && '\n' !in t
    ensures var fixed := if multiset(pre)['{'] == multiset(pre)['}'] && IsPlain(t, w) then a + "static " + (t + w) else a + (t + w);
            var all := Pass(pre + (a + (t + w)) + post);
            && Pass(pre) + fixed <= all
            && (post == [] ==> Pass(pre) + fixed == all)
            && (post != [] ==> |all| > |Pass(pre) + fixed| && all[|Pass(pre) + fixed|] == '\n')
  {
    hide *;
    var line := a + (t + w);
    var d := Braces(pre);
    BracesCount(pre);
    LineIsFixed(a, t, w, d);
    OneLineOf(a, t, w);
    PassFrom(pre, line + post);
    assert pre + line + post == pre + (line + post);
    if post == [] {
      assert line + post == line;
      MapLinesOfLast(line, d, Fix);
    } else {
      assert post == "\n" + post[1..];
      MapLinesOfLine(line, post[1..], d, Fix);
      InFront(Pass(pre), Fix(line, d), "\n" + MapLines(post[1..], d + Braces(line), Fix));
    }
  }

  lemma InFront(a: string, b: string, c: string)
    ensures a + b <= a + (b + c) && |a + b| + |c| == |a + (b + c)|
    ensures c != [] ==> (a + (b + c))[|a + b|] == c[0]
  {
    assert a + (b + c) == (a + b) + c;
  }

  lemma OneLineOf(a: string, t: string, w: string)
    requires (forall k :: 0 <= k < |a| ==> a[k] in {' ', '\t'}) && (forall k :: 0 <= k < |w| ==> w[k] in {' ', '\t', '\r'})
    requires t != [] && '\n' !in t
    ensures OneLine(a + (t + w)) && a + (t + w) != []
  {}

  // After whole lines the pass goes on with their braces.
  lemma PassFrom(pre: string, s: string)
    requires pre == [] || pre[|pre| - 1] == '\n'
    ensures Pass(pre + s) == Pass(pre) + MapLines(s, Braces(pre), Fix)
  {
    hide *;
    PassUnfold(pre);
    PassUnfold(pre + s);
    NoBraces();
    if pre == [] {
      assert pre + s == s;
      MapLinesOfNothing(0, Fix);
      assert [] + MapLines(s, 0, Fix) == MapLines(s, 0, Fix);
    } else {
      var p := pre[..|pre| - 1];
      assert pre == p + ("\n" + []) && pre + s == p + ("\n" + s);
      FixSplits(p, s, 0);
      FixSplits(p, [], 0);
      BracesOfConcat(p, "\n" + []);
      NewlineIsNoBrace([]);
      MapLinesOfNothing(Braces(p), Fix);
      assert "\n" + [] == "\n";
      Assoc(MapLines(p, 0, Fix), "\n", MapLines(s, Braces(p), Fix));
    }
  }

  lemma NoBraces()
    ensures Braces([]) == 0
  {}

  lemma LineIsFixed(a: string, t: string, w: string, d: int)
    requires (forall k :: 0 <= k < |a| ==> a[k] in {' ', '\t'}) && (forall k :: 0 <= k < |w| ==> w[k] in {' ', '\t', '\r'})
    requires t != [] && t[0] !in {' ', '\t'} && t[|t| - 1] !in {' ', '\t', '\r'}
    ensures Fix(a + (t + w), d) == if d == 0 && IsPlain(t, w) then a + "static " + (t + w) else a + (t + w)
  {
    var u := t + w;
    assert u[0] == t[0] && u[|t| - 1] == t[|t| - 1];
    TrimmedOf(t, w);
    IndentOf(a, u);
    assert (a + u)[|a|..] == u && (a + u)[..|a|] == a;
    hide Trimmed, Indent;
  }

  lemma MapLinesOfNothing(depth: int, f: (string, int) -> string)
    ensures MapLines([], depth, f) == []
  {}

  method FindLineEnd(src: string, i: nat) returns (e: nat)
    requires i <= |src|
    ensures i <= e <= |src| && e == i + LineLength(src[i..])
  {
    e := i;
    while e < |src| && src[e] != '\n'
      invariant i <= e <= |src| && i + LineLength(src[i..]) == e + LineLength(src[e..])
    {
      assert src[e..][1..] == src[e + 1..] && src[e..][0] == src[e];
      e := e + 1;
    }
    assert e < |src| ==> src[e..][0] == src[e];
  }

  method CountLines(src: string) returns (lines: nat)
    ensures lines == 1 + Newlines(src)
  {
    lines := 1;
    var i := 0;
    while i < |src|
      invariant 0 <= i <= |src| && lines + Newlines(src[i..]) == 1 + Newlines(src)
    {
      assert src[i..][1..] == src[i + 1..] && src[i..][0] == src[i];
      if src[i] == '\n' { lines := lines + 1; }
      i := i + 1;
    }
  }

  method CountBraces(line: string, start: int) returns (depth: int)
    ensures depth == start + Braces(line)
  {
    depth := start;
    var k := 0;
    while k < |line|
      invariant 0 <= k <= |line| && depth + Braces(line[k..]) == start + Braces(line)
    {
      assert line[k..][1..] == line[k + 1..] && line[k..][0] == line[k];
      if line[k] == '{' { depth := depth + 1; } else if line[k] == '}' { depth := depth - 1; }
      k := k + 1;
    }
  }

  method SkipBlanks(line: string) returns (b: nat)
    ensures b == Indent(line)
  {
    b := 0;
    while b < |line| && IsBlank(line[b])
      invariant 0 <= b <= |line| && Indent(line) == b + Indent(line[b..])
    {
      assert line[b..][1..] == line[b + 1..] && line[b..][0] == line[b];
      b := b + 1;
    }
    assert b < |line| ==> line[b..][0] == line[b];
  }

  method TrimEnd(t: string) returns (n: nat)
    ensures n == Trimmed(t)
  {
    n := |t|;
    assert t[..n] == t;
    while n > 0 && (t[n - 1] == '\r' || IsBlank(t[n - 1]))
      invariant 0 <= n <= |t| && Trimmed(t) == Trimmed(t[..n])
    {
      assert t[..n][..n - 1] == t[..n - 1] && t[..n][n - 1] == t[n - 1];
      n := n - 1;
    }
    assert n > 0 ==> t[..n][n - 1] == t[n - 1];
  }

  method FixLine(line: string, depth: int) returns (fixed: string)
    ensures fixed == Fix(line, depth)
  {
    var b := SkipBlanks(line);
    var t := line[b..];
    var n := TrimEnd(t);
    if depth == 0 && n > 2 && t[n - 1] == ';' && '(' !in t && '=' !in t && '{' !in t && '}' !in t
       && t[0] != '#' && t[0] != '/' && !StartsWith(t, "uniform") && !StartsWith(t, "attribute")
       && !StartsWith(t, "varying") && !StartsWith(t, "struct") && !StartsWith(t, "precision")
       && !StartsWith(t, "const") && !StartsWith(t, "invariant") && !StartsWith(t, "static") {
      fixed := line[..b] + PREFIX + t;
    } else {
      fixed := line;
    }
  }

  // What is left to emit at position i, which may be one past the end of the text.
  function Rest(src: string, i: nat): string { if i <= |src| then src[i..] else [] }

  lemma RestIs(src: string, i: nat)
    ensures i <= |src| ==> Rest(src, i) == src[i..]
    ensures i > |src| ==> Rest(src, i) == []
  {}

  lemma Tail(src: string, i: nat, e: nat)
    requires i <= e <= |src|
    ensures src[i..][..e - i] == src[i..e] && (e < |src| ==> src[i..][e - i + 1..] == src[e + 1..])
    ensures e == |src| ==> src[i..] == src[i..e]
  {}

  function Break(src: string, e: nat): string { if e < |src| then "\n" else [] }

  lemma RestStep(src: string, i: nat, e: nat, depth: int)
    requires i < |src| && e == i + LineLength(src[i..])
    ensures i <= e <= |src|
    ensures MapLines(Rest(src, i), depth, Fix)
            == Fix(src[i..e], depth)
               + (Break(src, e) + MapLines(Rest(src, e + 1), depth + Braces(src[i..e]), Fix))
  {
    hide *;
    Lines(src[i..]);
    RestIs(src, i);
    RestIs(src, e + 1);
    Tail(src, i, e);
    BreakIs(src, e);
    if e < |src| {
      MapLinesOfLine(src[i..e], src[e + 1..], depth, Fix);
    } else {
      MapLinesOfLast(src[i..e], depth, Fix);
      MapLinesOfNothing(depth + Braces(src[i..e]), Fix);
      AppendNothing(Fix(src[i..e], depth));
    }
  }

  lemma BreakIs(src: string, e: nat)
    ensures Break(src, e) == if e < |src| then "\n" else []
  {}

  lemma AppendNothing(a: string)
    ensures a + ([] + []) == a
  {}

  // The body of the loop: one line and its newline.
  method EmitLine(buf: array<char>, o: nat, src: string, i: nat, depth: int) returns (e: nat, o': nat, depth': int)
    requires i < |src| && o + |MapLines(Rest(src, i), depth, Fix)| <= buf.Length
    modifies buf
    ensures i <= e <= |src| && o <= o' <= buf.Length && depth' == depth + Braces(src[i..e])
    ensures MapLines(Rest(src, i), depth, Fix)
            == Fix(src[i..e], depth) + (Break(src, e) + MapLines(Rest(src, e + 1), depth', Fix))
    ensures o' == o + |Fix(src[i..e], depth)| + |Break(src, e)|
    ensures buf[..o'] == old(buf[..o]) + Fix(src[i..e], depth) + Break(src, e)
  {
    hide *;
    e := FindLineEnd(src, i);
    RestStep(src, i, e, depth);
    BreakIs(src, e);
    var fixed := FixLine(src[i..e], depth);
    Append(buf, o, fixed);
    o' := o + |fixed|;
    depth' := CountBraces(src[i..e], depth);
    Append(buf, o', if e < |src| then "\n" else []);
    o' := o' + |Break(src, e)|;
  }

  lemma Regroups(done: string, fixed: string, nl: string, rest: string)
    ensures done + (fixed + (nl + rest)) == (done + fixed + nl) + rest
  {
    Assoc(done + fixed, nl, rest);
    Assoc(done, fixed, nl + rest);
  }

  // The buffer of len + 7 * lines + 1 characters is large enough, and what ends up in it is the
  // text with its declarations prefixed, and a NUL.
  method Run(src: string, heapFull: bool) returns (out: array?<char>)
    ensures out == null <==> heapFull
    ensures out != null ==> out.Length == |src| + 7 * (1 + multiset(src)['\n']) + 1
    ensures out != null ==> |Pass(src)| < out.Length && out[..|Pass(src)|] == Pass(src) && out[|Pass(src)|] == '\0'
  {
    NewlinesAre(src);
    hide *;
    var lines := CountLines(src);
    if heapFull { return null; }
    var buf := new char[|src| + lines * 7 + 1](_ => ' ');
    ghost var all := Pass(src);
    PassUnfold(src);
    PassSize(src, 0);
    RestIs(src, 0);
    var o, depth, i := 0, 0, 0;
    ghost var rest := MapLines(Rest(src, i), depth, Fix);
    assert src[0..] == src && buf[..0] + rest == all;
    while i < |src|
      invariant 0 <= i && 0 <= o && o + |rest| == |all| && rest == MapLines(Rest(src, i), depth, Fix)
      invariant buf[..o] + rest == all
    {
      ghost var done, depth0, i0 := buf[..o], depth, i;
      var e;
      e, o, depth := EmitLine(buf, o, src, i, depth);
      i := e + 1;
      rest := MapLines(Rest(src, i), depth, Fix);
      Regroups(done, Fix(src[i0..e], depth0), Break(src, e), rest);
    }
    RestOfNone(src, i, depth);
    assert buf[..o] == all;
    buf[o] := '\0';
    out := buf;
  }

  lemma RestOfNone(src: string, i: nat, depth: int)
    requires i >= |src|
    ensures MapLines(Rest(src, i), depth, Fix) == []
  {}
}
