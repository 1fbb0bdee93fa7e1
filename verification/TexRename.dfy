// rename_tex_sampler of loader/default_dynlib.c: the identifier tex becomes s_tex in a shader's
// source, because tex is the name of a built-in function in Cg.

module TexRename {
  import opened Common
  import opened TextBuffer

  // A letter, a digit or an underscore.
  predicate IsWord(c: char) {
    'a' <= c <= 'z' || 'A' <= c <= 'Z' || '0' <= c <= '9' || c == '_'
  }

  // ---- replacing whole words

  // The length of the run of word characters that s starts with.
  function RunLength(s: string): (n: nat)
    ensures n <= |s| && (forall k :: 0 <= k < n ==> IsWord(s[k])) && (n < |s| ==> !IsWord(s[n]))
  {
    if s == [] || !IsWord(s[0]) then 0 else 1 + RunLength(s[1..])
  }

  // s with f applied to every maximal run of word characters.
  function MapWords(s: string, f: string -> string): string
    decreases |s|
  {
    var n := RunLength(s);
    if s == [] then [] else if n == 0 then [s[0]] + MapWords(s[1..], f) else f(s[..n]) + MapWords(s[n..], f)
  }

  function Words(s: string): set<string>
    decreases |s|
  {
    var n := RunLength(s);
    if s == [] then {} else if n == 0 then Words(s[1..]) else {s[..n]} + Words(s[n..])
  }

  ghost predicate AllWord(s: string) { s != [] && forall k :: 0 <= k < |s| ==> IsWord(s[k]) }

  lemma {:induction false} RunOfConcat(w: string, rest: string)
    requires AllWord(w) && (rest == [] || !IsWord(rest[0]))
    ensures RunLength(w + rest) == |w|
  {
    if |w| == 1 {
      assert (w + rest)[1..] == rest;
    } else {
      assert (w + rest)[1..] == w[1..] + rest;
      RunOfConcat(w[1..], rest);
    }
  }

  lemma {:induction false} MapWordsStart(s: string, f: string -> string)
    requires forall w :: w in Words(s) ==> AllWord(f(w))
    ensures s == [] ==> MapWords(s, f) == []
    ensures s != [] && !IsWord(s[0]) ==> MapWords(s, f) != [] && !IsWord(MapWords(s, f)[0])
  {}

  // Two replacements in a row are one, as long as the first one makes words of words.
  lemma {:induction false} MapWordsTwice(s: string, f: string -> string, g: string -> string, h: string -> string)
    requires forall w :: w in Words(s) ==> AllWord(f(w)) && h(w) == g(f(w))
    ensures MapWords(MapWords(s, f), g) == MapWords(s, h)
    decreases |s|
  {
    var n := RunLength(s);
    if s == [] {
    } else if n == 0 {
      MapWordsTwice(s[1..], f, g, h);
      var t := MapWords(s, f);
      assert t[1..] == MapWords(s[1..], f);
    } else {
      MapWordsTwice(s[n..], f, g, h);
      assert s[..n] in Words(s);
      var w, rest := f(s[..n]), MapWords(s[n..], f);
      MapWordsStart(s[n..], f);
      RunOfConcat(w, rest);
      assert (w + rest)[..|w|] == w && (w + rest)[|w|..] == rest;
    }
  }

  lemma {:induction false} MapWordsIdentity(s: string, f: string -> string)
    requires forall w :: w in Words(s) ==> f(w) == w
    ensures MapWords(s, f) == s
    decreases |s|
  {
    var n := RunLength(s);
    if s == [] {
    } else if n == 0 {
      MapWordsIdentity(s[1..], f);
    } else {
      assert s[..n] in Words(s);
      MapWordsIdentity(s[n..], f);
    }
  }

  // A replacement that lengthens nothing and shortens some word of s shortens s.
  lemma {:induction false} MapWordsShortens(s: string, f: string -> string)
    requires forall w :: w in Words(s) ==> |f(w)| <= |w|
    ensures |MapWords(s, f)| <= |s|
    ensures (exists w :: w in Words(s) && |f(w)| < |w|) ==> |MapWords(s, f)| < |s|
    decreases |s|
  {
    var n := RunLength(s);
    if s == [] {
    } else if n == 0 {
      MapWordsShortens(s[1..], f);
    } else {
      assert s[..n] in Words(s);
      MapWordsShortens(s[n..], f);
    }
  }

  lemma {:induction false} WordsAreWords(s: string)
    ensures forall w :: w in Words(s) ==> AllWord(w)
    decreases |s|
  {
    var n := RunLength(s);
    if s != [] { WordsAreWords(if n == 0 then s[1..] else s[n..]); }
  }

  // ---- the renaming

  function Rename(w: string): string { if w == "tex" then "s_tex" else w }

  function Restore(w: string): string { if w == "s_tex" then "tex" else w }

  function RenameTex(s: string): string { MapWords(s, Rename) }

  lemma RenameTwice(s: string)
    ensures RenameTex(RenameTex(s)) == RenameTex(s)
  {
    WordsAreWords(s);
    assert forall w :: w in Words(s) ==> Rename(Rename(w)) == Rename(w);
    hide MapWords, Words;
    MapWordsTwice(s, Rename, Rename, Rename);
  }

  // ---- the renaming in terms of characters

  lemma {:induction false} RunInFront(a: string, b: string)
    requires b == [] || !IsWord(b[0]) || RunLength(a) < |a|
    ensures RunLength(a + b) == RunLength(a)
  {
    if a == [] {
      assert a + b == b;
    } else {
      assert (a + b)[1..] == a[1..] + b;
      if IsWord(a[0]) { RunInFront(a[1..], b); }
    }
  }

  lemma RunToTheEnd(a: string)
    ensures RunLength(a) == |a| && a != [] ==> IsWord(a[|a| - 1])
  {}

  // Texts that meet in no word are renamed each by itself.
  lemma {:induction false} MapWordsConcat(a: string, b: string, f: string -> string)
    requires a == [] || b == [] || !IsWord(a[|a| - 1]) || !IsWord(b[0])
    ensures MapWords(a + b, f) == MapWords(a, f) + MapWords(b, f)
    decreases |a|
  {
    if a == [] {
      assert a + b == b;
    } else if b == [] {
      assert a + b == a;
    } else {
      RunToTheEnd(a);
      RunInFront(a, b);
      var n := RunLength(a);
      var k := if n == 0 then 1 else n;
      assert (a + b)[..k] == a[..k] && (a + b)[k..] == a[k..] + b && (a + b)[0] == a[0];
      assert k < |a| ==> a[k..][|a| - k - 1] == a[|a| - 1];
      MapWordsConcat(a[k..], b, f);
    }
  }

  // A whole word, between characters that are no letter, no digit and no underscore.
  lemma WordInContext(pre: string, w: string, post: string)
    requires w != []
    requires forall k :: 0 <= k < |w| ==>
               'a' <= w[k] <= 'z' || 'A' <= w[k] <= 'Z' || '0' <= w[k] <= '9' || w[k] == '_'
    requires pre == [] ||
               var c := pre[|pre| - 1]; !('a' <= c <= 'z' || 'A' <= c <= 'Z' || '0' <= c <= '9' || c == '_')
    requires post == [] ||
               var c := post[0]; !('a' <= c <= 'z' || 'A' <= c <= 'Z' || '0' <= c <= '9' || c == '_')
    ensures RenameTex(pre + w + post) == RenameTex(pre) + (if w == "tex" then "s_tex" else w) + RenameTex(post)
  {
    assert AllWord(w) && (pre == [] || !IsWord(pre[|pre| - 1])) && (post == [] || !IsWord(post[0]));
    hide *;
    Three(pre, w, post);
    RenameIs(w);
    OneWord(w, Rename);
    MapWordsConcat(w, post, Rename);
    MapWordsConcat(pre, w + post, Rename);
    RenameTexIs(pre + w + post);
    RenameTexIs(pre);
    RenameTexIs(post);
    Assoc(RenameTex(pre), Rename(w), RenameTex(post));
  }

  lemma Three(pre: string, w: string, post: string)
    ensures pre + w + post == pre + (w + post) && (w != [] ==> (w + post)[0] == w[0])
  {}

  lemma RenameIs(w: string)
    ensures Rename(w) == if w == "tex" then "s_tex" else w
  {}

  lemma RenameTexIs(s: string)
    ensures RenameTex(s) == MapWords(s, Rename)
  {}

  lemma OneWord(w: string, f: string -> string)
    requires AllWord(w)
    ensures MapWords(w, f) == f(w)
  {
    RunOfConcat(w, []);
    assert w + [] == w && w[..|w|] == w && w[|w|..] == [];
  }

  // And the characters between the words stay.
  lemma GapInContext(pre: string, c: char, post: string)
    requires !('a' <= c <= 'z' || 'A' <= c <= 'Z' || '0' <= c <= '9' || c == '_')
    ensures RenameTex(pre + [c] + post) == RenameTex(pre) + [c] + RenameTex(post)
  {
    assert ([c] + post)[0] == c && pre + [c] + post == pre + ([c] + post) && ([c] + post)[1..] == post;
    MapWordsConcat(pre, [c] + post, Rename);
  }

  // The inverse renaming brings the source back exactly when it had no word s_tex of its own.
  lemma RenameIsUndone(s: string)
    ensures MapWords(RenameTex(s), Restore) == s <==> "s_tex" !in Words(s)
  {
    WordsAreWords(s);
    MapWordsTwice(s, Rename, Restore, Restore);
    if "s_tex" in Words(s) {
      MapWordsShortens(s, Restore);
    } else {
      MapWordsIdentity(s, Restore);
    }
  }

  // ---- the scan

  predicate TexAt(src: string, i: nat) {
    && i + 3 <= |src| && src[i] == 't' && src[i + 1] == 'e' && src[i + 2] == 'x'
    && !(i > 0 && IsWord(src[i - 1])) && !(i + 3 < |src| && IsWord(src[i + 3]))
  }

  // What rename_tex_sampler emits from position i on.
  function Scan(src: string, i: nat): (t: string)
    requires i <= |src|
    ensures |t| <= 2 * (|src| - i)
    decreases |src| - i
  {
    if i == |src| then [] else if TexAt(src, i) then "s_tex" + Scan(src, i + 3) else [src[i]] + Scan(src, i + 1)
  }

  // Position i does not split a word.
  predicate Between(src: string, i: nat) {
    i == 0 || i >= |src| || !IsWord(src[i - 1]) || !IsWord(src[i])
  }

  lemma ScanStep(src: string, i: nat)
    requires i < |src|
    ensures TexAt(src, i) ==> Scan(src, i) == "s_tex" + Scan(src, i + 3)
    ensures !TexAt(src, i) ==> Scan(src, i) == [src[i]] + Scan(src, i + 1)
  {}

  lemma {:induction false} ScanCopies(src: string, i: nat, j: nat)
    requires 0 < i <= j <= |src| && forall k :: i - 1 <= k < j ==> IsWord(src[k])
    ensures Scan(src, i) == src[i..j] + Scan(src, j)
    decreases j - i
  {
    if i < j {
      assert !TexAt(src, i) by { assert IsWord(src[i - 1]); }
      ScanCopies(src, i + 1, j);
      ScanStep(src, i);
      hide *;
      assert src[i..j] == [src[i]] + src[i + 1..j];
    }
  }

  // A word that starts at i is matched exactly when it is tex.
  lemma TexAtWord(src: string, i: nat)
    requires i < |src| && Between(src, i) && IsWord(src[i])
    ensures TexAt(src, i) <==> src[i..][..RunLength(src[i..])] == "tex"
  {
    var s := src[i..];
    var n := RunLength(s);
    if TexAt(src, i) {
      assert s[0] == 't' && s[1] == 'e' && s[2] == 'x' && n == 3;
    }
    if s[..n] == "tex" {
      assert n == 3 && s[0] == 't' && s[1] == 'e' && s[2] == 'x';
      assert i + 3 < |src| ==> src[i + 3] == s[3];
    }
  }

  lemma {:induction false} ScanMaps(src: string, i: nat)
    requires i <= |src| && Between(src, i)
    ensures Scan(src, i) == MapWords(src[i..], Rename)
    decreases |src| - i, 1
  {
    if i < |src| {
      if IsWord(src[i]) { ScanMapsWord(src, i); } else {
        var s := src[i..];
        assert s[0] == src[i] && !TexAt(src, i) && s[1..] == src[i + 1..];
        ScanMaps(src, i + 1);
      }
    }
  }

  lemma RunFacts(src: string, i: nat)
    requires i < |src| && IsWord(src[i])
    ensures var n := RunLength(src[i..]);
            && 0 < n && i + n <= |src| && Between(src, i + n) && src[i..][n..] == src[i + n..]
            && forall k :: i <= k < i + n ==> IsWord(src[k])
  {
    var s := src[i..];
    var n := RunLength(s);
    assert s[0] == src[i];
    forall k | i <= k < i + n ensures IsWord(src[k]) { assert src[k] == s[k - i]; }
    assert i + n < |src| ==> src[i + n] == s[n];
  }

  lemma MapWordsOfWord(s: string, f: string -> string)
    requires s != [] && IsWord(s[0])
    ensures MapWords(s, f) == f(s[..RunLength(s)]) + MapWords(s[RunLength(s)..], f)
  {}

  lemma {:induction false} ScanMapsWord(src: string, i: nat)
    requires i < |src| && Between(src, i) && IsWord(src[i])
    ensures Scan(src, i) == MapWords(src[i..], Rename)
    decreases |src| - i, 0
  {
    hide Scan;
    hide TexAt;
    hide MapWords;
    hide RunLength;
    hide IsWord;
    hide Between;
    var n := RunLength(src[i..]);
    RunFacts(src, i);
    TexAtWord(src, i);
    MapWordsOfWord(src[i..], Rename);
    ScanMaps(src, i + n);
    ScanStep(src, i);
    WordHead(src, i, n);
    if TexAt(src, i) {
      assert |src[i..][..n]| == 3;
    } else {
      ScanCopies(src, i + 1, i + n);
    }
  }

  lemma WordHead(src: string, i: nat, n: nat)
    requires 0 < n && i + n <= |src|
    ensures src[i..][..n] == [src[i]] + src[i + 1..i + n]
  {}

  // The pass itself: the buffer of 2 * len + 64 characters is large enough, and what ends up in
  // it is the renamed text and a NUL.
  method RenameTexSampler(src: string, heapFull: bool) returns (out: array?<char>)
    ensures out == null <==> heapFull
    ensures out != null ==>
              var t := RenameTex(src); |t| < out.Length == 2 * |src| + 64 && out[..|t|] == t && out[|t|] == '\0'
  {
    hide *;
    if heapFull { return null; }
    var buf := new char[2 * |src| + 64](_ => ' ');
    var o, i := 0, 0;
    ghost var all := Scan(src, 0);
    ScanIsRename(src);
    while i < |src|
      invariant 0 <= i <= |src| && 0 <= o && o + |Scan(src, i)| == |all| <= 2 * |src|
      invariant buf[..o] + Scan(src, i) == all
    {
      ScanStep(src, i);
      if TexAt(src, i) {
        Assoc(buf[..o], "s_tex", Scan(src, i + 3));
        Append(buf, o, "s_tex");
        o, i := o + 5, i + 3;
      } else {
        Assoc(buf[..o], [src[i]], Scan(src, i + 1));
        Append(buf, o, [src[i]]);
        o, i := o + 1, i + 1;
      }
    }
    ScanEnds(src);
    buf[o] := '\0';
    out := buf;
  }

  lemma ScanIsRename(src: string)
    ensures Scan(src, 0) == RenameTex(src)
  {
    ScanMaps(src, 0);
    assert src[0..] == src;
  }

  lemma ScanEnds(src: string)
    ensures Scan(src, |src|) == []
  {}
}
