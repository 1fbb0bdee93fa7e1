// so_relocate, so_resolve_link and so_resolve of loader/so_util.c: two passes over the
// relocation entries of a module, one for the symbols it defines and one for its imports.

module Relocation {
  import opened Common
  import opened Words
  import opened SymbolLookup

  const R_ARM_ABS32: int := 2
  const R_ARM_GLOB_DAT: int := 21
  const R_ARM_JUMP_SLOT: int := 22
  const R_ARM_RELATIVE: int := 23
  const DT_NEEDED: int := 1

  // slot is r_offset in words; sym indexes the module's symbol table.
  datatype Rel = Rel(slot: nat, kind: int, sym: nat)

  datatype Dyn = Dyn(tag: int, text: Name)

  // A loaded module: its tables, its relocation entries, and its entries in .dynamic.
  datatype Library = Library(soname: Name, tables: Module, reldyn: seq<Rel>, relplt: seq<Rel>, dynamic: seq<Dyn>) {
    function Rels(): seq<Rel> { reldyn + relplt }

    predicate Defined(r: Rel) {
      r.sym < |tables.syms| && tables.syms[r.sym].shndx != SHN_UNDEF
    }

    function Value(r: Rel): Word { if r.sym < |tables.syms| then tables.syms[r.sym].value else 0 }

    function NameOf(r: Rel): Name { if r.sym < |tables.syms| then tables.syms[r.sym].name else [] }
  }

  // An entry of the loader's own import table.
  datatype Import = Import(symbol: Name, func: Word)

  // ---- the pure meaning of the passes

  predicate Known(kind: int) {
    kind in {R_ARM_ABS32, R_ARM_GLOB_DAT, R_ARM_JUMP_SLOT, R_ARM_RELATIVE}
  }

  function FirstPass(l: Library, r: Rel, x: Word): Word {
    if r.kind == R_ARM_RELATIVE then Wrap(x + l.tables.base)
    else if !l.Defined(r) then x
    else if r.kind == R_ARM_ABS32 then Wrap(x + l.tables.base + l.Value(r))
    else if r.kind == R_ARM_GLOB_DAT || r.kind == R_ARM_JUMP_SLOT then Wrap(l.tables.base + l.Value(r))
    else x
  }

  // What an import's name resolves to: the dependencies' answer (0 for none), and the table's.
  datatype Answer = Answer(link: Word, table: Option<Word>)

  function SecondPass(l: Library, r: Rel, a: Answer, x: Word): Word {
    if r.kind == R_ARM_RELATIVE || !Known(r.kind) || l.Defined(r) then x
    else if a.table.Some? then a.table.value
    else if a.link == 0 then x
    else if r.kind == R_ARM_ABS32 then Wrap(x + a.link) else a.link
  }

  // The word that an entry should end up with, as a function of the word it started with
  // (compare section 4.6 of ARM IHI 0044, ELF for the ARM Architecture).
  function Settled(l: Library, r: Rel, a: Answer, x: Word): Word {
    var addend := if r.kind == R_ARM_ABS32 then x else 0;
    if r.kind == R_ARM_RELATIVE then Wrap(l.tables.base + x)
    else if l.Defined(r) then Wrap(l.tables.base + l.Value(r) + addend)
    else if a.table.Some? then a.table.value
    else if a.link != 0 then Wrap(a.link + addend)
    else x
  }

  // Each entry is settled by exactly one of the passes; the other one leaves it alone.
  lemma OnePassSettles(l: Library, r: Rel, a: Answer, x: Word)
    requires Known(r.kind)
    ensures SecondPass(l, r, a, FirstPass(l, r, x)) == Settled(l, r, a, x)
    ensures if r.kind == R_ARM_RELATIVE || l.Defined(r) then
              forall y: Word :: SecondPass(l, r, a, y) == y
            else FirstPass(l, r, x) == x
  {}

  // ---- running a pass over the image

  predicate RelsOk(rels: seq<Rel>, size: nat, syms: nat) {
    forall i :: 0 <= i < |rels| ==> rels[i].slot < size && rels[i].sym < syms
  }

  ghost predicate DistinctSlots(rels: seq<Rel>) {
    forall i, j :: 0 <= i < j < |rels| ==> rels[i].slot != rels[j].slot
  }

  // The image after the first n entries, for any per-entry function.
  ghost function Fold(f: (Rel, Word) -> Word, image: seq<Word>, rels: seq<Rel>): (t: seq<Word>)
    ensures |t| == |image|
  {
    if rels == [] then image
    else
      var n := |rels| - 1;
      var t := Fold(f, image, rels[..n]);
      if rels[n].slot < |t| then t[rels[n].slot := f(rels[n], t[rels[n].slot])] else t
  }

  // The order-free reading: every entry's word is what f makes of the original one, and every
  // other word is as it was.
  ghost predicate Each(f: (Rel, Word) -> Word, image: seq<Word>, out: seq<Word>, rels: seq<Rel>)
    requires |out| == |image| && forall i :: 0 <= i < |rels| ==> rels[i].slot < |image|
  {
    && (forall i :: 0 <= i < |rels| ==> out[rels[i].slot] == f(rels[i], image[rels[i].slot]))
    && (forall k :: 0 <= k < |image| && (forall i :: 0 <= i < |rels| ==> rels[i].slot != k) ==> out[k] == image[k])
  }

  lemma {:induction false} FoldIsEach(f: (Rel, Word) -> Word, image: seq<Word>, rels: seq<Rel>)
    requires DistinctSlots(rels) && forall i :: 0 <= i < |rels| ==> rels[i].slot < |image|
    ensures Each(f, image, Fold(f, image, rels), rels)
  {
    if rels != [] {
      var n := |rels| - 1;
      var t := Fold(f, image, rels[..n]);
      FoldIsEach(f, image, rels[..n]);
      var out := Fold(f, image, rels);
      forall i | 0 <= i < |rels| ensures out[rels[i].slot] == f(rels[i], image[rels[i].slot]) {
        if i < n { assert rels[..n][i] == rels[i]; } else {
          forall j | 0 <= j < n ensures rels[..n][j].slot != rels[n].slot {}
        }
      }
      forall k | 0 <= k < |image| && (forall i :: 0 <= i < |rels| ==> rels[i].slot != k) ensures out[k] == image[k] {
        forall i | 0 <= i < n ensures rels[..n][i].slot != k {}
      }
    }
  }

  lemma EachIsUnique(f: (Rel, Word) -> Word, image: seq<Word>, a: seq<Word>, b: seq<Word>, r1: seq<Rel>, r2: seq<Rel>)
    requires |a| == |b| == |image|
    requires forall i :: 0 <= i < |r1| ==> r1[i].slot < |image|
    requires forall i :: 0 <= i < |r2| ==> r2[i].slot < |image|
    requires Each(f, image, a, r1) && Each(f, image, b, r2)
    requires multiset(r1) == multiset(r2)
    ensures a == b
  {
    forall k | 0 <= k < |image| ensures a[k] == b[k] {
      if i :| 0 <= i < |r1| && r1[i].slot == k {
        assert r1[i] in multiset(r2);
        var j :| 0 <= j < |r2| && r2[j] == r1[i];
      } else {
        forall j | 0 <= j < |r2| ensures r2[j].slot != k {
          assert r2[j] in multiset(r1);
        }
      }
    }
  }

  // ---- the two passes as one function

  type Answerer = Name -> Answer

  function First(l: Library): (Rel, Word) -> Word { (r, x) => FirstPass(l, r, x) }

  function Second(l: Library, ask: Answerer): (Rel, Word) -> Word {
    (r: Rel, x: Word) => SecondPass(l, r, ask(l.NameOf(r)), x)
  }

  function Final(l: Library, ask: Answerer): (Rel, Word) -> Word {
    (r: Rel, x: Word) => Settled(l, r, ask(l.NameOf(r)), x)
  }

  // With one entry per word, relocating and then resolving is one pure function of the initial
  // image: each entry's word is settled once and for all, everything else stays, and the order
  // of the entries does not matter.
  lemma PassesSettle(l: Library, ask: Answerer, image: seq<Word>, rels: seq<Rel>)
    requires DistinctSlots(rels) && forall i :: 0 <= i < |rels| ==> rels[i].slot < |image| && Known(rels[i].kind)
    ensures Each(Final(l, ask), image, Fold(Second(l, ask), Fold(First(l), image, rels), rels), rels)
  {
    var mid := Fold(First(l), image, rels);
    var out := Fold(Second(l, ask), mid, rels);
    FoldIsEach(First(l), image, rels);
    FoldIsEach(Second(l, ask), mid, rels);
    forall i | 0 <= i < |rels| ensures out[rels[i].slot] == Final(l, ask)(rels[i], image[rels[i].slot]) {
      OnePassSettles(l, rels[i], ask(l.NameOf(rels[i])), image[rels[i].slot]);
    }
  }

  lemma OrderDoesNotMatter(l: Library, ask: Answerer, image: seq<Word>, r1: seq<Rel>, r2: seq<Rel>)
    requires DistinctSlots(r1) && DistinctSlots(r2) && multiset(r1) == multiset(r2)
    requires forall i :: 0 <= i < |r1| ==> r1[i].slot < |image| && Known(r1[i].kind)
    requires forall i :: 0 <= i < |r2| ==> r2[i].slot < |image| && Known(r2[i].kind)
    ensures Fold(Second(l, ask), Fold(First(l), image, r1), r1) == Fold(Second(l, ask), Fold(First(l), image, r2), r2)
  {
    PassesSettle(l, ask, image, r1);
    PassesSettle(l, ask, image, r2);
    EachIsUnique(Final(l, ask), image, Fold(Second(l, ask), Fold(First(l), image, r1), r1),
                 Fold(Second(l, ask), Fold(First(l), image, r2), r2), r1, r2);
  }

  // ---- answers

  function TableAnswer(table: seq<Import>, name: Name): Option<Word> {
    if table == [] then None
    else if table[0].symbol == name then Some(table[0].func)
    else TableAnswer(table[1..], name)
  }

  // The symbol's address in a library, 0 when it has none.
  function SymbolIn(l: Library, name: Name): Word
    requires l.tables.TablesOk()
  {
    l.tables.LookupFinds(name);
    l.tables.Address(l.tables.Lookup(name))
  }

  lemma SymbolInIs(l: Library, name: Name)
    requires l.tables.TablesOk()
    ensures var r, syms := SymbolIn(l, name), l.tables.syms;
            || (exists j :: && 0 <= j < |syms| && syms[j].shndx != 0 && syms[j].info != 0 && syms[j].name == name
                            && r == (l.tables.base + syms[j].value) % 0x1_0000_0000)
            || (r == 0 && forall j :: 0 <= j < |syms| ==> syms[j].shndx == 0 || syms[j].info == 0 || syms[j].name != name)
  {
    l.tables.LookupFinds(name);
    l.tables.AddressIs(name);
  }

  ghost predicate LibrariesOk(libs: seq<Library>) {
    forall k :: 0 <= k < |libs| ==> libs[k].tables.Acyclic()
  }

  // Does library k answer entry d of the dynamic section of library self?
  ghost predicate Answers(libs: seq<Library>, self: nat, name: Name, d: int, k: int)
    requires LibrariesOk(libs) && self < |libs|
  {
    && 0 <= d < |libs[self].dynamic| && 0 <= k < |libs| && k != self
    && libs[self].dynamic[d].tag == 1 && libs[k].soname == libs[self].dynamic[d].text
    && SymbolIn(libs[k], name) != 0
  }

  // The dependencies are asked in the order in which they are needed, and the loaded modules
  // in the order in which they were loaded.
  ghost predicate LinkIs(libs: seq<Library>, self: nat, name: Name, link: Word)
    requires LibrariesOk(libs) && self < |libs|
  {
    if link == 0 then forall d, k :: !Answers(libs, self, name, d, k)
    else exists d, k ::
           && Answers(libs, self, name, d, k) && link == SymbolIn(libs[k], name)
           && forall d', k' :: Answers(libs, self, name, d', k') ==> d < d' || (d == d' && k <= k')
  }

  method SoResolveLink(libs: seq<Library>, self: nat, name: Name) returns (link: Word)
    requires LibrariesOk(libs) && self < |libs| && 0 !in name
    ensures LinkIs(libs, self, name, link)
  {
    var d := 0;
    while d < |libs[self].dynamic|
      invariant 0 <= d <= |libs[self].dynamic|
      invariant forall d', k' :: d' < d ==> !Answers(libs, self, name, d', k')
    {
      if libs[self].dynamic[d].tag == DT_NEEDED {
        var k := 0;
        while k < |libs|
          invariant 0 <= k <= |libs|
          invariant forall k' :: k' < k ==> !Answers(libs, self, name, d, k')
        {
          if k != self && libs[k].soname == libs[self].dynamic[d].text {
            link := libs[k].tables.SoSymbol(name);
            if link != 0 {
              assert Answers(libs, self, name, d, k);
              return;
            }
          }
          k := k + 1;
        }
      }
      d := d + 1;
    }
    link := 0;
  }

  ghost function LinkOf(libs: seq<Library>, self: nat, name: Name): Word
    requires LibrariesOk(libs) && self < |libs|
  {
    if link: Word :| LinkIs(libs, self, name, link) then link else 0
  }

  lemma LinkIsUnique(libs: seq<Library>, self: nat, name: Name, link: Word)
    requires LibrariesOk(libs) && self < |libs| && LinkIs(libs, self, name, link)
    ensures link == LinkOf(libs, self, name)
  {}

  // What the second pass learns about a name.
  ghost function Ask(libs: seq<Library>, self: nat, table: seq<Import>, tableOnly: bool): Answerer
    requires LibrariesOk(libs) && self < |libs|
  {
    name => Answer(if tableOnly then 0 else LinkOf(libs, self, name), TableAnswer(table, name))
  }

  // ---- what an entry's word ends as, in the fields of the tables

  // y is the func of the first entry of the table with that name.
  ghost predicate FromTable(table: seq<Import>, name: Name, y: Word) {
    exists j :: 0 <= j < |table| && table[j].symbol == name && table[j].func == y && forall i :: 0 <= i < j ==> table[i].symbol != name
  }

  // Word x of the image, which entry r patches, ends as y (23 is R_ARM_RELATIVE, 2 R_ARM_ABS32).
  ghost predicate EndsAs(libs: seq<Library>, self: nat, table: seq<Import>, tableOnly: bool, r: Rel, x: Word, y: Word)
    requires LibrariesOk(libs) && self < |libs| && r.sym < |libs[self].tables.syms|
  {
    var base, sym := libs[self].tables.base, libs[self].tables.syms[r.sym];
    if r.kind == 23 then y == (base + x) % 0x1_0000_0000
    else if sym.shndx != 0 then y == (base + sym.value + if r.kind == 2 then x else 0) % 0x1_0000_0000
    else if exists j :: 0 <= j < |table| && table[j].symbol == sym.name then FromTable(table, sym.name, y)
    else if tableOnly then y == x
    else exists link: Word ::
           && LinkIs(libs, self, sym.name, link)
           && y == if link == 0 then x else if r.kind == 2 then (x + link) % 0x1_0000_0000 else link
  }

  lemma {:induction false} TableAnswerIs(table: seq<Import>, name: Name)
    ensures TableAnswer(table, name).None? <==> forall j :: 0 <= j < |table| ==> table[j].symbol != name
    ensures TableAnswer(table, name).Some? ==> FromTable(table, name, TableAnswer(table, name).value)
  {
    if table != [] && table[0].symbol != name {
      TableAnswerIs(table[1..], name);
      if j :| 0 <= j < |table| && table[j].symbol == name { assert table[1..][j - 1] == table[j]; }
      if TableAnswer(table, name).Some? {
        var j :| 0 <= j < |table| - 1 && table[1..][j].symbol == name && table[1..][j].func == TableAnswer(table, name).value
                 && forall i :: 0 <= i < j ==> table[1..][i].symbol != name;
        FirstIs(table, name, j + 1);
      }
    } else if table != [] {
      FirstIs(table, name, 0);
    }
  }

  lemma FirstIs(table: seq<Import>, name: Name, j: nat)
    requires j < |table| && table[j].symbol == name && (j > 0 ==> table[0].symbol != name)
    requires forall i :: 0 <= i < j - 1 ==> table[1..][i].symbol != name
    ensures FromTable(table, name, table[j].func)
  {
    forall i | 0 <= i < j ensures table[i].symbol != name { assert i > 0 ==> table[i] == table[1..][i - 1]; }
  }

  // There is a link, and only one.
  lemma LinkExists(libs: seq<Library>, self: nat, name: Name) returns (link: Word)
    requires LibrariesOk(libs) && self < |libs|
    ensures LinkIs(libs, self, name, link) && LinkOf(libs, self, name) == link
  {
    if d, k :| Answers(libs, self, name, d, k) {
      var d0, k0 := FirstAnswer(libs, self, name, d, k);
      link := SymbolIn(libs[k0], name);
    } else {
      link := 0;
    }
    LinkIsUnique(libs, self, name, link);
  }

  lemma FirstAnswer(libs: seq<Library>, self: nat, name: Name, d: int, k: int) returns (d0: int, k0: int)
    requires LibrariesOk(libs) && self < |libs| && Answers(libs, self, name, d, k)
    ensures Answers(libs, self, name, d0, k0)
    ensures forall d', k' :: Answers(libs, self, name, d', k') ==> d0 < d' || (d0 == d' && k0 <= k')
    decreases d, k
  {
    if d', k' :| Answers(libs, self, name, d', k') && (d' < d || (d' == d && k' < k)) {
      d0, k0 := FirstAnswer(libs, self, name, d', k');
    } else {
      d0, k0 := d, k;
    }
  }

  lemma FinalEndsAs(libs: seq<Library>, self: nat, table: seq<Import>, tableOnly: bool, r: Rel, x: Word)
    requires LibrariesOk(libs) && self < |libs| && r.sym < |libs[self].tables.syms| && Known(r.kind)
    ensures EndsAs(libs, self, table, tableOnly, r, x, Final(libs[self], Ask(libs, self, table, tableOnly))(r, x))
  {
    var name := libs[self].tables.syms[r.sym].name;
    var link := LinkExists(libs, self, name);
    hide LinkIs, LinkOf, LibrariesOk, FromTable, TableAnswer, EndsAs, Settled;
    var a := Answer(if tableOnly then 0 else link, TableAnswer(table, name));
    assert Ask(libs, self, table, tableOnly)(name) == a && libs[self].NameOf(r) == name;
    assert Final(libs[self], Ask(libs, self, table, tableOnly))(r, x) == Settled(libs[self], r, a, x);
    SettledEndsAs(libs, self, table, tableOnly, r, x, link, a);
  }

  lemma SettledEndsAs(libs: seq<Library>, self: nat, table: seq<Import>, tableOnly: bool, r: Rel, x: Word, link: Word, a: Answer)
    requires LibrariesOk(libs) && self < |libs| && r.sym < |libs[self].tables.syms| && Known(r.kind)
    requires var name := libs[self].tables.syms[r.sym].name;
             LinkIs(libs, self, name, link) && a == Answer(if tableOnly then 0 else link, TableAnswer(table, name))
    ensures EndsAs(libs, self, table, tableOnly, r, x, Settled(libs[self], r, a, x))
  {
    TableAnswerIs(table, libs[self].tables.syms[r.sym].name);
    hide LinkIs, LibrariesOk, FromTable, TableAnswer;
  }

  lemma AllEndAs(libs: seq<Library>, self: nat, table: seq<Import>, tableOnly: bool, before: seq<Word>, now: seq<Word>, rels: seq<Rel>)
    requires LibrariesOk(libs) && self < |libs| && RelsOk(rels, |before|, |libs[self].tables.syms|) && |now| == |before|
    requires forall i :: 0 <= i < |rels| ==> Known(rels[i].kind)
    requires Each(Final(libs[self], Ask(libs, self, table, tableOnly)), before, now, rels)
    ensures forall i :: 0 <= i < |rels| ==> EndsAs(libs, self, table, tableOnly, rels[i], before[rels[i].slot], now[rels[i].slot])
  {
    forall i | 0 <= i < |rels| ensures EndsAs(libs, self, table, tableOnly, rels[i], before[rels[i].slot], now[rels[i].slot]) {
      FinalEndsAs(libs, self, table, tableOnly, rels[i], before[rels[i].slot]);
      hide EndsAs, Final, Ask, LibrariesOk;
    }
  }

  ghost predicate NamesOk(l: Library) {
    forall i :: 0 <= i < |l.tables.syms| ==> 0 !in l.tables.syms[i].name
  }

  // The scan of the import table: the first entry of that name.
  method TableSearch(table: seq<Import>, name: Name) returns (answer: Option<Word>)
    ensures answer == TableAnswer(table, name)
  {
    var j := 0;
    while j < |table|
      invariant 0 <= j <= |table| && TableAnswer(table, name) == TableAnswer(table[j..], name)
    {
      if table[j].symbol == name { return Some(table[j].func); }
      assert table[j..][1..] == table[j + 1..];
      j := j + 1;
    }
    answer := None;
  }

  // The words of the module in memory, and the entries that patch them.
  class Loaded {
    const image: array<Word>
    const lib: Library

    constructor (words: seq<Word>, l: Library)
      ensures image[..] == words && lib == l && fresh(image)
    {
      image := new Word[|words|](i requires 0 <= i < |words| => words[i]);
      lib := l;
    }

    ghost predicate Valid() {
      RelsOk(lib.Rels(), image.Length, |lib.tables.syms|) && NamesOk(lib)
    }

    function Rel(i: int): Rel
      requires 0 <= i < |lib.reldyn| + |lib.relplt|
    {
      if i < |lib.reldyn| then lib.reldyn[i] else lib.relplt[i - |lib.reldyn|]
    }

    // False when an entry has an unknown type, which ends the process.
    method SoRelocate() returns (ok: bool)
      requires Valid()
      modifies image
      ensures ok <==> forall i :: 0 <= i < |lib.Rels()| ==> Known(lib.Rels()[i].kind)
      ensures ok ==> image[..] == Fold(First(lib), old(image[..]), lib.Rels())
    {
      ghost var rels := lib.Rels();
      var i := 0;
      while i < |lib.reldyn| + |lib.relplt|
        invariant 0 <= i <= |rels| && forall j :: 0 <= j < i ==> Known(rels[j].kind)
        invariant image[..] == Fold(First(lib), old(image[..]), rels[..i])
      {
        var rel := Rel(i);
        assert rel == rels[i] && rels[..i + 1][..i] == rels[..i];
        var x := image[rel.slot];
        if rel.kind == R_ARM_ABS32 {
          if lib.Defined(rel) { image[rel.slot] := Wrap(x + lib.tables.base + lib.Value(rel)); }
        } else if rel.kind == R_ARM_RELATIVE {
          image[rel.slot] := Wrap(x + lib.tables.base);
        } else if rel.kind == R_ARM_GLOB_DAT || rel.kind == R_ARM_JUMP_SLOT {
          if lib.Defined(rel) { image[rel.slot] := Wrap(lib.tables.base + lib.Value(rel)); }
        } else {
          return false;
        }
        assert image[rel.slot] == First(lib)(rel, x);
        i := i + 1;
      }
      assert rels[..i] == rels;
      ok := true;
    }

    // The body of the loop of so_resolve.
    method ResolveOne(rel: Rel, libs: seq<Library>, self: nat, table: seq<Import>, tableOnly: bool)
      requires NamesOk(lib) && LibrariesOk(libs) && self < |libs| && libs[self] == lib && rel.slot < image.Length
      modifies image
      ensures var answer := Ask(libs, self, table, tableOnly)(lib.NameOf(rel));
              image[..] == old(image[..])[rel.slot := SecondPass(lib, rel, answer, old(image[rel.slot]))]
    {
      if (rel.kind == R_ARM_ABS32 || rel.kind == R_ARM_GLOB_DAT || rel.kind == R_ARM_JUMP_SLOT) && !lib.Defined(rel) {
        var name := lib.NameOf(rel);
        var x: int := image[rel.slot];
        if !tableOnly {
          var link := SoResolveLink(libs, self, name);
          LinkIsUnique(libs, self, name, link);
          if link != 0 {
            if rel.kind == R_ARM_ABS32 {
              image[rel.slot] := Wrap(x + link);
            } else {
              image[rel.slot] := link;
            }
          }
        }
        var answer := TableSearch(table, name);
        if answer.Some? { image[rel.slot] := answer.value; }
      }
    }

    method SoResolve(libs: seq<Library>, self: nat, table: seq<Import>, tableOnly: bool)
      requires Valid() && LibrariesOk(libs) && self < |libs| && libs[self] == lib
      modifies image
      ensures image[..] == Fold(Second(lib, Ask(libs, self, table, tableOnly)), old(image[..]), lib.Rels())
    {
      ghost var rels := lib.Rels();
      ghost var ask := Ask(libs, self, table, tableOnly);
      hide SecondPass;
      hide LibrariesOk;
      hide NamesOk;
      var i := 0;
      while i < |lib.reldyn| + |lib.relplt|
        invariant 0 <= i <= |rels| && image[..] == Fold(Second(lib, ask), old(image[..]), rels[..i])
      {
        var rel := Rel(i);
        assert rel == rels[i] && rels[..i + 1][..i] == rels[..i];
        ResolveOne(rel, libs, self, table, tableOnly);
        i := i + 1;
      }
      assert rels[..i] == rels;
    }

    // Relocating and then resolving settles every entry at once.
    method RelocateAndResolve(libs: seq<Library>, self: nat, table: seq<Import>, tableOnly: bool) returns (ok: bool)
      requires Valid() && LibrariesOk(libs) && self < |libs| && libs[self] == lib
      modifies image
      ensures ok <==> forall i :: 0 <= i < |lib.Rels()| ==> Known(lib.Rels()[i].kind)
      ensures ok && DistinctSlots(lib.Rels()) ==>
                Each(Final(lib, Ask(libs, self, table, tableOnly)), old(image[..]), image[..], lib.Rels())
      // entry by entry, in the fields of the tables
      ensures ok <==> forall i :: 0 <= i < |lib.Rels()| ==> lib.Rels()[i].kind in {2, 21, 22, 23}
      ensures ok && DistinctSlots(lib.Rels()) ==>
                forall i :: 0 <= i < |lib.Rels()| ==>
                  var r := lib.Rels()[i]; EndsAs(libs, self, table, tableOnly, r, old(image[r.slot]), image[r.slot])
    {
      ghost var rels, before := lib.Rels(), image[..];
      ok := SoRelocate();
      if ok {
        SoResolve(libs, self, table, tableOnly);
        if DistinctSlots(rels) {
          PassesSettle(lib, Ask(libs, self, table, tableOnly), before, rels);
          AllEndAs(libs, self, table, tableOnly, before, image[..], rels);
        }
      }
    }
  }
}
