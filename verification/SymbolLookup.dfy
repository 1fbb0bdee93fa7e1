// so_symbol of loader/so_util.c: a symbol is looked up along its hash chain, and if it is not
// there by a scan of the whole dynamic symbol table.

module SymbolLookup {
  import opened Common
  import opened Words
  import opened ElfHash

  type Name = seq<Byte>   // without the terminating NUL

  function BucketIndex(hash: Word, nbucket: int): (k: int)
    requires nbucket > 0
    ensures 0 <= k < nbucket
  {
    hash % nbucket
  }

  datatype Sym = Sym(name: Name, shndx: int, info: int, value: Word)

  const SHN_UNDEF: int := 0

  // The tables of one loaded module.  In the hash table come the number of buckets, a second
  // count, the buckets, and one chain entry per symbol; 0 ends a chain.
  datatype Module = Module(base: Word, syms: seq<Sym>, hash: Option<seq<Word>>) {

    function Buckets(): int
      requires hash.Some? && |hash.value| > 0
    {
      hash.value[0]
    }

    predicate TablesOk() {
      hash.Some? ==>
        var h := hash.value;
        && |h| > 2 && h[0] > 0 && |syms| > 0 && |h| >= 2 + h[0] + |syms|
        && forall k :: 2 <= k < |h| ==> h[k] < |syms|
    }

    // The entry after symbol i on its chain.
    function After(i: int): int
      requires TablesOk() && hash.Some? && 0 <= i < |syms|
    {
      hash.value[2 + Buckets() + i]
    }

    function Follow(i: int, k: nat): (j: int)
      requires TablesOk() && hash.Some? && 0 <= i < |syms|
      ensures 0 <= j < |syms|
      decreases k
    {
      if k == 0 || i == 0 then i else Follow(After(i), k - 1)
    }

    // No chain comes back to a symbol that it has passed.
    ghost predicate Acyclic() {
      TablesOk() &&
      (hash.Some? ==> forall i, k: nat :: 0 < i < |syms| && k > 0 ==> Follow(i, k) != i)
    }

    predicate Qualifies(i: int, name: Name)
      requires 0 <= i < |syms|
    {
      syms[i].shndx != SHN_UNDEF && syms[i].info != SHN_UNDEF && syms[i].name == name
    }

    // The first qualifying symbol of the table, from entry i on.
    function Scan(name: Name, i: int): Option<int>
      requires 0 <= i <= |syms|
      decreases |syms| - i
    {
      if i == |syms| then None else if Qualifies(i, name) then Some(i) else Scan(name, i + 1)
    }

    // The first qualifying symbol among the next n of a chain.
    function Chase(name: Name, i: int, n: nat): Option<int>
      requires TablesOk() && hash.Some? && 0 <= i < |syms|
      decreases n
    {
      if i == 0 || n == 0 then None else if Qualifies(i, name) then Some(i) else Chase(name, After(i), n - 1)
    }

    function Bucket(name: Name): int
      requires TablesOk() && hash.Some?
    {
      hash.value[2 + BucketIndex(GabiHash(name), Buckets())]
    }

    function Lookup(name: Name): Option<int>
      requires TablesOk()
    {
      if hash.Some? && Chase(name, Bucket(name), |syms|).Some? then Chase(name, Bucket(name), |syms|)
      else Scan(name, 0)
    }

    function Address(found: Option<int>): Word
      requires found.Some? ==> 0 <= found.value < |syms|
    {
      if found.None? then 0 else Wrap(base + syms[found.value].value)
    }

    lemma {:induction false} ScanFinds(name: Name, i: int)
      requires 0 <= i <= |syms|
      ensures Scan(name, i).Some? <==> exists j :: i <= j < |syms| && Qualifies(j, name)
      ensures Scan(name, i).Some? ==> i <= Scan(name, i).value < |syms| && Qualifies(Scan(name, i).value, name)
      decreases |syms| - i
    {
      if i < |syms| { ScanFinds(name, i + 1); }
    }

    lemma {:induction false} ChaseFinds(name: Name, i: int, n: nat)
      requires TablesOk() && hash.Some? && 0 <= i < |syms|
      ensures var r := Chase(name, i, n); r.Some? ==> 0 < r.value < |syms| && Qualifies(r.value, name)
      decreases n
    {
      if i != 0 && n != 0 && !Qualifies(i, name) { ChaseFinds(name, After(i), n - 1); }
    }

    // Wherever the hash table puts a symbol, the lookup finds one exactly when one qualifies.
    lemma LookupFinds(name: Name)
      requires TablesOk()
      ensures Lookup(name).Some? <==> exists j :: 0 <= j < |syms| && Qualifies(j, name)
      ensures Lookup(name).Some? ==> 0 <= Lookup(name).value < |syms| && Qualifies(Lookup(name).value, name)
    {
      ScanFinds(name, 0);
      if hash.Some? { ChaseFinds(name, Bucket(name), |syms|); }
    }

    // The address of the symbol that is found.
    lemma AddressIs(name: Name)
      requires TablesOk()
      ensures var j := Lookup(name);
              if j.None? then
                && Address(j) == 0
                && forall i :: 0 <= i < |syms| ==> syms[i].shndx == 0 || syms[i].info == 0 || syms[i].name != name
              else
                && 0 <= j.value < |syms| && Address(j) == (base + syms[j.value].value) % 0x1_0000_0000
                && syms[j.value].shndx != 0 && syms[j.value].info != 0 && syms[j.value].name == name
    {
      LookupFinds(name);
      if Lookup(name).None? {
        forall i | 0 <= i < |syms| ensures syms[i].shndx == 0 || syms[i].info == 0 || syms[i].name != name {
          assert !Qualifies(i, name);
        }
      }
    }

    lemma AnswerIs(name: Name)
      requires TablesOk()
      ensures Lookup(name).Some? ==> 0 <= Lookup(name).value < |syms|
      ensures var r := Address(Lookup(name));
              && (forall i :: 0 <= i < |syms| && syms[i].shndx != 0 && syms[i].info != 0 && syms[i].name == name ==>
                    exists j :: && 0 <= j < |syms| && syms[j].shndx != 0 && syms[j].info != 0 && syms[j].name == name
                                && r == (base + syms[j].value) % 0x1_0000_0000)
              && ((forall j :: 0 <= j < |syms| ==> syms[j].shndx == 0 || syms[j].info == 0 || syms[j].name != name) ==> r == 0)
    {
      AddressIs(name);
    }

    // When defined names are unique, the hash table makes no difference to the answer.
    lemma LookupIsScan(name: Name)
      requires TablesOk()
      requires forall i, j :: 0 <= i < |syms| && 0 <= j < |syms| && Qualifies(i, name) && Qualifies(j, name) ==> i == j
      ensures Lookup(name) == Scan(name, 0)
    {
      LookupFinds(name);
      ScanFinds(name, 0);
    }

    lemma {:induction false} FollowSplits(i: int, a: nat, b: nat)
      requires TablesOk() && hash.Some? && 0 <= i < |syms|
      ensures Follow(i, a + b) == Follow(Follow(i, a), b)
      decreases a
    {
      if a != 0 && i != 0 { FollowSplits(After(i), a - 1, b); }
    }

    // The symbols met on a chain are distinct, so there are fewer of them than table entries.
    lemma {:induction false} ChainIsShort(start: int, n: nat) returns (met: set<int>)
      requires Acyclic() && hash.Some? && 0 <= start < |syms|
      requires n > 0 ==> Follow(start, n - 1) != 0
      ensures met == (set k | 0 <= k < n :: Follow(start, k)) && |met| == n && n < |syms|
      ensures forall x :: x in met ==> 0 < x < |syms|
    {
      if n == 0 {
        met := {};
      } else {
        if n > 1 { FollowSplits(start, n - 2, 1); }
        var less := ChainIsShort(start, n - 1);
        var last := Follow(start, n - 1);
        if last in less {
          var k :| 0 <= k < n - 1 && Follow(start, k) == last;
          FollowSplits(start, k, n - 1 - k);
        }
        met := less + {last};
        BoundedSetSize(met, |syms|);
      }
    }

    // Which one it is: the first on the chain of the name's bucket that is defined and has the
    // name; cs is that chain up to it.
    lemma ChainDecides(name: Name, cs: seq<int>)
      requires TablesOk() && hash.Some? && cs != [] && |cs| <= |syms|
      requires var h := hash.value;
               && cs[0] == h[2 + GabiHash(name) % h[0]]
               && (forall k :: 0 <= k < |cs| ==> 0 < cs[k] < |syms|)
               && (forall k :: 0 <= k < |cs| - 1 ==> cs[k + 1] == h[2 + h[0] + cs[k]])
      requires forall k :: 0 <= k < |cs| - 1 ==>
                 syms[cs[k]].shndx == 0 || syms[cs[k]].info == 0 || syms[cs[k]].name != name
      requires var j := cs[|cs| - 1]; syms[j].shndx != 0 && syms[j].info != 0 && syms[j].name == name
      ensures Lookup(name) == Some(cs[|cs| - 1])
    {
      ChaseAlong(name, cs, |syms|);
    }

    lemma {:induction false} ChaseAlong(name: Name, cs: seq<int>, n: nat)
      requires TablesOk() && hash.Some? && 0 < |cs| <= n
      requires (forall k :: 0 <= k < |cs| ==> 0 < cs[k] < |syms|)
      requires forall k :: 0 <= k < |cs| - 1 ==> cs[k + 1] == hash.value[2 + hash.value[0] + cs[k]]
      requires forall k :: 0 <= k < |cs| - 1 ==>
                 syms[cs[k]].shndx == 0 || syms[cs[k]].info == 0 || syms[cs[k]].name != name
      requires var j := cs[|cs| - 1]; syms[j].shndx != 0 && syms[j].info != 0 && syms[j].name == name
      ensures Chase(name, cs[0], n) == Some(cs[|cs| - 1])
      decreases n
    {
      if |cs| > 1 {
        assert cs[0 + 1] == After(cs[0]) && !Qualifies(cs[0], name);
        ChaseAlong(name, cs[1..], n - 1);
      }
    }

    // And the first of the table, when the chain, which cs is the whole of, has none.
    lemma TableDecides(name: Name, cs: seq<int>, j: int)
      requires TablesOk() && 0 <= j < |syms|
      requires hash.Some? ==>
                 var h := hash.value;
                 && cs != [] && cs[0] == h[2 + GabiHash(name) % h[0]] && cs[|cs| - 1] == 0
                 && (forall k :: 0 <= k < |cs| - 1 ==> 0 < cs[k] < |syms| && cs[k + 1] == h[2 + h[0] + cs[k]])
                 && forall k :: 0 <= k < |cs| - 1 ==>
                      syms[cs[k]].shndx == 0 || syms[cs[k]].info == 0 || syms[cs[k]].name != name
      requires syms[j].shndx != 0 && syms[j].info != 0 && syms[j].name == name
      requires forall i :: 0 <= i < j ==> syms[i].shndx == 0 || syms[i].info == 0 || syms[i].name != name
      ensures Lookup(name) == Some(j)
    {
      if hash.Some? { ChaseEnds(name, cs, |syms|); }
      ScanFirst(name, 0, j);
    }

    lemma {:induction false} ChaseEnds(name: Name, cs: seq<int>, n: nat)
      requires TablesOk() && hash.Some? && cs != [] && cs[|cs| - 1] == 0
      requires forall k :: 0 <= k < |cs| - 1 ==> 0 < cs[k] < |syms| && cs[k + 1] == hash.value[2 + hash.value[0] + cs[k]]
      requires forall k :: 0 <= k < |cs| - 1 ==>
                 syms[cs[k]].shndx == 0 || syms[cs[k]].info == 0 || syms[cs[k]].name != name
      ensures Chase(name, cs[0], n) == None
      decreases n
    {
      if |cs| > 1 && n > 0 {
        assert cs[0 + 1] == After(cs[0]) && !Qualifies(cs[0], name);
        ChaseEnds(name, cs[1..], n - 1);
      }
    }

    lemma {:induction false} ScanFirst(name: Name, i: int, j: int)
      requires 0 <= i <= j < |syms| && syms[j].shndx != 0 && syms[j].info != 0 && syms[j].name == name
      requires forall k :: i <= k < j ==> syms[k].shndx == 0 || syms[k].info == 0 || syms[k].name != name
      ensures Scan(name, i) == Some(j)
      decreases j - i
    {
      if i < j {
        assert !Qualifies(i, name);
        ScanFirst(name, i + 1, j);
      }
    }

    // The walk along a hash chain; -1 when it ends without a qualifying symbol.
    method ChainSearch(name: Name, start: int) returns (r: int)
      requires Acyclic() && hash.Some? && 0 <= start < |syms|
      ensures Chase(name, start, |syms|) == if r < 0 then None else Some(r)
      ensures -1 <= r < |syms|
    {
      var i := start;
      ghost var k := 0;
      while i != 0
        invariant 0 <= i < |syms| && 0 <= k <= |syms| && i == Follow(start, k)
        invariant k > 0 ==> Follow(start, k - 1) != 0
        invariant Chase(name, start, |syms|) == Chase(name, i, |syms| - k)
        decreases |syms| - k
      {
        ghost var _ := ChainIsShort(start, k + 1);
        if Qualifies(i, name) { return i; }
        FollowSplits(start, k, 1);
        i := hash.value[2 + hash.value[0] + i];
        k := k + 1;
      }
      r := -1;
    }

    // The scan of the whole table.
    method TableSearch(name: Name) returns (r: int)
      ensures Scan(name, 0) == if r < 0 then None else Some(r)
      ensures -1 <= r < |syms|
    {
      var i := 0;
      while i < |syms|
        invariant 0 <= i <= |syms| && Scan(name, 0) == Scan(name, i)
      {
        if Qualifies(i, name) { return i; }
        i := i + 1;
      }
      r := -1;
    }

    // so_symbol
    method SoSymbol(name: Name) returns (r: Word)
      requires Acyclic() && 0 !in name
      ensures Lookup(name).Some? ==> 0 <= Lookup(name).value < |syms|
      ensures r == Address(Lookup(name))
      // it is the address of a symbol that is defined and has the name, or 0 for none
      ensures forall i :: 0 <= i < |syms| && syms[i].shndx != 0 && syms[i].info != 0 && syms[i].name == name ==>
                exists j :: && 0 <= j < |syms| && syms[j].shndx != 0 && syms[j].info != 0 && syms[j].name == name
                            && r == (base + syms[j].value) % 0x1_0000_0000
      ensures (forall j :: 0 <= j < |syms| ==> syms[j].shndx == 0 || syms[j].info == 0 || syms[j].name != name) ==> r == 0
    {
      LookupFinds(name);
      AnswerIs(name);
      hide Acyclic, Qualifies;
      hide BucketIndex;
      if hash.Some? {
        var h := SoHash(name + [0]);
        HashOfTerminated(name, h);
        hide GabiHash;
        var found := ChainSearch(name, hash.value[2 + BucketIndex(h, hash.value[0])]);
        if found >= 0 { return Wrap(base + syms[found].value); }
      }
      var found := TableSearch(name);
      r := if found >= 0 then Wrap(base + syms[found].value) else 0;
    }
  }

  lemma {:induction false} BoundedSetSize(s: set<int>, n: nat)
    requires n > 0 && forall x :: x in s ==> 0 < x < n
    ensures |s| < n
  {
    if n > 1 {
      BoundedSetSize(s - {n - 1}, n - 1);
    } else {
      forall x ensures x !in s {}
      assert s == {};
    }
  }

  lemma HashOfTerminated(name: Name, h: Word)
    requires 0 !in name
    requires exists n :: 0 <= n < |name + [0]| && (name + [0])[n] == 0 && 0 !in (name + [0])[..n] && h == GabiHash((name + [0])[..n])
    ensures h == GabiHash(name)
  {
    var t := name + [0];
    var n :| 0 <= n < |t| && t[n] == 0 && 0 !in t[..n] && h == GabiHash(t[..n]);
    forall k | 0 <= k < |name| ensures t[k] != 0 { assert name[k] in name; }
    assert t[..|name|] == name;
  }

  // ---- exactly when the hash table cannot matter

  ghost predicate AtMostOne(base: Word, syms: seq<Sym>, name: Name) {
    var m := Module(base, syms, None);
    forall i, j :: 0 <= i < j < |syms| ==> !(m.Qualifies(i, name) && m.Qualifies(j, name))
  }

  // Does the lookup give the linear scan's answer with this hash table?
  ghost predicate AnswersAsScan(m: Module, name: Name) { m.Acyclic() ==> m.Lookup(name) == m.Scan(name, 0) }

  // One bucket, which holds symbol j, and nothing behind it.
  function Singleton(base: Word, syms: seq<Sym>, j: int): Module
    requires 0 < j < |syms| <= WORDS
  {
    Module(base, syms, Some([1, 0, j] + seq(|syms|, _ => 0)))
  }

  lemma SingletonIsAcyclic(base: Word, syms: seq<Sym>, j: int)
    requires 0 < j < |syms| <= WORDS
    ensures Singleton(base, syms, j).Acyclic()
  {
    var m := Singleton(base, syms, j);
    forall i, k: nat | 0 < i < |syms| && k > 0 ensures m.Follow(i, k) != i {
      assert m.After(i) == 0 && m.Follow(0, k - 1) == 0;
    }
  }

  lemma SingletonFinds(base: Word, syms: seq<Sym>, j: int, name: Name)
    requires 0 < j < |syms| <= WORDS && Singleton(base, syms, j).Qualifies(j, name)
    ensures var m := Singleton(base, syms, j); m.TablesOk() && m.Lookup(name) == Some(j)
  {
    var m := Singleton(base, syms, j);
    SingletonIsAcyclic(base, syms, j);
    assert BucketIndex(GabiHash(name), 1) == 0;
    assert m.Bucket(name) == j && m.Chase(name, j, |syms|) == Some(j);
  }

  // The lookup gives the linear scan's answer under every well-formed hash table if and only if
  // at most one symbol qualifies. With duplicates there is always a table that shows them.
  lemma DuplicatesMatter(base: Word, syms: seq<Sym>, name: Name)
    requires |syms| <= WORDS
    ensures (forall h: Option<seq<Word>> :: AnswersAsScan(Module(base, syms, h), name)) <==> AtMostOne(base, syms, name)
  {
    if AtMostOne(base, syms, name) {
      forall h: Option<seq<Word>> ensures AnswersAsScan(Module(base, syms, h), name) {
        var m, plain := Module(base, syms, h), Module(base, syms, None);
        if m.Acyclic() {
          forall i, j | 0 <= i < |syms| && 0 <= j < |syms| && m.Qualifies(i, name) && m.Qualifies(j, name) ensures i == j {
            assert plain.Qualifies(i, name) && plain.Qualifies(j, name);
          }
          m.LookupIsScan(name);
        }
      }
    } else {
      var plain := Module(base, syms, None);
      var i, j :| 0 <= i < j < |syms| && plain.Qualifies(i, name) && plain.Qualifies(j, name);
      var m := Singleton(base, syms, j);
      assert m.Qualifies(j, name) && m.Qualifies(i, name);
      SingletonIsAcyclic(base, syms, j);
      SingletonFinds(base, syms, j, name);
      ScanIsFirst(m, name, 0, i);
      assert !AnswersAsScan(Module(base, syms, m.hash), name);
    }
  }

  lemma {:induction false} ScanIsFirst(m: Module, name: Name, from: int, i: int)
    requires 0 <= from <= i < |m.syms| && m.Qualifies(i, name)
    ensures m.Scan(name, from).Some? && m.Scan(name, from).value <= i
    decreases i - from
  {
    if from < i && !m.Qualifies(from, name) { ScanIsFirst(m, name, from + 1, i); }
  }
}
