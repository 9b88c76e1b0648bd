/** The symbol cache: sorted regions and compact symbol tables, looked up by two binary searches. */
module SymbolCache {
  import opened Collections
  import opened Words
  import opened SymbolScan

  datatype Region = Region(low: nat, high: nat, symOffset: nat, symCount: nat)

  datatype Entry = Entry(offset: nat, size: nat)

  // --- The compact form ---

  function ToEntry(low: nat, f: Function): Entry {
    Entry((f.start - low) % WORD, (f.end - f.start) % WORD)
  }

  function FromEntry(low: nat, e: Entry): Function {
    var start := (low + e.offset) % WORD;
    Function(start, (start + e.size) % WORD)
  }

  lemma EntryRoundTrip(low: nat, f: Function)
    requires low < WORD && f.start < WORD && f.end < WORD
    ensures FromEntry(low, ToEntry(low, f)) == f
  {
    WrapBack(low, f.start);
    WrapBack(f.start, f.end);
  }

  lemma WrapBack(a: nat, b: nat)
    requires a < WORD && b < WORD
    ensures (a + (b - a) % WORD) % WORD == b
  {
    if b >= a {
      assert (b - a) % WORD == b - a;
    } else {
      assert (b - a) % WORD == b - a + WORD;
      assert (b + WORD) % WORD == b;
    }
  }

  function Decoded(low: nat, es: seq<Entry>): (r: seq<Function>)
    ensures |r| == |es|
  {
    seq(|es|, k requires 0 <= k < |es| => FromEntry(low, es[k]))
  }

  ghost predicate Increasing(fs: seq<Function>) {
    forall i, j :: 0 <= i < j < |fs| ==> Before(fs[i], fs[j])
  }

  // Every function that fits, once, in order.
  ghost predicate IsTable(table: seq<Function>, fs: seq<Function>, low: nat) {
    Increasing(table) && forall f :: f in table <==> f in fs && Fits(low, f)
  }

  ghost predicate Describes(r: Region, symbols: seq<Entry>, m: Module) {
    && Usable(m) && r.low == Low(m) && r.high == High(m)
    && r.symOffset + r.symCount <= |symbols|
    && IsTable(Decoded(r.low, symbols[r.symOffset..r.symOffset + r.symCount]), Functions(m.base, m.symbols), r.low)
  }

  ghost predicate FromSome(r: Region, symbols: seq<Entry>, modules: seq<Module>) {
    exists i :: 0 <= i < |modules| && Describes(r, symbols, modules[i])
  }

  ghost predicate HasRegion(regions: seq<Region>, symbols: seq<Entry>, m: Module) {
    exists r :: r in regions && Describes(r, symbols, m)
  }

  ghost predicate Complete(regions: seq<Region>, symbols: seq<Entry>, modules: seq<Module>) {
    && (forall r :: r in regions ==> FromSome(r, symbols, modules))
    && (forall i :: 0 <= i < |modules| && Usable(modules[i]) ==> HasRegion(regions, symbols, modules[i]))
  }

  // The regions' slices of the symbols overlap nowhere and leave nothing out.
  ghost predicate Tiled(regions: seq<Region>, n: nat) {
    && (forall r :: r in regions ==> r.symOffset + r.symCount <= n)
    && (forall r, q :: r in regions && q in regions && r != q ==>
          r.symOffset + r.symCount <= q.symOffset || q.symOffset + q.symCount <= r.symOffset)
    && (forall p :: 0 <= p < n ==> Owned(regions, p))
  }

  ghost predicate Owned(regions: seq<Region>, p: nat) {
    exists r :: r in regions && r.symOffset <= p < r.symOffset + r.symCount
  }

  ghost predicate ByLow(regions: seq<Region>) {
    forall i, j :: 0 <= i < j < |regions| ==> regions[i].low <= regions[j].low
  }

  /** The regions and symbols index exactly the code of the modules. */
  ghost predicate Indexes(regions: seq<Region>, symbols: seq<Entry>, modules: seq<Module>) {
    Complete(regions, symbols, modules) && ByLow(regions)
  }

  // The region spans the module's code, and its slice of the symbols holds the storable symbols of the module, each at
  // its distance from the lowest address.
  ghost predicate Lists(r: Region, symbols: seq<Entry>, m: Module)
    requires r.symOffset + r.symCount <= |symbols|
  {
    var slice := symbols[r.symOffset..r.symOffset + r.symCount];
    && (forall ip: nat :: r.low <= ip < r.high <==> InRange(m, ip))
    && (forall y :: Storable(m, y) ==> exists e :: e in slice && Stores(m, r.low, e, y))
    && (forall e :: e in slice ==> exists y :: Storable(m, y) && Stores(m, r.low, e, y))
  }

  predicate Stores(m: Module, low: nat, e: Entry, y: Symbol) {
    At(m, y.value) == (low + e.offset) % WORD && At(m, y.value + y.size) == (low + e.offset + e.size) % WORD
  }

  lemma DescribesLists(r: Region, symbols: seq<Entry>, m: Module)
    requires Describes(r, symbols, m)
    ensures Lists(r, symbols, m)
  {
    var slice := symbols[r.symOffset..r.symOffset + r.symCount];
    RangeAt(m);
    forall y | Storable(m, y) ensures exists e :: e in slice && Stores(m, r.low, e, y) {
      var e := StoredIn(r, symbols, m, y);
    }
    forall e | e in slice ensures exists y :: Storable(m, y) && Stores(m, r.low, e, y) {
      var y := StoredFrom(r, symbols, m, e);
    }
  }

  ghost predicate Listed(regions: seq<Region>, symbols: seq<Entry>, m: Module) {
    exists r :: r in regions && r.symOffset + r.symCount <= |symbols| && Lists(r, symbols, m)
  }

  lemma AllListed(regions: seq<Region>, symbols: seq<Entry>, modules: seq<Module>)
    requires Complete(regions, symbols, modules)
    ensures forall i :: 0 <= i < |modules| && Usable(modules[i]) ==> Listed(regions, symbols, modules[i])
  {
    forall i | 0 <= i < |modules| && Usable(modules[i]) ensures Listed(regions, symbols, modules[i]) {
      assert HasRegion(regions, symbols, modules[i]);
      var r :| r in regions && Describes(r, symbols, modules[i]);
      DescribesLists(r, symbols, modules[i]);
    }
  }

  lemma StoredIn(r: Region, symbols: seq<Entry>, m: Module, y: Symbol) returns (e: Entry)
    requires Describes(r, symbols, m) && Storable(m, y)
    ensures e in symbols[r.symOffset..r.symOffset + r.symCount] && Stores(m, r.low, e, y)
  {
    var slice := symbols[r.symOffset..r.symOffset + r.symCount];
    var f := FunctionStorable(m, y);
    var table := Decoded(r.low, slice);
    assert f in table;
    var k :| 0 <= k < |table| && table[k] == f;
    e := slice[k];
    WrapAdd(r.low + e.offset, e.size);
  }

  lemma StoredFrom(r: Region, symbols: seq<Entry>, m: Module, e: Entry) returns (y: Symbol)
    requires Describes(r, symbols, m) && e in symbols[r.symOffset..r.symOffset + r.symCount]
    ensures Storable(m, y) && Stores(m, r.low, e, y)
  {
    var slice := symbols[r.symOffset..r.symOffset + r.symCount];
    var k :| 0 <= k < |slice| && slice[k] == e;
    var f := Decoded(r.low, slice)[k];
    assert f in Decoded(r.low, slice);
    y := StorableFunction(m, f);
    WrapAdd(r.low + e.offset, e.size);
  }

  // --- Building ---

  method FindExecSpan(m: Module) returns (found: bool, low: nat, high: nat)
    ensures ExecSpan(m.base, m.segments) == if found then Some(Span(low, high)) else None
    ensures found ==> low < WORD && high < WORD
  {
    low, high, found := 0, 0, false;
    var i := 0;
    while i < |m.segments|
      invariant 0 <= i <= |m.segments|
      invariant ExecSpan(m.base, m.segments[..i]) == if found then Some(Span(low, high)) else None
      invariant found ==> low < WORD && high < WORD
    {
      assert m.segments[..i + 1][..i] == m.segments[..i];
      var s := m.segments[i];
      if s.executable {
        var l := (m.base + s.vaddr) % WORD;
        var h := (l + s.size) % WORD;
        if !found || l < low { low := l; }
        if !found || h > high { high := h; }
        found := true;
      }
      i := i + 1;
    }
    assert m.segments[..i] == m.segments;
  }

  method CollectFunctions(m: Module) returns (fs: seq<Function>)
    ensures fs == Functions(m.base, m.symbols)
  {
    fs := [];
    var i := 0;
    while i < |m.symbols|
      invariant 0 <= i <= |m.symbols| && fs == Functions(m.base, m.symbols[..i])
    {
      assert m.symbols[..i + 1][..i] == m.symbols[..i];
      var s := m.symbols[i];
      if s.isFunction && s.isDefined && s.size != 0 {
        fs := fs + [FunctionOf(m.base, s)];
      }
      i := i + 1;
    }
    assert m.symbols[..i] == m.symbols;
  }

  ghost predicate Ordered(fs: seq<Function>) {
    forall i, j :: 0 <= i < j < |fs| ==> !Before(fs[j], fs[i])
  }

  // Stands for std::sort, by start and then by end.
  method SortFunctions(fs: seq<Function>) returns (r: seq<Function>)
    ensures Ordered(r) && multiset(r) == multiset(fs)
  {
    r := [];
    var i := 0;
    while i < |fs|
      invariant 0 <= i <= |fs| && Ordered(r) && multiset(r) == multiset(fs[..i])
    {
      TakeNext(fs, i);
      r := InsertFunction(r, fs[i]);
      i := i + 1;
    }
    assert fs[..i] == fs;
  }

  method InsertFunction(r: seq<Function>, f: Function) returns (t: seq<Function>)
    requires Ordered(r)
    ensures Ordered(t) && multiset(t) == multiset(r) + multiset{f}
  {
    var k := 0;
    while k < |r| && !Before(f, r[k])
      invariant 0 <= k <= |r| && forall j :: 0 <= j < k ==> !Before(f, r[j])
    {
      k := k + 1;
    }
    InsertedOrdered(r, k, f);
    t := r[..k] + [f] + r[k..];
  }

  lemma InsertedOrdered(r: seq<Function>, k: nat, f: Function)
    requires Ordered(r) && k <= |r| && (forall j :: 0 <= j < k ==> !Before(f, r[j])) && (k < |r| ==> Before(f, r[k]))
    ensures Ordered(r[..k] + [f] + r[k..]) && multiset(r[..k] + [f] + r[k..]) == multiset(r) + multiset{f}
  {
    Inserted(r, k, f);
    var t := r[..k] + [f] + r[k..];
    forall j | k <= j < |r| ensures !Before(r[j], f) { assert k == j || !Before(r[j], r[k]); }
    forall i, j | 0 <= i < j < |t| ensures !Before(t[j], t[i]) {
      assert t[i] == (if i < k then r[i] else if i == k then f else r[i - 1]);
      assert t[j] == (if j < k then r[j] else if j == k then f else r[j - 1]);
    }
  }

  // std::unique on the sorted functions, then erase.
  method Unique(fs: seq<Function>) returns (r: seq<Function>)
    requires Ordered(fs)
    ensures Increasing(r) && forall f :: f in r <==> f in fs
  {
    r := [];
    var i := 0;
    while i < |fs|
      invariant 0 <= i <= |fs| && Increasing(r) && (forall f :: f in r <==> f in fs[..i])
      invariant r == [] <==> i == 0
      invariant r != [] ==> r[|r| - 1] == fs[i - 1]
    {
      TakeNext(fs, i);
      if i == 0 || fs[i] != fs[i - 1] {
        if i > 0 { assert Before(fs[i - 1], fs[i]); }
        r := r + [fs[i]];
      }
      i := i + 1;
    }
    assert fs[..i] == fs;
  }

  // Writes the functions that fit after the symbols written so far.
  method AppendEntries(symbols: seq<Entry>, low: nat, fs: seq<Function>) returns (r: seq<Entry>, inserted: nat)
    requires low < WORD && Increasing(fs) && forall k :: 0 <= k < |fs| ==> fs[k].start < WORD && fs[k].end < WORD
    ensures |r| == |symbols| + inserted && r[..|symbols|] == symbols && inserted <= |fs|
    ensures IsTable(Decoded(low, r[|symbols|..]), fs, low)
  {
    r, inserted := symbols, 0;
    ghost var table: seq<Function> := [];
    var i := 0;
    while i < |fs|
      invariant 0 <= i <= |fs| && |r| == |symbols| + inserted && r[..|symbols|] == symbols && inserted <= i
      invariant table == Decoded(low, r[|symbols|..]) && IsTable(table, fs[..i], low)
    {
      TakeNext(fs, i);
      var offset, size := (fs[i].start - low) % WORD, (fs[i].end - fs[i].start) % WORD;
      if offset < LIMIT32 && size < LIMIT32 {
        EntryRoundTrip(low, fs[i]);
        TableGrows(table, fs, i, low);
        DecodedGrows(low, r[|symbols|..], Entry(offset, size));
        assert (r + [Entry(offset, size)])[|symbols|..] == r[|symbols|..] + [Entry(offset, size)];
        table := table + [fs[i]];
        r := r + [Entry(offset, size)];
        inserted := inserted + 1;
      }
      i := i + 1;
    }
    assert fs[..i] == fs;
  }

  lemma TableGrows(table: seq<Function>, fs: seq<Function>, i: nat, low: nat)
    requires i < |fs| && Increasing(fs) && IsTable(table, fs[..i], low) && Fits(low, fs[i])
    ensures IsTable(table + [fs[i]], fs[..i + 1], low)
  {
    forall k | 0 <= k < |table| ensures Before(table[k], fs[i]) { assert table[k] in fs[..i]; }
  }

  lemma DecodedGrows(low: nat, es: seq<Entry>, e: Entry)
    ensures Decoded(low, es + [e]) == Decoded(low, es) + [FromEntry(low, e)]
  {
  }

  function SymbolTotal(modules: seq<Module>): nat {
    if modules == [] then 0
    else SymbolTotal(modules[..|modules| - 1]) + |modules[|modules| - 1].symbols|
  }

  lemma {:induction false} TotalGrows(modules: seq<Module>, i: nat)
    requires i <= |modules|
    ensures SymbolTotal(modules[..i]) <= SymbolTotal(modules)
    decreases |modules| - i
  {
    if i < |modules| {
      assert modules[..i + 1][..i] == modules[..i];
      TotalGrows(modules, i + 1);
    } else {
      assert modules[..i] == modules;
    }
  }

  ghost predicate Built(regions: seq<Region>, symbols: seq<Entry>, modules: seq<Module>) {
    Complete(regions, symbols, modules) && Tiled(regions, |symbols|) && |symbols| <= SymbolTotal(modules)
  }

  /** Builds the index. The 32-bit symbol positions bound the number of symbols in all. */
  method BuildSymbolCache(modules: seq<Module>) returns (regions: seq<Region>, symbols: seq<Entry>)
    requires SymbolTotal(modules) < LIMIT32
    ensures Indexes(regions, symbols, modules) && Tiled(regions, |symbols|)
    ensures forall i :: 0 <= i < |modules| && Usable(modules[i]) ==> Listed(regions, symbols, modules[i])
  {
    regions, symbols := AddModules(modules);
    var sorted := SortRegions(regions);
    Reordered(regions, sorted, symbols, modules);
    TiledReordered(regions, sorted, |symbols|);
    regions := sorted;
    AllListed(regions, symbols, modules);
  }

  method AddModules(modules: seq<Module>) returns (regions: seq<Region>, symbols: seq<Entry>)
    requires SymbolTotal(modules) < LIMIT32
    ensures Built(regions, symbols, modules)
  {
    regions, symbols := [], [];
    var i := 0;
    while i < |modules|
      invariant 0 <= i <= |modules| && Built(regions, symbols, modules[..i])
    {
      TotalGrows(modules, i);
      var r, s := AddModule(regions, symbols, modules[i]);
      BuiltGrows(regions, symbols, modules[..i], r, s, modules[i]);
      TakeNext(modules, i);
      regions, symbols := r, s;
      i := i + 1;
    }
    assert modules[..i] == modules;
  }

  lemma BuiltGrows(regions: seq<Region>, symbols: seq<Entry>, modules: seq<Module>, r: seq<Region>, s: seq<Entry>,
                   m: Module)
    requires Built(regions, symbols, modules) && Added(regions, symbols, m, r, s) && |s| <= |symbols| + |m.symbols|
    ensures Built(r, s, modules + [m])
  {
    assert (modules + [m])[..|modules|] == modules;
    CompleteGrows(regions, symbols, modules, r, s, m);
    TiledGrows(regions, symbols, r, s, m);
  }

  // At most one region more, for the slice of the symbols after those there were.
  ghost predicate Added(regions: seq<Region>, symbols: seq<Entry>, m: Module, r: seq<Region>, s: seq<Entry>) {
    && |symbols| <= |s| && s[..|symbols|] == symbols
    && if Usable(m) then
         |r| == |regions| + 1 && r[..|regions|] == regions && Describes(r[|regions|], s, m)
         && r[|regions|].symOffset == |symbols| && r[|regions|].symCount == |s| - |symbols|
       else r == regions && s == symbols
  }

  method AddModule(regions: seq<Region>, symbols: seq<Entry>, m: Module) returns (r: seq<Region>, s: seq<Entry>)
    requires |symbols| < LIMIT32
    ensures Added(regions, symbols, m, r, s) && |s| <= |symbols| + |m.symbols|
  {
    r, s := regions, symbols;
    var found, low, high := FindExecSpan(m);
    if !found || low == high {
      return;
    }
    var fs := CollectFunctions(m);
    if fs == [] {
      return;
    }
    var sorted := SortFunctions(fs);
    SameMembers(sorted, fs);
    var unique := Unique(sorted);
    UniqueShort(unique, fs);
    FunctionsBounds(m.base, m.symbols);
    var inserted;
    s, inserted := AppendEntries(symbols, low, unique);
    var region := Region(low, high, |symbols| % LIMIT32, inserted);
    assert s[region.symOffset..region.symOffset + inserted] == s[|symbols|..];
    SameTable(Decoded(low, s[|symbols|..]), unique, fs, low);
    r := regions + [region];
  }

  lemma SameTable(table: seq<Function>, a: seq<Function>, b: seq<Function>, low: nat)
    requires IsTable(table, a, low) && forall f :: f in a <==> f in b
    ensures IsTable(table, b, low)
  {
  }

  lemma SameMembers(a: seq<Function>, b: seq<Function>)
    requires multiset(a) == multiset(b)
    ensures forall f :: f in a <==> f in b
  {
    forall f ensures f in a <==> f in b { assert f in a <==> f in multiset(a); }
  }

  lemma {:induction false} UniqueShort(u: seq<Function>, fs: seq<Function>)
    requires Increasing(u) && forall f :: f in u ==> f in fs
    ensures |u| <= |fs|
    decreases |u|
  {
    if u != [] {
      var f := u[|u| - 1];
      assert f in u;
      var i :| 0 <= i < |fs| && fs[i] == f;
      var rest := fs[..i] + fs[i + 1..];
      forall g | g in u[..|u| - 1] ensures g in rest {
        var k :| 0 <= k < |u| - 1 && u[k] == g;
        assert Before(u[k], f) && u[k] in u;
        var j :| 0 <= j < |fs| && fs[j] == g;
        assert g == if j < i then rest[j] else rest[j - 1];
      }
      UniqueShort(u[..|u| - 1], rest);
    }
  }

  lemma DescribesMore(r: Region, symbols: seq<Entry>, s: seq<Entry>, m: Module)
    requires Describes(r, symbols, m) && |symbols| <= |s| && s[..|symbols|] == symbols
    ensures Describes(r, s, m)
  {
    SliceOfPrefix(s, |symbols|, r.symOffset, r.symOffset + r.symCount);
  }

  lemma SliceOfPrefix<T>(s: seq<T>, n: nat, a: nat, b: nat)
    requires a <= b <= n <= |s|
    ensures s[a..b] == s[..n][a..b]
  {
  }

  lemma CompleteGrows(regions: seq<Region>, symbols: seq<Entry>, modules: seq<Module>, r: seq<Region>, s: seq<Entry>,
                      m: Module)
    requires Complete(regions, symbols, modules) && Added(regions, symbols, m, r, s)
    ensures Complete(r, s, modules + [m])
  {
    var all := modules + [m];
    forall x | x in r ensures FromSome(x, s, all) {
      if x in regions {
        assert FromSome(x, symbols, modules);
        var i :| 0 <= i < |modules| && Describes(x, symbols, modules[i]);
        DescribesMore(x, symbols, s, modules[i]);
        assert Describes(x, s, all[i]);
      } else {
        assert Describes(x, s, all[|modules|]);
      }
    }
    forall i | 0 <= i < |all| && Usable(all[i]) ensures HasRegion(r, s, all[i]) {
      if i < |modules| {
        assert HasRegion(regions, symbols, modules[i]);
        var x :| x in regions && Describes(x, symbols, modules[i]);
        DescribesMore(x, symbols, s, modules[i]);
        assert x in r;
      } else {
        assert r[|regions|] in r;
      }
    }
  }

  lemma TiledGrows(regions: seq<Region>, symbols: seq<Entry>, r: seq<Region>, s: seq<Entry>, m: Module)
    requires Tiled(regions, |symbols|) && Added(regions, symbols, m, r, s)
    ensures Tiled(r, |s|)
  {
    if Usable(m) {
      var n, n' := |symbols|, |s|;
      var x := r[|regions|];
      assert r == regions + [x];
      forall p | 0 <= p < n' ensures Owned(r, p) {
        if p < n {
          assert Owned(regions, p);
          var q :| q in regions && q.symOffset <= p < q.symOffset + q.symCount;
          assert q in r;
        } else {
          assert x in r;
        }
      }
    }
  }

  lemma TiledReordered(a: seq<Region>, b: seq<Region>, n: nat)
    requires Tiled(a, n) && multiset(a) == multiset(b)
    ensures Tiled(b, n)
  {
    forall r ensures r in a <==> r in b { assert r in a <==> r in multiset(a); }
    forall p | 0 <= p < n ensures Owned(b, p) {
      assert Owned(a, p);
      var r :| r in a && r.symOffset <= p < r.symOffset + r.symCount;
      assert r in b;
    }
  }

  // Stands for std::sort by the low address.
  method SortRegions(rs: seq<Region>) returns (r: seq<Region>)
    ensures ByLow(r) && multiset(r) == multiset(rs)
  {
    r := [];
    var i := 0;
    while i < |rs|
      invariant 0 <= i <= |rs| && ByLow(r) && multiset(r) == multiset(rs[..i])
    {
      TakeNext(rs, i);
      r := InsertByLow(r, rs[i]);
      i := i + 1;
    }
    assert rs[..i] == rs;
  }

  method InsertByLow(r: seq<Region>, x: Region) returns (t: seq<Region>)
    requires ByLow(r)
    ensures ByLow(t) && multiset(t) == multiset(r) + multiset{x}
  {
    var k := 0;
    while k < |r| && r[k].low <= x.low
      invariant 0 <= k <= |r| && forall j :: 0 <= j < k ==> r[j].low <= x.low
    {
      k := k + 1;
    }
    InsertedByLow(r, k, x);
    t := r[..k] + [x] + r[k..];
  }

  lemma InsertedByLow(r: seq<Region>, k: nat, x: Region)
    requires ByLow(r) && k <= |r| && (forall j :: 0 <= j < k ==> r[j].low <= x.low) && (k < |r| ==> x.low < r[k].low)
    ensures ByLow(r[..k] + [x] + r[k..]) && multiset(r[..k] + [x] + r[k..]) == multiset(r) + multiset{x}
  {
    Inserted(r, k, x);
    var t := r[..k] + [x] + r[k..];
    forall i, j | 0 <= i < j < |t| ensures t[i].low <= t[j].low {
      assert t[i] == (if i < k then r[i] else if i == k then x else r[i - 1]);
      assert t[j] == (if j < k then r[j] else if j == k then x else r[j - 1]);
    }
  }

  lemma Reordered(a: seq<Region>, b: seq<Region>, symbols: seq<Entry>, modules: seq<Module>)
    requires Complete(a, symbols, modules) && multiset(a) == multiset(b)
    ensures Complete(b, symbols, modules)
  {
    forall r ensures r in a <==> r in b { assert r in a <==> r in multiset(a); }
    forall i | 0 <= i < |modules| && Usable(modules[i]) ensures HasRegion(b, symbols, modules[i]) {
      assert HasRegion(a, symbols, modules[i]);
    }
  }

  // --- Looking up ---

  // std::upper_bound: the first position whose key is above x.
  method UpperBound<T>(s: seq<T>, key: T -> nat, x: nat) returns (k: nat)
    requires forall i, j :: 0 <= i < j < |s| ==> key(s[i]) <= key(s[j])
    ensures k <= |s|
    ensures forall j :: 0 <= j < k ==> key(s[j]) <= x
    ensures forall j :: k <= j < |s| ==> x < key(s[j])
  {
    k := 0;
    var count: nat := |s|;
    while count > 0
      invariant k + count <= |s|
      invariant forall j :: 0 <= j < k ==> key(s[j]) <= x
      invariant forall j :: k + count <= j < |s| ==> x < key(s[j])
    {
      var step := count / 2;
      if x < key(s[k + step]) {
        count := step;
      } else {
        k := k + step + 1;
        count := count - step - 1;
      }
    }
  }

  lemma NearestInTable(table: seq<Function>, fs: seq<Function>, low: nat, ip: nat, k: nat)
    requires IsTable(table, fs, low) && k <= |table|
    requires forall j :: 0 <= j < k ==> table[j].start <= ip
    requires forall j :: k <= j < |table| ==> ip < table[j].start
    ensures Nearest(fs, low, ip) == if k == 0 then None else Some(table[k - 1])
  {
    NearestIsLast(fs, low, ip);
    var n := Nearest(fs, low, ip);
    assert n.Some? ==> n.value in table && Candidate(low, ip, n.value);
    if k > 0 {
      var last := table[k - 1];
      assert last in table && Candidate(low, ip, last);
      assert forall j :: 0 <= j < k - 1 ==> Before(table[j], last);
      var j :| 0 <= j < |table| && table[j] == n.value;
      assert j < k;
    }
  }

  // With the low addresses in order, the region before the upper bound is the one that covers ip, if any does.
  lemma RightRegion(regions: seq<Region>, symbols: seq<Entry>, modules: seq<Module>, ip: nat, k: nat, i: nat)
    requires Indexes(regions, symbols, modules) && WellPlaced(modules) && k <= |regions|
    requires forall j :: 0 <= j < k ==> regions[j].low <= ip
    requires forall j :: k <= j < |regions| ==> ip < regions[j].low
    requires i < |modules| && Covers(modules[i], ip)
    ensures k > 0 && Describes(regions[k - 1], symbols, modules[i])
  {
    var n := RegionOf(regions, symbols, modules, i);
    SameRegion(symbols, modules, ip, i, regions[n], regions[k - 1]);
  }

  lemma RegionOf(regions: seq<Region>, symbols: seq<Entry>, modules: seq<Module>, i: nat) returns (n: nat)
    requires Complete(regions, symbols, modules) && i < |modules| && Usable(modules[i])
    ensures n < |regions| && Describes(regions[n], symbols, modules[i])
    ensures forall k :: 0 <= k < |regions| ==> FromSome(regions[k], symbols, modules)
  {
    assert HasRegion(regions, symbols, modules[i]);
    var r :| r in regions && Describes(r, symbols, modules[i]);
    n :| 0 <= n < |regions| && regions[n] == r;
    forall k | 0 <= k < |regions| ensures FromSome(regions[k], symbols, modules) { assert regions[k] in regions; }
  }

  lemma SameRegion(symbols: seq<Entry>, modules: seq<Module>, ip: nat, i: nat, r: Region, q: Region)
    requires WellPlaced(modules) && i < |modules| && Covers(modules[i], ip)
    requires Describes(r, symbols, modules[i]) && FromSome(q, symbols, modules) && r.low <= q.low <= ip
    ensures Describes(q, symbols, modules[i])
  {
    var j :| 0 <= j < |modules| && Describes(q, symbols, modules[j]);
    SameModule(modules, i, j);
  }

  lemma SameModule(modules: seq<Module>, i: nat, j: nat)
    requires WellPlaced(modules) && i < |modules| && j < |modules| && Usable(modules[i]) && Usable(modules[j])
    requires Low(modules[i]) <= Low(modules[j]) < High(modules[i])
    ensures i == j
  {
  }

  /** Two binary searches answer what the scan over every module and function answers. */
  method FindFunctionStart(regions: seq<Region>, symbols: seq<Entry>, ip: nat, ghost modules: seq<Module>)
    returns (r: Option<nat>)
    requires Indexes(regions, symbols, modules) && WellPlaced(modules)
    ensures r == Scan(modules, ip)
    ensures forall a: nat :: r == Some(a) <==> Located(modules, ip, a)
  {
    forall a: nat ensures Scan(modules, ip) == Some(a) <==> Located(modules, ip, a) { ScanExactly(modules, ip, a); }
    var k := UpperBound(regions, (x: Region) => x.low, ip);
    ghost var any := exists i :: 0 <= i < |modules| && Covers(modules[i], ip);
    if any {
      ghost var i: nat :| i < |modules| && Covers(modules[i], ip);
      RightRegion(regions, symbols, modules, ip, k, i);
      ScanFinds(modules, ip, i);
    } else {
      ScanNothing(modules, ip);
    }
    if k == 0 {
      return None;
    }
    var region := regions[k - 1];
    assert region in regions && FromSome(region, symbols, modules);
    if ip >= region.high {
      return None;
    }
    r := FindInRegion(region, symbols, ip, modules);
  }

  lemma TableAnswers(region: Region, symbols: seq<Entry>, m: Module, ip: nat, k: nat)
    requires Describes(region, symbols, m) && k <= region.symCount
    requires var table := Decoded(region.low, symbols[region.symOffset..region.symOffset + region.symCount]);
             && (forall j :: 0 <= j < k ==> table[j].start <= ip)
             && (forall j :: k <= j < |table| ==> ip < table[j].start)
    ensures var table := Decoded(region.low, symbols[region.symOffset..region.symOffset + region.symCount]);
            Answer(m, ip) == if k > 0 && ip < table[k - 1].end then Some(table[k - 1].start) else None
  {
    var table := Decoded(region.low, symbols[region.symOffset..region.symOffset + region.symCount]);
    NearestInTable(table, Functions(m.base, m.symbols), region.low, ip, k);
  }

  method FindInRegion(region: Region, symbols: seq<Entry>, ip: nat, ghost modules: seq<Module>) returns (r: Option<nat>)
    requires FromSome(region, symbols, modules) && WellPlaced(modules) && region.low <= ip < region.high
    ensures r == Scan(modules, ip)
  {
    ghost var i: nat :| i < |modules| && Describes(region, symbols, modules[i]);
    ScanFinds(modules, ip, i);
    var low := region.low;
    var entries := symbols[region.symOffset..region.symOffset + region.symCount];
    ghost var table := Decoded(low, entries);
    var k := LastEntry(entries, low, ip);
    TableAnswers(region, symbols, modules[i], ip, k);
    if k == 0 {
      return None;
    }
    var e := entries[k - 1];
    var start := (low + e.offset) % WORD;
    assert table[k - 1] == Function(start, (start + e.size) % WORD);
    if ip >= (start + e.size) % WORD {
      return None;
    }
    return Some(start);
  }

  method LastEntry(entries: seq<Entry>, low: nat, ip: nat) returns (k: nat)
    requires Increasing(Decoded(low, entries))
    ensures k <= |entries|
    ensures forall j :: 0 <= j < k ==> Decoded(low, entries)[j].start <= ip
    ensures forall j :: k <= j < |entries| ==> ip < Decoded(low, entries)[j].start
  {
    ghost var table := Decoded(low, entries);
    assert forall j :: 0 <= j < |entries| ==> table[j].start == (low + entries[j].offset) % WORD;
    forall a, b | 0 <= a < b < |entries| ensures (low + entries[a].offset) % WORD <= (low + entries[b].offset) % WORD {
      assert Before(table[a], table[b]);
    }
    k := UpperBound(entries, (e: Entry) => (low + e.offset) % WORD, ip);
  }

  // The lookup libunwind makes: the distance from the start of the function.
  method GetProcName(regions: seq<Region>, symbols: seq<Entry>, ip: nat, ghost modules: seq<Module>)
    returns (r: Option<nat>)
    requires Indexes(regions, symbols, modules) && WellPlaced(modules)
    ensures r == match Scan(modules, ip) case None => None case Some(start) => Some(ip - start)
    ensures forall a: nat :: Located(modules, ip, a) ==> a <= ip && r == Some(ip - a)
    ensures r.Some? ==> r.value <= ip && Located(modules, ip, ip - r.value)
  {
    var f := FindFunctionStart(regions, symbols, ip, modules);
    if f.None? {
      return None;
    }
    ScanBelow(modules, ip);
    return Some(ip - f.value);
  }
}
