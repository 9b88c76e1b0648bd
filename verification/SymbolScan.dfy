/** The functions of the loaded modules, and a plain scan over them for the one that holds an address. */
module SymbolScan {
  import opened Collections
  import opened Words

  const LIMIT32 := 0x1_0000_0000

  /** A program header; executable means PT_LOAD with PF_X. */
  datatype Segment = Segment(vaddr: nat, size: nat, executable: bool)

  /** A symbol of the module's symbol tables. */
  datatype Symbol = Symbol(value: nat, size: nat, isFunction: bool, isDefined: bool)

  /** A loaded module; one whose file cannot be read has no symbols. */
  datatype Module = Module(base: nat, segments: seq<Segment>, symbols: seq<Symbol>)

  datatype Span = Span(low: nat, high: nat)

  datatype Function = Function(start: nat, end: nat)

  // --- What a module contains (addresses wrap at 2^64) ---

  function SpanOf(base: nat, s: Segment): Span {
    var low := (base + s.vaddr) % WORD;
    Span(low, (low + s.size) % WORD)
  }

  /** The hull of the executable segments. */
  function ExecSpan(base: nat, segments: seq<Segment>): Option<Span> {
    if segments == [] then None
    else
      var s := segments[|segments| - 1];
      var rest := ExecSpan(base, segments[..|segments| - 1]);
      if !s.executable then rest
      else if rest.None? then Some(SpanOf(base, s))
      else Some(Hull(rest.value, SpanOf(base, s)))
  }

  /** It is missing just when no segment is executable, holds every executable segment, and is no larger
      than needed at either end. */
  lemma {:induction false} ExecSpanIsHull(base: nat, segments: seq<Segment>)
    ensures var r := ExecSpan(base, segments);
            && (r.None? <==> forall k :: 0 <= k < |segments| ==> !segments[k].executable)
            && (r.Some? ==>
                  && (forall k :: 0 <= k < |segments| && segments[k].executable ==>
                        r.value.low <= SpanOf(base, segments[k]).low && SpanOf(base, segments[k]).high <= r.value.high)
                  && (exists k :: 0 <= k < |segments| && segments[k].executable &&
                        r.value.low == SpanOf(base, segments[k]).low)
                  && (exists k :: 0 <= k < |segments| && segments[k].executable &&
                        r.value.high == SpanOf(base, segments[k]).high))
  {
    if segments != [] {
      var last := |segments| - 1;
      var init := segments[..last];
      ExecSpanIsHull(base, init);
      assert forall k :: 0 <= k < last ==> init[k] == segments[k];
      assert segments[last].executable || forall k :: 0 <= k < |segments| && segments[k].executable ==> k < last;
    }
  }

  function Hull(a: Span, b: Span): Span {
    Span(if b.low < a.low then b.low else a.low, if b.high > a.high then b.high else a.high)
  }

  predicate IsCode(s: Symbol) {
    s.isFunction && s.isDefined && s.size != 0
  }

  function FunctionOf(base: nat, s: Symbol): Function {
    var start := (s.value + base) % WORD;
    Function(start, (start + s.size) % WORD)
  }

  function Functions(base: nat, symbols: seq<Symbol>): seq<Function> {
    if symbols == [] then []
    else
      var s := symbols[|symbols| - 1];
      Functions(base, symbols[..|symbols| - 1]) + (if IsCode(s) then [FunctionOf(base, s)] else [])
  }

  lemma {:induction false} FunctionsBounds(base: nat, symbols: seq<Symbol>)
    ensures |Functions(base, symbols)| <= |symbols|
    ensures forall f :: f in Functions(base, symbols) ==> f.start < WORD && f.end < WORD
  {
    if symbols != [] { FunctionsBounds(base, symbols[..|symbols| - 1]); }
  }

  predicate Usable(m: Module) {
    var span := ExecSpan(m.base, m.segments);
    span.Some? && span.value.low != span.value.high && Functions(m.base, m.symbols) != []
  }

  function Low(m: Module): nat
    requires Usable(m)
  {
    ExecSpan(m.base, m.segments).value.low
  }

  function High(m: Module): nat
    requires Usable(m)
  {
    ExecSpan(m.base, m.segments).value.high
  }

  predicate Covers(m: Module, ip: nat) {
    Usable(m) && Low(m) <= ip < High(m)
  }

  // The functions the compact form can hold: offset and size fit 32 bits.
  predicate Fits(low: nat, f: Function) {
    (f.start - low) % WORD < LIMIT32 && (f.end - f.start) % WORD < LIMIT32
  }

  predicate Before(f: Function, g: Function) {
    f.start < g.start || (f.start == g.start && f.end < g.end)
  }

  // --- The simple form: a scan over every module and every function ---

  predicate Candidate(low: nat, ip: nat, f: Function) {
    Fits(low, f) && f.start <= ip
  }

  function Nearest(fs: seq<Function>, low: nat, ip: nat): Option<Function> {
    if fs == [] then None
    else
      var f := fs[|fs| - 1];
      var rest := Nearest(fs[..|fs| - 1], low, ip);
      if !Candidate(low, ip, f) then rest
      else if rest.None? || Before(rest.value, f) then Some(f)
      else rest
  }

  /** The last function, by start and then by end, that starts at or before ip. */
  lemma {:induction false} NearestIsLast(fs: seq<Function>, low: nat, ip: nat)
    ensures var r := Nearest(fs, low, ip);
            && (r.None? ==> forall f :: f in fs ==> !Candidate(low, ip, f))
            && (r.Some? ==> r.value in fs && Candidate(low, ip, r.value) &&
                            forall f :: f in fs && Candidate(low, ip, f) ==> !Before(r.value, f))
  {
    if fs != [] {
      var init := fs[..|fs| - 1];
      NearestIsLast(init, low, ip);
      assert fs == init + [fs[|fs| - 1]];
    }
  }

  function Answer(m: Module, ip: nat): Option<nat>
    requires Usable(m)
  {
    match Nearest(Functions(m.base, m.symbols), Low(m), ip)
    case None => None
    case Some(f) => if ip < f.end then Some(f.start) else None
  }

  function Scan(modules: seq<Module>, ip: nat): Option<nat> {
    if modules == [] then None
    else if Covers(modules[0], ip) then Answer(modules[0], ip)
    else Scan(modules[1..], ip)
  }

  /** What the loader guarantees: code ranges do not wrap and do not overlap. */
  predicate WellPlaced(modules: seq<Module>) {
    && (forall i :: 0 <= i < |modules| && Usable(modules[i]) ==> Low(modules[i]) < High(modules[i]))
    && (forall i, j :: 0 <= i < j < |modules| && Usable(modules[i]) && Usable(modules[j]) ==>
          High(modules[i]) <= Low(modules[j]) || High(modules[j]) <= Low(modules[i]))
  }

  lemma {:induction false} ScanFinds(modules: seq<Module>, ip: nat, i: nat)
    requires WellPlaced(modules) && i < |modules| && Covers(modules[i], ip)
    ensures Scan(modules, ip) == Answer(modules[i], ip)
  {
    if i > 0 {
      assert !Covers(modules[0], ip);
      TailPlaced(modules);
      ScanFinds(modules[1..], ip, i - 1);
    }
  }

  lemma TailPlaced(modules: seq<Module>)
    requires WellPlaced(modules) && modules != []
    ensures WellPlaced(modules[1..])
  {
    forall i, j | 0 <= i < j < |modules[1..]| && Usable(modules[1..][i]) && Usable(modules[1..][j])
      ensures High(modules[1..][i]) <= Low(modules[1..][j]) || High(modules[1..][j]) <= Low(modules[1..][i]) {
      assert Usable(modules[i + 1]) && Usable(modules[j + 1]);
    }
  }

  lemma {:induction false} ScanNothing(modules: seq<Module>, ip: nat)
    requires forall i :: 0 <= i < |modules| ==> !Covers(modules[i], ip)
    ensures Scan(modules, ip) == None
  {
    if modules != [] {
      forall i | 0 <= i < |modules[1..]| ensures !Covers(modules[1..][i], ip) { assert !Covers(modules[i + 1], ip); }
      ScanNothing(modules[1..], ip);
    }
  }

  lemma {:induction false} ScanBelow(modules: seq<Module>, ip: nat)
    ensures Scan(modules, ip).Some? ==> Scan(modules, ip).value <= ip
  {
    if modules != [] {
      if Covers(modules[0], ip) {
        NearestIsLast(Functions(modules[0].base, modules[0].symbols), Low(modules[0]), ip);
      } else {
        ScanBelow(modules[1..], ip);
      }
    }
  }

  // --- What the scan finds, told by segments and symbols ---

  // Where the loader puts an address of the module's file.
  function At(m: Module, address: nat): nat {
    (m.base + address) % WORD
  }

  // The address lies between the lowest and the highest executable one.
  ghost predicate InRange(m: Module, ip: nat) {
    && (exists g :: g in m.segments && g.executable && At(m, g.vaddr) <= ip)
    && (exists g :: g in m.segments && g.executable && ip < At(m, g.vaddr + g.size))
  }

  ghost predicate IsLowest(m: Module, g: Segment) {
    && g in m.segments && g.executable
    && forall h :: h in m.segments && h.executable ==> At(m, g.vaddr) <= At(m, h.vaddr)
  }

  // A symbol of code whose distance from the lowest executable address, and whose size, fit 32 bits.
  ghost predicate Storable(m: Module, y: Symbol) {
    && y in m.symbols && y.isFunction && y.isDefined && y.size != 0 && y.size % WORD < LIMIT32
    && exists g :: IsLowest(m, g) && (At(m, y.value) - At(m, g.vaddr)) % WORD < LIMIT32
  }

  // Of the symbols that start at or before ip this one starts last, and of those that start with it ends last;
  // and it ends after ip.
  ghost predicate Holds(m: Module, y: Symbol, ip: nat) {
    && Storable(m, y) && At(m, y.value) <= ip < At(m, y.value + y.size)
    && forall z :: Storable(m, z) && At(m, z.value) <= ip ==>
         At(m, z.value) < At(m, y.value) ||
         (At(m, z.value) == At(m, y.value) && At(m, z.value + z.size) <= At(m, y.value + y.size))
  }

  // Some module has the address in its range and a symbol that starts at a holds it.
  ghost predicate Located(modules: seq<Module>, ip: nat, a: nat) {
    exists i, y :: 0 <= i < |modules| && InRange(modules[i], ip) && Holds(modules[i], y, ip) &&
                   a == At(modules[i], y.value)
  }

  lemma {:induction false} FunctionsExactly(base: nat, symbols: seq<Symbol>, f: Function)
    ensures f in Functions(base, symbols) <==> exists y :: y in symbols && IsCode(y) && f == FunctionOf(base, y)
  {
    if symbols != [] {
      var init, last := symbols[..|symbols| - 1], symbols[|symbols| - 1];
      FunctionsExactly(base, init, f);
      assert symbols == init + [last];
    }
  }

  lemma WrapAdd(x: nat, n: nat)
    ensures (x % WORD + n) % WORD == (x + n) % WORD
  {
  }

  lemma WrapSub(x: nat, n: nat)
    ensures ((x + n) % WORD - x % WORD) % WORD == n % WORD
  {
  }

  lemma EndAt(m: Module, address: nat, size: nat)
    ensures (At(m, address) + size) % WORD == At(m, address + size)
    ensures (At(m, address + size) - At(m, address)) % WORD == size % WORD
  {
    var x, end := m.base + address, m.base + (address + size);
    assert end == x + size;
    WrapAdd(x, size);
    WrapSub(x, size);
  }

  // The function of a symbol, and whether it fits, by where the loader puts it.
  lemma FunctionAt(m: Module, y: Symbol, low: nat)
    ensures FunctionOf(m.base, y) == Function(At(m, y.value), At(m, y.value + y.size))
    ensures Fits(low, FunctionOf(m.base, y)) <==> (At(m, y.value) - low) % WORD < LIMIT32 && y.size % WORD < LIMIT32
  {
    EndAt(m, y.value, y.size);
  }

  lemma SpanAt(m: Module, g: Segment)
    ensures SpanOf(m.base, g) == Span(At(m, g.vaddr), At(m, g.vaddr + g.size))
  {
    EndAt(m, g.vaddr, g.size);
  }

  // The range of a module with code is that of its executable segments, and starts at the lowest of them.
  lemma RangeAt(m: Module)
    requires ExecSpan(m.base, m.segments).Some?
    ensures var span := ExecSpan(m.base, m.segments).value;
            && (forall ip: nat :: InRange(m, ip) <==> span.low <= ip < span.high)
            && (exists g :: IsLowest(m, g)) && (forall g :: IsLowest(m, g) ==> At(m, g.vaddr) == span.low)
  {
    var span := ExecSpan(m.base, m.segments).value;
    ExecSpanIsHull(m.base, m.segments);
    forall g ensures SpanOf(m.base, g) == Span(At(m, g.vaddr), At(m, g.vaddr + g.size)) { SpanAt(m, g); }
    var a :| 0 <= a < |m.segments| && m.segments[a].executable && span.low == SpanOf(m.base, m.segments[a]).low;
    var b :| 0 <= b < |m.segments| && m.segments[b].executable && span.high == SpanOf(m.base, m.segments[b]).high;
    assert m.segments[a] in m.segments && m.segments[b] in m.segments;
    assert IsLowest(m, m.segments[a]);
  }

  lemma CoversExactly(m: Module, ip: nat)
    ensures Covers(m, ip) <==> InRange(m, ip) && exists y :: y in m.symbols && IsCode(y)
  {
    var span := ExecSpan(m.base, m.segments);
    ExecSpanIsHull(m.base, m.segments);
    if span.Some? { RangeAt(m); }
    var fs := Functions(m.base, m.symbols);
    if fs != [] {
      FunctionsExactly(m.base, m.symbols, fs[0]);
    }
    if y :| y in m.symbols && IsCode(y) {
      FunctionsExactly(m.base, m.symbols, FunctionOf(m.base, y));
    }
  }

  // The candidates for an address are the storable symbols that start at or before it.
  lemma StorableExactly(m: Module, y: Symbol)
    requires Usable(m)
    ensures Storable(m, y) <==> y in m.symbols && IsCode(y) && Fits(Low(m), FunctionOf(m.base, y))
  {
    RangeAt(m);
    FunctionAt(m, y, Low(m));
  }

  lemma StorableFunction(m: Module, f: Function) returns (y: Symbol)
    requires Usable(m) && f in Functions(m.base, m.symbols) && Fits(Low(m), f)
    ensures Storable(m, y) && f == Function(At(m, y.value), At(m, y.value + y.size))
  {
    FunctionsExactly(m.base, m.symbols, f);
    y :| y in m.symbols && IsCode(y) && f == FunctionOf(m.base, y);
    StorableExactly(m, y);
    FunctionAt(m, y, Low(m));
  }

  lemma FunctionStorable(m: Module, y: Symbol) returns (f: Function)
    requires Usable(m) && Storable(m, y)
    ensures f == Function(At(m, y.value), At(m, y.value + y.size))
    ensures f in Functions(m.base, m.symbols) && Fits(Low(m), f)
  {
    f := FunctionOf(m.base, y);
    StorableExactly(m, y);
    FunctionsExactly(m.base, m.symbols, f);
    FunctionAt(m, y, Low(m));
  }

  lemma AnswerHolds(m: Module, ip: nat) returns (y: Symbol)
    requires Usable(m) && Answer(m, ip).Some?
    ensures Holds(m, y, ip) && Answer(m, ip) == Some(At(m, y.value))
  {
    var fs := Functions(m.base, m.symbols);
    NearestIsLast(fs, Low(m), ip);
    var f := Nearest(fs, Low(m), ip).value;
    y := StorableFunction(m, f);
    forall z | Storable(m, z) && At(m, z.value) <= ip
      ensures At(m, z.value) < At(m, y.value) ||
              (At(m, z.value) == At(m, y.value) && At(m, z.value + z.size) <= At(m, y.value + y.size)) {
      var g := FunctionStorable(m, z);
      assert Candidate(Low(m), ip, g);
    }
  }

  lemma HoldsAnswer(m: Module, ip: nat, y: Symbol)
    requires Usable(m) && Holds(m, y, ip)
    ensures Answer(m, ip) == Some(At(m, y.value))
  {
    var fs := Functions(m.base, m.symbols);
    NearestIsLast(fs, Low(m), ip);
    var g := FunctionStorable(m, y);
    assert Candidate(Low(m), ip, g);
    var z := StorableFunction(m, Nearest(fs, Low(m), ip).value);
  }

  lemma IsLocated(modules: seq<Module>, i: nat, y: Symbol, ip: nat)
    requires i < |modules| && InRange(modules[i], ip) && Holds(modules[i], y, ip)
    ensures Located(modules, ip, At(modules[i], y.value))
  {
  }

  lemma ScanLocated(modules: seq<Module>, ip: nat, a: nat)
    requires WellPlaced(modules) && Scan(modules, ip) == Some(a)
    ensures Located(modules, ip, a)
  {
    if i: nat :| i < |modules| && Covers(modules[i], ip) {
      ScanFinds(modules, ip, i);
      CoversExactly(modules[i], ip);
      var y := AnswerHolds(modules[i], ip);
      IsLocated(modules, i, y, ip);
    } else {
      ScanNothing(modules, ip);
    }
  }

  lemma HeldFound(modules: seq<Module>, i: nat, y: Symbol, ip: nat)
    requires WellPlaced(modules) && i < |modules| && InRange(modules[i], ip) && Holds(modules[i], y, ip)
    ensures Scan(modules, ip) == Some(At(modules[i], y.value))
  {
    assert y in modules[i].symbols && IsCode(y);
    CoversExactly(modules[i], ip);
    HoldsAnswer(modules[i], ip, y);
    ScanFinds(modules, ip, i);
  }

  /** The scan answers an address exactly when some module has it in its range and a symbol of that module holds it:
      the answer is where the loader put that symbol. */
  lemma ScanExactly(modules: seq<Module>, ip: nat, a: nat)
    requires WellPlaced(modules)
    ensures Scan(modules, ip) == Some(a) <==> Located(modules, ip, a)
  {
    if Scan(modules, ip) == Some(a) {
      ScanLocated(modules, ip, a);
    }
    if Located(modules, ip, a) {
      var i: nat, y :| i < |modules| && InRange(modules[i], ip) && Holds(modules[i], y, ip) &&
                  a == At(modules[i], y.value);
      HeldFound(modules, i, y, ip);
    }
  }

  // Nothing of the module's code reaches the end of the address space.
  ghost predicate Plain(m: Module) {
    && (forall g :: g in m.segments && g.executable ==> m.base + g.vaddr + g.size < WORD)
    && (forall z :: z in m.symbols && IsCode(z) ==> m.base + z.value + z.size < WORD)
  }

  // The address is within the range of the module's executable segments.
  ghost predicate PlainRange(m: Module, ip: nat) {
    && (exists g :: g in m.segments && g.executable && m.base + g.vaddr <= ip)
    && (exists g :: g in m.segments && g.executable && ip < m.base + g.vaddr + g.size)
  }

  // A defined function symbol of the module, not below its executable segments, whose offset from them and size fit
  // 32 bits.
  ghost predicate PlainSymbol(m: Module, y: Symbol) {
    && y in m.symbols && y.isFunction && y.isDefined && 0 < y.size < LIMIT32
    && (exists g :: g in m.segments && g.executable && g.vaddr <= y.value)
    && (forall g :: g in m.segments && g.executable ==> y.value < g.vaddr + LIMIT32)
  }

  // No symbol of code starts between that symbol and the address, or with that symbol and ends later.
  ghost predicate NoneNearer(m: Module, y: Symbol, ip: nat) {
    forall z :: z in m.symbols && z.isFunction && z.isDefined && z.size != 0 ==>
      !(y.value < z.value && m.base + z.value <= ip) && !(z.value == y.value && y.size < z.size)
  }

  /** Away from the end of the address space: an address within a function of a loaded module is answered with the
      module's base plus the symbol's value, unless another symbol is nearer. */
  lemma SymbolFound(modules: seq<Module>, i: nat, y: Symbol, ip: nat)
    requires WellPlaced(modules) && i < |modules| && Plain(modules[i])
    requires PlainRange(modules[i], ip) && PlainSymbol(modules[i], y) && NoneNearer(modules[i], y, ip)
    requires modules[i].base + y.value <= ip < modules[i].base + y.value + y.size
    ensures Scan(modules, ip) == Some(modules[i].base + y.value)
  {
    var m := modules[i];
    PlainHolds(m, y, ip);
    PlainInRange(m, ip);
    HeldFound(modules, i, y, ip);
  }

  lemma PlainAt(m: Module, address: nat)
    requires m.base + address < WORD
    ensures At(m, address) == m.base + address
  {
  }

  lemma PlainInRange(m: Module, ip: nat)
    requires Plain(m) && PlainRange(m, ip)
    ensures InRange(m, ip)
  {
    var g :| g in m.segments && g.executable && m.base + g.vaddr <= ip;
    var h :| h in m.segments && h.executable && ip < m.base + h.vaddr + h.size;
    PlainAt(m, g.vaddr);
    PlainAt(m, h.vaddr + h.size);
  }

  lemma PlainHolds(m: Module, y: Symbol, ip: nat)
    requires Plain(m) && PlainSymbol(m, y) && NoneNearer(m, y, ip)
    requires m.base + y.value <= ip < m.base + y.value + y.size
    ensures Holds(m, y, ip) && At(m, y.value) == m.base + y.value
  {
    PlainStorable(m, y);
    PlainAt(m, y.value);
    PlainAt(m, y.value + y.size);
    forall z | Storable(m, z) && At(m, z.value) <= ip
      ensures At(m, z.value) < At(m, y.value) ||
              (At(m, z.value) == At(m, y.value) && At(m, z.value + z.size) <= At(m, y.value + y.size)) {
      assert z in m.symbols && IsCode(z);
      PlainAt(m, z.value);
      PlainAt(m, z.value + z.size);
    }
  }

  lemma PlainStorable(m: Module, y: Symbol)
    requires Plain(m) && PlainSymbol(m, y)
    ensures Storable(m, y)
  {
    var h :| h in m.segments && h.executable && h.vaddr <= y.value;
    var g := LowestSegment(m, h);
    PlainOffset(m, y, g, h);
    SmallOffset(y.size);
  }

  lemma PlainOffset(m: Module, y: Symbol, g: Segment, h: Segment)
    requires Plain(m) && PlainSymbol(m, y)
    requires IsLowest(m, g) && h in m.segments && h.executable && h.vaddr <= y.value
    ensures (At(m, y.value) - At(m, g.vaddr)) % WORD < LIMIT32
  {
    var low, start := At(m, g.vaddr), At(m, y.value);
    assert low <= At(m, h.vaddr);
    PlainAt(m, g.vaddr);
    PlainAt(m, h.vaddr);
    PlainAt(m, y.value);
    SmallOffset(start - low);
  }

  lemma SmallOffset(d: int)
    requires 0 <= d < LIMIT32
    ensures d % WORD < LIMIT32
  {
  }

  lemma LowestSegment(m: Module, h: Segment) returns (g: Segment)
    requires h in m.segments && h.executable
    ensures IsLowest(m, g)
  {
    ExecSpanIsHull(m.base, m.segments);
    RangeAt(m);
    g :| IsLowest(m, g);
  }
}
