/** Decoding inverts encoding. */
module TreeRoundTrip {
  import opened Words
  import opened Names
  import opened Varint
  import opened TreeStore
  import opened TreeInsert
  import opened TreeDecode

  /** A tree as a value. */
  datatype Value = Value(name: Name, self: nat, kids: seq<Value>)

  ghost predicate FieldsFit(v: Value) {
    |v.name| < WORD && v.self < 0x8000_0000_0000_0000 && |v.kids| < WORD
  }

  // Distinct sibling names everywhere, and numbers that fit their fields.
  ghost predicate Proper(v: Value)
    decreases v
  {
    && FieldsFit(v)
    && (forall i, j :: 0 <= i < j < |v.kids| ==> v.kids[i].name != v.kids[j].name)
    && (forall k :: 0 <= k < |v.kids| ==> Proper(v.kids[k]))
  }

  function Encode(v: Value): (r: seq<Byte>)
    ensures |r| >= 3
    decreases v, 1
  {
    PutUvarint(|v.name|) + v.name + PutUvarint(v.self) + PutUvarint(|v.kids|) + EncodeAll(v.kids)
  }

  function EncodeAll(vs: seq<Value>): seq<Byte>
    decreases vs, 0
  {
    if vs == [] then [] else Encode(vs[0]) + EncodeAll(vs[1..])
  }

  ghost function ValueTotal(v: Value): nat
    decreases v, 1
  {
    v.self + ValueTotals(v.kids)
  }

  ghost function ValueTotals(vs: seq<Value>): nat
    decreases vs, 0
  {
    if vs == [] then 0 else ValueTotal(vs[0]) + ValueTotals(vs[1..])
  }

  /** Node id of the store is the root of a copy of v: same name, self weight and recursive total, and
      its children are copies of v's children, one each. */
  ghost predicate Represents(st: Store, id: nat, v: Value)
    decreases v
  {
    && id < |st| && st[id].name == v.name && st[id].self == v.self && st[id].total == ValueTotal(v)
    && |st[id].children| == |v.kids|
    && forall k :: 0 <= k < |v.kids| ==> exists c :: c in st[id].children && Represents(st, c, v.kids[k])
  }

  // --- Reading one encoded node ---

  lemma {:induction false} EncodeAllConcat(a: seq<Value>, b: seq<Value>)
    ensures EncodeAll(a + b) == EncodeAll(a) + EncodeAll(b)
  {
    if a == [] { assert a + b == b; }
    else {
      EncodeAllConcat(a[1..], b);
      assert (a + b)[1..] == a[1..] + b && (a + b)[0] == a[0];
      Assoc(Encode(a[0]), EncodeAll(a[1..]), EncodeAll(b));
    }
  }

  lemma Assoc(a: seq<Byte>, b: seq<Byte>, c: seq<Byte>)
    ensures a + (b + c) == a + b + c
  {
  }

  lemma ReadPut(b: seq<Byte>, offset: nat, v: nat, tail: seq<Byte>)
    requires offset <= |b| && b[offset..] == PutUvarint(v) + tail && v < WORD
    ensures ReadNumber(b, offset) == Got(v, offset + |PutUvarint(v)|)
    ensures offset + |PutUvarint(v)| <= |b| && b[offset + |PutUvarint(v)|..] == tail
  {
    VarintRoundTrip(v, tail);
    Drop(b, offset, PutUvarint(v), tail);
  }

  lemma Drop(b: seq<Byte>, offset: nat, head: seq<Byte>, tail: seq<Byte>)
    requires offset <= |b| && b[offset..] == head + tail
    ensures offset + |head| <= |b| && b[offset + |head|..] == tail && b[offset..offset + |head|] == head
  {
    assert |b| - offset == |head| + |tail|;
    assert b[offset + |head|..] == b[offset..][|head|..];
    assert b[offset..offset + |head|] == b[offset..][..|head|];
  }

  lemma ReadPieces(b: seq<Byte>, offset: nat, name: Name, self: nat, count: nat, rest: seq<Byte>)
    returns (o1: nat, o2: nat, o3: nat)
    requires offset <= |b| && |name| < WORD && self < WORD && count < WORD
    requires b[offset..] == PutUvarint(|name|) + (name + (PutUvarint(self) + (PutUvarint(count) + rest)))
    ensures ReadNumber(b, offset) == Got(|name|, o1) && o1 + |name| <= |b| && b[o1..o1 + |name|] == name
    ensures ReadNumber(b, o1 + |name|) == Got(self, o2) && o2 <= |b|
    ensures ReadNumber(b, o2) == Got(count, o3) && o3 <= |b| && b[o3..] == rest
  {
    var t2 := PutUvarint(count) + rest;
    var t1 := PutUvarint(self) + t2;
    ReadPut(b, offset, |name|, name + t1);
    o1 := offset + |PutUvarint(|name|)|;
    Drop(b, o1, name, t1);
    ReadPut(b, o1 + |name|, self, t2);
    o2 := o1 + |name| + |PutUvarint(self)|;
    ReadPut(b, o2, count, rest);
    o3 := o2 + |PutUvarint(count)|;
  }

  lemma Regroup(a: seq<Byte>, b: seq<Byte>, c: seq<Byte>, d: seq<Byte>, e: seq<Byte>, f: seq<Byte>)
    ensures a + b + c + d + e + f == a + (b + (c + (d + (e + f))))
  {
  }

  lemma ReadNodePieces(b: seq<Byte>, s: Progress, name: Name, self: nat, count: nat, rest: seq<Byte>) returns (o3: nat)
    requires Ready(b, s) && s.parents != [] && |name| < WORD && self < WORD && count < WORD
    requires b[s.offset..] == PutUvarint(|name|) + (name + (PutUvarint(self) + (PutUvarint(count) + rest)))
    ensures o3 <= |b| && b[o3..] == rest
    ensures var (st', n) := Attach(s.st, s.parents[0], name, self);
            ReadNode(b, s) == Running(Progress(st', Repeat(n, count) + s.parents[1..], o3))
  {
    var o1, o2;
    o1, o2, o3 := ReadPieces(b, s.offset, name, self, count, rest);
    ReadNodeAt(b, s, name, self, count, o1, o2, o3);
  }

  lemma ReadNodeAt(b: seq<Byte>, s: Progress, name: Name, self: nat, count: nat, o1: nat, o2: nat, o3: nat)
    requires Ready(b, s) && s.parents != [] && o2 <= |b|
    requires ReadNumber(b, s.offset) == Got(|name|, o1) && o1 + |name| <= |b| && b[o1..o1 + |name|] == name
    requires ReadNumber(b, o1 + |name|) == Got(self, o2) && ReadNumber(b, o2) == Got(count, o3)
    ensures var (st', n) := Attach(s.st, s.parents[0], name, self);
            ReadNode(b, s) == Running(Progress(st', Repeat(n, count) + s.parents[1..], o3))
  {
  }

  lemma {:induction false} ReadEncoded(b: seq<Byte>, s: Progress, v: Value, tail: seq<Byte>) returns (o3: nat)
    requires Ready(b, s) && s.parents != [] && FieldsFit(v)
    requires b[s.offset..] == Encode(v) + tail
    ensures o3 <= |b| && b[o3..] == EncodeAll(v.kids) + tail
    ensures var (st', n) := Attach(s.st, s.parents[0], v.name, v.self);
            ReadNode(b, s) == Running(Progress(st', Repeat(n, |v.kids|) + s.parents[1..], o3))
  {
    Regroup(PutUvarint(|v.name|), v.name, PutUvarint(v.self), PutUvarint(|v.kids|), EncodeAll(v.kids), tail);
    o3 := ReadNodePieces(b, s, v.name, v.self, |v.kids|, EncodeAll(v.kids) + tail);
  }

  // --- The tree built so far ---

  ghost function UpTo(n: nat): (r: set<nat>)
    ensures forall i :: i in r <==> 0 <= i < n
  {
    if n == 0 then {} else UpTo(n - 1) + {n - 1}
  }

  ghost function All(st: Store): set<nat> {
    UpTo(|st|)
  }

  // The values of the given nodes.
  ghost function ValuesOf(vals: seq<Value>, ids: seq<nat>): (r: seq<Value>)
    requires forall k :: 0 <= k < |ids| ==> ids[k] < |vals|
    ensures |r| == |ids|
  {
    seq(|ids|, k requires 0 <= k < |ids| => vals[ids[k]])
  }

  // The values still to come under node id: todo[k] goes under parents[k].
  ghost function PendingAt(todo: seq<Value>, parents: seq<nat>, id: nat): multiset<Value>
    requires |todo| == |parents|
  {
    if todo == [] then multiset{}
    else (if parents[0] == id then multiset{todo[0]} else multiset{}) + PendingAt(todo[1..], parents[1..], id)
  }

  // The children of node id and those to come make up the children of its value.
  ghost predicate Accounted(st: Store, vals: seq<Value>, todo: seq<Value>, parents: seq<nat>, id: nat)
    requires |todo| == |parents| && id < |vals| && id < |st|
  {
    && (forall k :: 0 <= k < |st[id].children| ==> st[id].children[k] < |vals|)
    && multiset(ValuesOf(vals, st[id].children)) + PendingAt(todo, parents, id) == multiset(vals[id].kids)
  }

  ghost predicate Kept(st: Store) {
    Shaped(st) && Linked(st, All(st)) && Sorted(st, All(st)) && Law(st, All(st))
  }

  ghost predicate Standing(st: Store, parents: seq<nat>, vals: seq<Value>, todo: seq<Value>) {
    && |vals| == |st| && |todo| == |parents|
    && (forall k :: 0 <= k < |parents| ==> parents[k] < |st|)
    && (forall id :: 0 <= id < |st| ==> Proper(vals[id]))
    && (forall id :: 0 <= id < |st| ==> Accounted(st, vals, todo, parents, id))
    && (forall id :: 0 < id < |st| ==> st[id].name == vals[id].name && st[id].self == vals[id].self)
  }

  /** vals[id] is the value node id is to represent; todo what is left to read, under which parents. */
  ghost predicate Building(st: Store, parents: seq<nat>, vals: seq<Value>, todo: seq<Value>) {
    Kept(st) && Standing(st, parents, vals, todo)
  }

  // The next value's name is not yet among the children of its parent.
  lemma NameIsNew(st: Store, parents: seq<nat>, vals: seq<Value>, todo: seq<Value>, k: nat)
    requires Building(st, parents, vals, todo) && todo != [] && k < |st[parents[0]].children|
    ensures st[parents[0]].children[k] < |st| && st[st[parents[0]].children[k]].name != todo[0].name
  {
    var q, v := parents[0], todo[0];
    var ch := st[q].children;
    assert Accounted(st, vals, todo, parents, q);
    assert DownLink(st, All(st), q, ch[k]);
    var kv := ValuesOf(vals, ch);
    assert PendingAt(todo, parents, q) == multiset{v} + PendingAt(todo[1..], parents[1..], q);
    NamesApart(multiset(kv), multiset{v} + PendingAt(todo[1..], parents[1..], q), vals[q].kids, kv[k], v);
  }

  lemma NamesApart(a: multiset<Value>, b: multiset<Value>, kids: seq<Value>, x: Value, y: Value)
    requires a + b == multiset(kids) && x in a && y in b
    requires forall i, j :: 0 <= i < j < |kids| ==> kids[i].name != kids[j].name
    ensures x.name != y.name
  {
    assert x in multiset(kids) && y in multiset(kids);
    var i :| 0 <= i < |kids| && kids[i] == x;
    var j :| 0 <= j < |kids| && kids[j] == y;
    AtMostOnce(kids, x);
    assert x == y ==> (a + b)[x] >= 2;
  }

  lemma {:induction false} AtMostOnce(kids: seq<Value>, x: Value)
    requires forall i, j :: 0 <= i < j < |kids| ==> kids[i].name != kids[j].name
    ensures multiset(kids)[x] <= 1
  {
    if kids != [] {
      var last := |kids| - 1;
      AtMostOnce(kids[..last], x);
      assert kids == kids[..last] + [kids[last]];
      if kids[last] == x { assert x !in kids[..last]; }
    }
  }

  // --- Attaching a new node keeps the links, the order and the total law ---

  lemma AttachIsInsert(st: Store, q: nat, v: Value) returns (i: nat, st1: Store)
    requires Shaped(st) && q < |st| && v.self < 0x8000_0000_0000_0000
    requires forall k :: 0 <= k < |st[q].children| ==> st[q].children[k] < |st| && st[st[q].children[k]].name != v.name
    ensures Place(st, q, i, v.name) && st1 == InsertAt(st, q, i, v.name)
    ensures var st2 := st1[|st| := st1[|st|].(self := v.self)];
            && (forall k :: 0 < k < |st2| ==> st2[k].parent < k)
            && Attach(st, q, v.name, v.self) == (AddUp(st2, |st|, v.self), |st|)
  {
    i := PlaceFrom(st, st[q].children, v.name, 0);
    PlaceHere(st, q, v.name, i);
    st1 := InsertAt(st, q, i, v.name);
    InsertChildShaped(st, q, v.name, i);
    assert st1[|st|].children == [];
  }

  lemma {:induction false} AddUpLaw(st: Store, live: set<nat>, id: nat, v: int)
    requires Linked(st, live) && id in live && (forall k :: 0 < k < |st| ==> st[k].parent < k) &&
             OwedAt(st, live, id, -v)
    ensures SameShape(st, AddUp(st, id, v), live) && Linked(AddUp(st, id, v), live) && Law(AddUp(st, id, v), live)
    decreases id
  {
    if id == 0 {
      forall x | x in live && x != 0 ensures LawAt(st, live, x, 0) {
        assert LawAt(st, live, x, if x == 0 then -v else 0);
      }
    } else {
      assert UpLink(st, live, id);
      var st1, p := st[id := st[id].(total := st[id].total + v)], st[id].parent;
      SameShapeLinked(st, st1, live);
      forall x | x in live && x != 0 ensures LawAt(st1, live, x, if x == p then -v else 0) {
        assert LawAt(st, live, x, if x == id then -v else 0);
        BumpTotal(st, st1, live, id, v, x);
      }
      AddUpLaw(st1, live, p, v);
      SameShapeTrans(st, st1, AddUp(st, id, v), live);
    }
  }

  lemma SameShapeTrans(a: Store, b: Store, c: Store, live: set<nat>)
    requires SameShape(a, b, live) && SameShape(b, c, live)
    ensures SameShape(a, c, live)
  {
  }

  // A fresh leaf that is given a self weight has that much too little in its total.
  lemma LeafNew(st1: Store, live1: set<nat>, n: nat, st2: Store, v: int)
    requires Linked(st1, live1) && n in live1 && EmptyNode(st1, live1, n)
    requires st2 == st1[n := st1[n].(self := v)] && Linked(st2, live1) && SameShape(st1, st2, live1)
    ensures LawAt(st2, live1, n, -v)
  {
    BumpTotal(st1, st2, live1, n, 0, n);
  }

  lemma LeafOld(st: Store, live: set<nat>, st1: Store, live1: set<nat>, n: nat, st2: Store, v: int, x: nat)
    requires Linked(st, live) && Linked(st1, live1) && n in live1 && x in live && x in live1 && x != n
    requires LawAt(st, live, x, 0) && SameNode(st, live, st1, live1, x)
    requires st2 == st1[n := st1[n].(self := v)] && Linked(st2, live1) && SameShape(st1, st2, live1)
    ensures LawAt(st2, live1, x, 0)
  {
    BumpTotal(st1, st2, live1, n, 0, x);
    assert st2[x] == st1[x];
  }

  lemma LeafOwed(st: Store, live: set<nat>, st1: Store, live1: set<nat>, n: nat, st2: Store, v: int)
    requires Linked(st, live) && Law(st, live) && Grown(st, live, st1, live1) && n in live1 && n !in live && n != 0
    requires st2 == st1[n := st1[n].(self := v)] && live1 == live + {n}
    ensures Linked(st2, live1) && SameShape(st1, st2, live1) && OwedAt(st2, live1, n, -v)
  {
    assert SameShape(st1, st2, live1);
    SameShapeLinked(st1, st2, live1);
    forall x | x in live1 && x != 0 ensures LawAt(st2, live1, x, if x == n then -v else 0) {
      if x in live { assert SameNode(st, live, st1, live1, x); }
      LeafLaw(st, live, st1, live1, n, st2, v, x);
    }
  }

  lemma LeafLaw(st: Store, live: set<nat>, st1: Store, live1: set<nat>, n: nat, st2: Store, v: int, x: nat)
    requires Linked(st, live) && Law(st, live) && Linked(st1, live1) && n in live1 && n !in live && n != 0
    requires EmptyNode(st1, live1, n) && (x in live ==> x in live1 && SameNode(st, live, st1, live1, x))
    requires st2 == st1[n := st1[n].(self := v)] && live1 == live + {n}
    requires Linked(st2, live1) && SameShape(st1, st2, live1) && x in live1 && x != 0
    ensures LawAt(st2, live1, x, if x == n then -v else 0)
  {
    if x == n { LeafNew(st1, live1, n, st2, v); } else { LeafOld(st, live, st1, live1, n, st2, v, x); }
  }

  lemma AllGrows(st: Store, st1: Store)
    requires |st1| == |st| + 1
    ensures All(st1) == All(st) + {|st|}
  {
  }

  lemma AttachGrown(st: Store, live: set<nat>, st1: Store, live1: set<nat>, n: nat, st2: Store, st': Store, v: int)
    requires Linked(st, live) && Law(st, live) && Grown(st, live, st1, live1) && Sorted(st1, live1)
    requires n in live1 && n !in live && n != 0 && live1 == live + {n}
    requires st2 == st1[n := st1[n].(self := v)] && (forall k :: 0 < k < |st2| ==> st2[k].parent < k)
    requires st' == AddUp(st2, n, v)
    ensures Linked(st', live1) && Sorted(st', live1) && Law(st', live1)
  {
    LeafOwed(st, live, st1, live1, n, st2, v);
    AddUpLaw(st2, live1, n, v);
    SameShapeSorted(st1, st2, live1);
    SameShapeSorted(st2, st', live1);
  }

  lemma AttachKeeps(st: Store, q: nat, v: Value, i: nat, st1: Store, st2: Store, st': Store)
    requires Shaped(st) && Linked(st, All(st)) && Sorted(st, All(st)) && Law(st, All(st))
    requires Place(st, q, i, v.name) && st1 == InsertAt(st, q, i, v.name)
    requires st2 == st1[|st| := st1[|st|].(self := v.self)] && (forall k :: 0 < k < |st2| ==> st2[k].parent < k)
    requires st' == AddUp(st2, |st|, v.self)
    ensures Linked(st', All(st')) && Sorted(st', All(st')) && Law(st', All(st'))
  {
    AllGrows(st, st');
    InsertGrows(st, All(st), q, i, v.name);
    AttachGrown(st, All(st), st1, All(st) + {|st|}, |st|, st2, st', v.self);
  }

  // --- Accounting for the values ---

  lemma PendingCons(v: Value, todo: seq<Value>, n: nat, parents: seq<nat>, id: nat)
    requires |todo| == |parents|
    ensures PendingAt([v] + todo, [n] + parents, id) ==
            (if id == n then multiset{v} else multiset{}) + PendingAt(todo, parents, id)
  {
    assert ([v] + todo)[1..] == todo && ([n] + parents)[1..] == parents;
  }

  lemma {:induction false} PendingPushed(kids: seq<Value>, todo: seq<Value>, parents: seq<nat>, n: nat, id: nat)
    requires |todo| == |parents|
    ensures PendingAt(kids + todo, Repeat(n, |kids|) + parents, id) ==
            (if id == n then multiset(kids) else multiset{}) + PendingAt(todo, parents, id)
    decreases |kids|
  {
    if kids == [] {
      assert kids + todo == todo && Repeat(n, 0) + parents == parents;
    } else {
      var tail, rest := kids[1..] + todo, Repeat(n, |kids[1..]|) + parents;
      PendingPushed(kids[1..], todo, parents, n, id);
      PendingCons(kids[0], tail, n, rest, id);
      ConsFirst(kids, todo);
      RepeatFirst(n, |kids|, parents);
      assert multiset(kids) == multiset{kids[0]} + multiset(kids[1..]) by { assert kids == [kids[0]] + kids[1..]; }
    }
  }

  lemma ConsFirst(kids: seq<Value>, todo: seq<Value>)
    requires kids != []
    ensures kids + todo == [kids[0]] + (kids[1..] + todo)
  {
  }

  lemma RepeatFirst(n: nat, k: nat, parents: seq<nat>)
    requires k > 0
    ensures Repeat(n, k) + parents == [n] + (Repeat(n, k - 1) + parents)
  {
  }

  lemma ValuesInserted(vals: seq<Value>, ch: seq<nat>, i: nat, v: Value)
    requires i <= |ch| && forall k :: 0 <= k < |ch| ==> ch[k] < |vals|
    ensures forall k :: 0 <= k < |ch[..i] + [|vals|] + ch[i..]| ==> (ch[..i] + [|vals|] + ch[i..])[k] < |vals + [v]|
    ensures multiset(ValuesOf(vals + [v], ch[..i] + [|vals|] + ch[i..])) == multiset(ValuesOf(vals, ch)) + multiset{v}
  {
    var r := ch[..i] + [|vals|] + ch[i..];
    var a := ValuesOf(vals, ch);
    assert ValuesOf(vals + [v], r) == a[..i] + [v] + a[i..];
    assert a == a[..i] + a[i..];
  }

  lemma ValuesExtended(vals: seq<Value>, ch: seq<nat>, v: Value)
    requires forall k :: 0 <= k < |ch| ==> ch[k] < |vals|
    ensures ValuesOf(vals + [v], ch) == ValuesOf(vals, ch)
  {
  }

  // Shape of the store after a node was attached: only its parent's children changed.
  ghost predicate AttachedUnder(st: Store, st': Store, q: nat, i: nat, v: Value) {
    && q < |st| && i <= |st[q].children| && |st'| == |st| + 1
    && st'[q].children == st[q].children[..i] + [|st|] + st[q].children[i..]
    && (forall k :: 0 <= k < |st| && k != q ==> st'[k].children == st[k].children)
    && (forall k :: 0 <= k < |st| ==> st'[k].name == st[k].name && st'[k].self == st[k].self)
    && st'[|st|].children == [] && st'[|st|].name == v.name && st'[|st|].self == v.self
  }

  lemma AttachedAccounts(st: Store, st': Store, parents: seq<nat>, vals: seq<Value>, todo: seq<Value>, i: nat, id: nat)
    requires |todo| == |parents| > 0 && |vals| == |st| && AttachedUnder(st, st', parents[0], i, todo[0])
    requires id <= |st| && (id < |st| ==> Accounted(st, vals, todo, parents, id))
    requires forall k :: 0 <= k < |parents| ==> parents[k] < |st|
    ensures Accounted(st', vals + [todo[0]], todo[0].kids + todo[1..], Repeat(|st|, |todo[0].kids|) + parents[1..], id)
  {
    var v, q := todo[0], parents[0];
    PendingPushed(v.kids, todo[1..], parents[1..], |st|, id);
    if id == |st| {
      NonePending(todo[1..], parents[1..], id);
      assert ValuesOf(vals + [v], st'[id].children) == [];
    } else if id == q {
      ValuesInserted(vals, st[q].children, i, v);
    } else {
      ValuesExtended(vals, st[id].children, v);
    }
  }

  lemma {:induction false} NonePending(todo: seq<Value>, parents: seq<nat>, id: nat)
    requires |todo| == |parents| && forall k :: 0 <= k < |parents| ==> parents[k] != id
    ensures PendingAt(todo, parents, id) == multiset{}
  {
    if todo != [] {
      forall k | 0 <= k < |parents[1..]| ensures parents[1..][k] != id { assert parents[1..][k] == parents[k + 1]; }
      NonePending(todo[1..], parents[1..], id);
    }
  }

  lemma AttachedShape(st: Store, q: nat, v: Value, i: nat, st1: Store, st2: Store, st': Store)
    requires q < |st| && i <= |st[q].children| && st1 == InsertAt(st, q, i, v.name)
    requires st2 == st1[|st| := st1[|st|].(self := v.self)] && (forall k :: 0 < k < |st2| ==> st2[k].parent < k)
    requires st' == AddUp(st2, |st|, v.self)
    ensures AttachedUnder(st, st', q, i, v)
  {
    assert forall k :: 0 <= k < |st'| ==> st'[k] == st2[k].(total := st'[k].total);
    assert st1[|st|] == Node(q, [], 0, 0, v.name, st[q].depth + 1);
  }

  // --- Running the decoder over an encoding ---

  lemma NextIsProper(st: Store, parents: seq<nat>, vals: seq<Value>, todo: seq<Value>)
    requires Building(st, parents, vals, todo) && todo != []
    ensures Proper(todo[0])
  {
    var q, v := parents[0], todo[0];
    assert Accounted(st, vals, todo, parents, q);
    assert v in PendingAt(todo, parents, q);
    assert v in multiset(vals[q].kids);
    assert Proper(vals[q]);
  }

  lemma BuildStep(st: Store, parents: seq<nat>, vals: seq<Value>, todo: seq<Value>)
    requires Building(st, parents, vals, todo) && todo != []
    ensures var (st', n) := Attach(st, parents[0], todo[0].name, todo[0].self);
            Building(st', Repeat(n, |todo[0].kids|) + parents[1..], vals + [todo[0]], todo[0].kids + todo[1..])
  {
    var v, q := todo[0], parents[0];
    NextIsProper(st, parents, vals, todo);
    forall k | 0 <= k < |st[q].children| ensures st[q].children[k] < |st| && st[st[q].children[k]].name != v.name {
      NameIsNew(st, parents, vals, todo, k);
    }
    var i, st1 := AttachIsInsert(st, q, v);
    var st2 := st1[|st| := st1[|st|].(self := v.self)];
    var st' := AddUp(st2, |st|, v.self);
    AttachKeeps(st, q, v, i, st1, st2, st');
    AttachedShape(st, q, v, i, st1, st2, st');
    AttachShaped(st, q, v.name, v.self);
    BuildAccounts(st, parents, vals, todo, st', i);
  }

  lemma BuildAccounts(st: Store, parents: seq<nat>, vals: seq<Value>, todo: seq<Value>, st': Store, i: nat)
    requires 0 < |st| && Standing(st, parents, vals, todo) && todo != [] && Proper(todo[0])
    requires AttachedUnder(st, st', parents[0], i, todo[0])
    ensures Standing(st', Repeat(|st|, |todo[0].kids|) + parents[1..], vals + [todo[0]], todo[0].kids + todo[1..])
  {
    var vals', todo' := vals + [todo[0]], todo[0].kids + todo[1..];
    var parents' := Repeat(|st|, |todo[0].kids|) + parents[1..];
    forall id | 0 <= id < |st'| ensures Proper(vals'[id]) {
      if id < |st| { assert Proper(vals[id]); }
    }
    forall id | 0 <= id < |st'| ensures Accounted(st', vals', todo', parents', id) {
      if id < |st| { assert Accounted(st, vals, todo, parents, id); }
      AttachedAccounts(st, st', parents, vals, todo, i, id);
    }
    forall k | 0 <= k < |parents'| ensures parents'[k] < |st'| {
      if k >= |todo[0].kids| { assert parents'[k] == parents[k - |todo[0].kids| + 1]; }
    }
  }

  // One step of the decoder at the head of an encoding.
  lemma StepBuilds(b: seq<Byte>, s: Progress, vals: seq<Value>, todo: seq<Value>) returns (s1: Progress)
    requires Building(s.st, s.parents, vals, todo) && s.offset <= |b| && b[s.offset..] == EncodeAll(todo) && todo != []
    ensures Ready(b, s) && ReadNode(b, s) == Running(s1)
    ensures Building(s1.st, s1.parents, vals + [todo[0]], todo[0].kids + todo[1..])
    ensures s1.offset <= |b| && b[s1.offset..] == EncodeAll(todo[0].kids + todo[1..])
  {
    var v := todo[0];
    NextIsProper(s.st, s.parents, vals, todo);
    var o3 := ReadEncoded(b, s, v, EncodeAll(todo[1..]));
    EncodeAllConcat(v.kids, todo[1..]);
    BuildStep(s.st, s.parents, vals, todo);
    var (st1, n) := Attach(s.st, s.parents[0], v.name, v.self);
    s1 := Progress(st1, Repeat(n, |v.kids|) + s.parents[1..], o3);
  }

  lemma RunStep(b: seq<Byte>, s: Progress, s1: Progress)
    requires Ready(b, s) && s.parents != [] && ReadNode(b, s) == Running(s1)
    ensures Ready(b, s1) && Run(b, s) == Run(b, s1)
    ensures s.offset <= s1.offset && (s1.offset == s.offset ==> |s1.parents| < |s.parents|)
  {
    ReadNodeReady(b, s);
  }

  lemma BuildingReady(b: seq<Byte>, s: Progress, vals: seq<Value>, todo: seq<Value>)
    requires Building(s.st, s.parents, vals, todo) && s.offset <= |b|
    ensures Ready(b, s) && |s.parents| == |todo|
  {
  }

  lemma TakeTake<T>(a: seq<T>, b: seq<T>, v: T)
    requires |a| < |b| && b[..|a| + 1] == a + [v]
    ensures b[..|a|] == a
  {
    assert b[..|a|] == b[..|a| + 1][..|a|];
  }

  lemma {:induction false} RunBuilds(b: seq<Byte>, s: Progress, vals: seq<Value>, todo: seq<Value>)
    returns (st': Store, vals': seq<Value>, end: nat)
    requires Building(s.st, s.parents, vals, todo) && s.offset <= |b| && b[s.offset..] == EncodeAll(todo)
    ensures Ready(b, s) && Run(b, s) == Running(Progress(st', [], end))
    ensures Building(st', [], vals', []) && |vals| <= |vals'| && vals'[..|vals|] == vals
    decreases |b| - s.offset, |s.parents|
  {
    BuildingReady(b, s, vals, todo);
    if todo == [] {
      st', vals', end := s.st, vals, s.offset;
    } else {
      var s1 := StepBuilds(b, s, vals, todo);
      RunStep(b, s, s1);
      st', vals', end := RunBuilds(b, s1, vals + [todo[0]], todo[0].kids + todo[1..]);
      TakeTake(vals, vals', todo[0]);
    }
  }

  // --- What was built ---

  lemma {:induction false} TotalsPermuted(a: seq<Value>, b: seq<Value>)
    requires multiset(a) == multiset(b)
    ensures ValueTotals(a) == ValueTotals(b)
    decreases |a|
  {
    if a == [] {
      assert |multiset(b)| == |b|;
    } else {
      assert a[0] in multiset(b);
      var i :| 0 <= i < |b| && b[i] == a[0];
      var u, w := b[..i], b[i + 1..];
      assert b == u + [a[0]] + w;
      assert a == [a[0]] + a[1..];
      assert multiset(b) == multiset(u + w) + multiset{a[0]};
      assert multiset(a[1..]) == multiset(a) - multiset{a[0]};
      assert multiset(u + w) == multiset(b) - multiset{a[0]};
      TotalsPermuted(a[1..], u + w);
      TotalsInserted(u, a[0], w);
    }
  }

  lemma {:induction false} TotalsInserted(u: seq<Value>, x: Value, w: seq<Value>)
    ensures ValueTotals(u + [x] + w) == ValueTotal(x) + ValueTotals(u + w)
  {
    if u == [] {
      assert u + [x] + w == [x] + w && u + w == w;
      assert ([x] + w)[1..] == w;
    } else {
      assert (u + [x] + w)[1..] == u[1..] + [x] + w;
      assert (u + w)[1..] == u[1..] + w;
      TotalsInserted(u[1..], x, w);
    }
  }

  lemma {:induction false} SumIsTotals(st: Store, vals: seq<Value>, ids: seq<nat>)
    requires forall k :: 0 <= k < |ids| ==>
               ids[k] < |st| && ids[k] < |vals| && st[ids[k]].total == ValueTotal(vals[ids[k]])
    ensures SumTotals(st, ids) == ValueTotals(ValuesOf(vals, ids))
  {
    if ids != [] {
      SumIsTotals(st, vals, ids[1..]);
      assert ValuesOf(vals, ids)[1..] == ValuesOf(vals, ids[1..]);
    }
  }

  // With nothing left to come, the children of a node stand for the children of its value.
  lemma KidsMatch(st: Store, vals: seq<Value>, id: nat, k: nat) returns (m: nat)
    requires Standing(st, [], vals, []) && id < |st| && k < |vals[id].kids|
    ensures m < |st[id].children| && st[id].children[m] < |vals| && vals[st[id].children[m]] == vals[id].kids[k]
  {
    assert Accounted(st, vals, [], [], id);
    var kv := ValuesOf(vals, st[id].children);
    assert multiset(kv) == multiset(vals[id].kids);
    assert vals[id].kids[k] in multiset(kv);
    m :| 0 <= m < |kv| && kv[m] == vals[id].kids[k];
  }

  lemma ChildValues(st: Store, vals: seq<Value>, id: nat)
    requires Standing(st, [], vals, []) && id < |st|
    ensures |st[id].children| == |vals[id].kids|
    ensures forall k :: 0 <= k < |st[id].children| ==>
              st[id].children[k] < |vals| && vals[st[id].children[k]] in vals[id].kids
    ensures multiset(ValuesOf(vals, st[id].children)) == multiset(vals[id].kids)
  {
    assert Accounted(st, vals, [], [], id);
    var kv := ValuesOf(vals, st[id].children);
    assert multiset(kv) == multiset(vals[id].kids);
    assert |multiset(kv)| == |kv| && |multiset(vals[id].kids)| == |vals[id].kids|;
    forall k | 0 <= k < |st[id].children| ensures vals[st[id].children[k]] in vals[id].kids {
      assert kv[k] in multiset(vals[id].kids);
    }
  }

  lemma TotalOfKids(st: Store, vals: seq<Value>, id: nat)
    requires Building(st, [], vals, []) && 0 < id < |st|
    requires forall k :: 0 <= k < |st[id].children| ==> Represents(st, st[id].children[k], vals[st[id].children[k]])
    ensures st[id].total == ValueTotal(vals[id])
  {
    ChildValues(st, vals, id);
    assert LawAt(st, All(st), id, 0);
    SumIsTotals(st, vals, st[id].children);
    TotalsPermuted(ValuesOf(vals, st[id].children), vals[id].kids);
  }

  lemma {:induction false} BuiltRepresents(st: Store, vals: seq<Value>, id: nat)
    requires Building(st, [], vals, []) && 0 < id < |st|
    ensures Represents(st, id, vals[id])
    decreases vals[id]
  {
    var v, ch := vals[id], st[id].children;
    ChildValues(st, vals, id);
    forall k | 0 <= k < |ch| ensures Represents(st, ch[k], vals[ch[k]]) {
      assert DownLink(st, All(st), id, ch[k]);
      BuiltRepresents(st, vals, ch[k]);
    }
    forall k | 0 <= k < |v.kids| ensures exists c :: c in ch && Represents(st, c, v.kids[k]) {
      var m := KidsMatch(st, vals, id, k);
      assert ch[m] in ch && Represents(st, ch[m], v.kids[k]);
    }
    TotalOfKids(st, vals, id);
  }

  /** Decoding the encoding of a tree, under the virtual node that holds its roots, gives the tree
      back: the same names, self weights and shape, and totals that are the recursive ones. */
  lemma {:induction false} DecodeInvertsEncode(v: Value)
    requires Proper(v)
    ensures var d := Decode(Encode(v));
            && d.Tree? && |d.st| > 1
            && Represents(d.st, d.st[0].children[0], v) && d.roots == d.st[d.st[0].children[0]].children
  {
    var b := Encode(v);
    var st, end := RunEncoded(b, v);
    assert |b| >= 3;
  }

  lemma {:induction false} RunEncoded(b: seq<Byte>, v: Value) returns (st: Store, end: nat)
    requires Proper(v) && b == Encode(v)
    ensures Ready(b, START) && Run(b, START) == Running(Progress(st, [], end))
    ensures |st| > 1 && |st[0].children| == 1 && 0 < st[0].children[0] < |st| && Represents(st, st[0].children[0], v)
  {
    var top := Value([], 0, [v]);
    assert b[0..] == EncodeAll([v]) by { assert b[0..] == b && [v][1..] == [] && EncodeAll([]) == []; }
    StartBuilding(v);
    var vals;
    st, vals, end := RunBuilds(b, START, [top], [v]);
    assert vals[0] == top by { assert vals[..1][0] == vals[0]; }
    TopRepresents(st, vals, v);
  }

  lemma {:induction false} TopRepresents(st: Store, vals: seq<Value>, v: Value)
    requires Building(st, [], vals, []) && vals[0] == Value([], 0, [v])
    ensures |st[0].children| == 1 && 0 < st[0].children[0] < |st| && Represents(st, st[0].children[0], v)
  {
    ChildValues(st, vals, 0);
    assert DownLink(st, All(st), 0, st[0].children[0]);
    BuiltRepresents(st, vals, st[0].children[0]);
  }

  lemma {:induction false} StartBuilding(v: Value)
    requires Proper(v)
    ensures Building(START.st, START.parents, [Value([], 0, [v])], [v])
  {
    var st := START.st;
    assert All(st) == {0};
    assert PendingAt([v], [0], 0) == multiset{v};
    assert multiset(ValuesOf([Value([], 0, [v])], [])) == multiset{};
  }
}
