/** Decoding a tree from its pre-order bytes: (name length, name, self, child count) per node. */
module TreeDecode {
  import opened Words
  import opened Names
  import opened Varint
  import opened TreeStore
  import opened TreeInsert

  /** Where decoding stands: the store, the stack of parents whose next child comes next (top first),
      and the read position. */
  datatype Progress = Progress(st: Store, parents: seq<nat>, offset: nat)

  datatype Outcome = Running(s: Progress) | Malformed | OutOfRange

  // Node 0 is the virtual root; parents come before their children, siblings are sorted.
  ghost predicate Shaped(st: Store) {
    && 0 < |st|
    && (forall id :: 0 < id < |st| ==> st[id].parent < id)
    && (forall id :: 0 <= id < |st| ==> SortedNames(st, st[id].children))
  }

  ghost predicate Ready(b: seq<Byte>, s: Progress) {
    s.offset <= |b| && Shaped(s.st) && forall k :: 0 <= k < |s.parents| ==> s.parents[k] < |s.st|
  }

  // --- Inserting a child ---

  function PlaceFrom(st: Store, ids: seq<nat>, name: Name, k: nat): (i: nat)
    requires k <= |ids| && forall j :: 0 <= j < |ids| ==> ids[j] < |st|
    ensures k <= i <= |ids|
    decreases |ids| - k
  {
    if k == |ids| || !Less(st[ids[k]].name, name) then k else PlaceFrom(st, ids, name, k + 1)
  }

  function InsertChild(st: Store, n: nat, name: Name): (r: (Store, nat))
    requires Shaped(st) && n < |st|
    ensures |st| <= |r.0| && r.1 < |r.0|
  {
    var ch := st[n].children;
    var i := PlaceFrom(st, ch, name, 0);
    if i < |ch| && st[ch[i]].name == name then (st, ch[i]) else (InsertAt(st, n, i, name), |st|)
  }

  // Binary search finds the same place as looking through the siblings in order.
  lemma {:induction false} PlaceIsFirst(st: Store, ids: seq<nat>, name: Name, k: nat, i: nat)
    requires k <= i <= |ids| && forall j :: 0 <= j < |ids| ==> ids[j] < |st|
    requires forall j :: 0 <= j < i ==> Less(st[ids[j]].name, name)
    requires i < |ids| ==> !Less(st[ids[i]].name, name)
    ensures PlaceFrom(st, ids, name, k) == i
    decreases i - k
  {
    if k < i { PlaceIsFirst(st, ids, name, k + 1, i); }
  }

  lemma FoundPlace(st: Store, n: nat, name: Name, i: nat)
    requires Shaped(st) && n < |st| && i <= |st[n].children|
    requires (i < |st[n].children| && st[st[n].children[i]].name == name) || Place(st, n, i, name)
    ensures PlaceFrom(st, st[n].children, name, 0) == i
  {
    var ch := st[n].children;
    if i < |ch| {
      LessIrreflexive(name);
      if Less(st[ch[i]].name, name) && Less(name, st[ch[i]].name) { LessTransitive(name, st[ch[i]].name, name); }
    }
    PlaceIsFirst(st, ch, name, 0, i);
  }

  lemma InsertChildShaped(st: Store, n: nat, name: Name, i: nat)
    requires Shaped(st) && n < |st| && Place(st, n, i, name)
    ensures Shaped(InsertAt(st, n, i, name))
  {
    var st' := InsertAt(st, n, i, name);
    assert forall k :: 0 <= k < |st| ==> st'[k].name == st[k].name && st'[k].parent == st[k].parent;
    SiblingsSorted(st, st', st[n].children, i, |st|);
    forall id | 0 <= id < |st'| ensures SortedNames(st', st'[id].children) {
      if id != n && id != |st| { SortedFrame(st, st', st[id].children); }
    }
  }

  // --- Adding a weight up the parent links ---

  function AddUp(st: Store, id: nat, v: int): (r: Store)
    requires id < |st| && forall k :: 0 < k < |st| ==> st[k].parent < k
    ensures |r| == |st|
    ensures forall k :: 0 <= k < |st| ==> r[k] == st[k].(total := r[k].total)
    decreases id
  {
    if id == 0 then st
    else AddUp(st[id := st[id].(total := st[id].total + v)], st[id].parent, v)
  }

  // --- One node ---

  datatype Read = Got(x: nat, next: nat) | Bad

  // Too few bytes read as the number 0 without moving on.
  function ReadNumber(b: seq<Byte>, offset: nat): (r: Read)
    requires offset <= |b|
    ensures r.Got? ==> offset <= r.next <= |b| && (r.next == offset ==> r.x == 0)
  {
    match Uvarint(b[offset..])
    case Number(x, len) => Got(x, offset + len)
    case Short => Got(0, offset)
    case Overflow => Bad
  }

  // The conversion from uint64 to int64.
  function Int64(x: nat): int {
    if x < 0x8000_0000_0000_0000 then x else x - WORD
  }

  function Repeat(n: nat, k: nat): (r: seq<nat>)
    ensures |r| == k
  {
    seq(k, _ => n)
  }

  function Attach(st: Store, parent: nat, name: Name, value: nat): (r: (Store, nat))
    requires Shaped(st) && parent < |st|
    ensures |st| <= |r.0| && r.1 < |r.0|
  {
    var (st1, n) := InsertChild(st, parent, name);
    var st2 := st1[n := st1[n].(children := [], self := Int64(value))];
    assert forall k :: 0 < k < |st2| ==> st2[k].parent < k;
    (AddUp(st2, n, Int64(value)), n)
  }

  function ReadNode(b: seq<Byte>, s: Progress): (r: Outcome)
    requires Ready(b, s) && s.parents != []
    ensures r.Running? ==> s.offset <= r.s.offset <= |b|
    ensures r.Running? && r.s.offset == s.offset ==> |r.s.parents| < |s.parents|
  {
    match ReadNumber(b, s.offset)
    case Bad => Malformed
    case Got(nameLen, o1) =>
      if o1 + nameLen > |b| then OutOfRange
      else
        match ReadNumber(b, o1 + nameLen)
        case Bad => Malformed
        case Got(value, o2) =>
          match ReadNumber(b, o2)
          case Bad => Malformed
          case Got(kids, o3) =>
            var (st', n) := Attach(s.st, s.parents[0], b[o1..o1 + nameLen], value);
            Running(Progress(st', Repeat(n, kids) + s.parents[1..], o3))
  }

  lemma AttachShaped(st: Store, parent: nat, name: Name, value: nat)
    requires Shaped(st) && parent < |st|
    ensures Shaped(Attach(st, parent, name, value).0)
  {
    var ch := st[parent].children;
    var i := PlaceFrom(st, ch, name, 0);
    var (st1, n) := InsertChild(st, parent, name);
    if !(i < |ch| && st[ch[i]].name == name) {
      PlaceHere(st, parent, name, i);
      InsertChildShaped(st, parent, name, i);
    }
    var st2 := st1[n := st1[n].(children := [], self := Int64(value))];
    var st3 := AddUp(st2, n, Int64(value));
    forall id | 0 <= id < |st3| ensures SortedNames(st3, st3[id].children) {
      assert SortedNames(st1, st1[id].children);
      assert forall k :: 0 <= k < |st3| ==> st3[k].name == st1[k].name;
    }
  }

  lemma PlaceHere(st: Store, n: nat, name: Name, i: nat)
    requires Shaped(st) && n < |st| && i == PlaceFrom(st, st[n].children, name, 0)
    requires !(i < |st[n].children| && st[st[n].children[i]].name == name)
    ensures Place(st, n, i, name)
  {
    var ch := st[n].children;
    PlaceBelow(st, ch, name, 0);
    if i < |ch| {
      LessTotal(st[ch[i]].name, name);
      forall k | i <= k < |ch| ensures Less(name, st[ch[k]].name) {
        if i < k { LessTransitive(name, st[ch[i]].name, st[ch[k]].name); }
      }
    }
  }

  lemma {:induction false} PlaceBelow(st: Store, ids: seq<nat>, name: Name, k: nat)
    requires k <= |ids| && forall j :: 0 <= j < |ids| ==> ids[j] < |st|
    requires forall j :: 0 <= j < k ==> Less(st[ids[j]].name, name)
    ensures var i := PlaceFrom(st, ids, name, k);
            (forall j :: 0 <= j < i ==> Less(st[ids[j]].name, name)) && (i < |ids| ==> !Less(st[ids[i]].name, name))
    decreases |ids| - k
  {
    if k < |ids| && Less(st[ids[k]].name, name) { PlaceBelow(st, ids, name, k + 1); }
  }

  // --- What attaching a node does ---

  // The nodes the weight of a node is counted in: itself and those above it, up to the virtual root.
  ghost function Chain(st: Store, id: nat): (r: set<nat>)
    requires id < |st| && forall k :: 0 < k < |st| ==> st[k].parent < k
    ensures forall k :: k in r ==> 0 < k <= id
  {
    if id == 0 then {} else {id} + Chain(st, st[id].parent)
  }

  lemma {:induction false} ChainSame(st: Store, st': Store, id: nat)
    requires id < |st| && id < |st'|
    requires (forall k :: 0 < k < |st| ==> st[k].parent < k) && (forall k :: 0 < k < |st'| ==> st'[k].parent < k)
    requires forall k :: 0 < k <= id ==> st'[k].parent == st[k].parent
    ensures Chain(st', id) == Chain(st, id)
  {
    if id != 0 { ChainSame(st, st', st[id].parent); }
  }

  lemma {:induction false} AddUpTotals(st: Store, id: nat, v: int, k: nat)
    requires id < |st| && k < |st| && forall j :: 0 < j < |st| ==> st[j].parent < j
    ensures AddUp(st, id, v)[k].total == st[k].total + (if k in Chain(st, id) then v else 0)
    decreases id
  {
    if id != 0 {
      var st1 := st[id := st[id].(total := st[id].total + v)];
      AddUpTotals(st1, st[id].parent, v, k);
      ChainSame(st, st1, st[id].parent);
    }
  }

  // A node that can be reached from the virtual root.
  ghost predicate Listed(st: Store, id: nat)
    requires id < |st| && forall k :: 0 < k < |st| ==> st[k].parent < k
  {
    id == 0 || (id in st[st[id].parent].children && Listed(st, st[id].parent))
  }

  ghost predicate Below(st: Store, n: nat, id: nat)
    requires id < |st| && forall k :: 0 < k < |st| ==> st[k].parent < k
  {
    id != 0 && (st[id].parent == n || Below(st, n, st[id].parent))
  }

  lemma {:induction false} EmptiedListed(st: Store, st': Store, n: nat, id: nat)
    requires n < |st| == |st'| && id < |st| && (forall k :: 0 < k < |st| ==> st'[k].parent == st[k].parent < k)
    requires st'[n].children == [] && forall k :: 0 <= k < |st| && k != n ==> st'[k].children == st[k].children
    ensures Listed(st', id) <==> Listed(st, id) && !Below(st, n, id)
  {
    if id != 0 { EmptiedListed(st, st', n, st[id].parent); }
  }

  /** A name its parent has already: the node there gets the new weight and loses its children. What was
      below it is out of reach, while its old total stays in its own and in every total above it. */
  lemma {:induction false} AttachRepeated(st: Store, parent: nat, name: Name, value: nat, i: nat)
    requires Shaped(st) && parent < |st| && i < |st[parent].children| && st[st[parent].children[i]].name == name
    ensures var (st', n) := Attach(st, parent, name, value);
            && n == st[parent].children[i] && |st'| == |st| && Shaped(st')
            && st'[n].children == [] && st'[n].self == Int64(value)
            && (forall k :: 0 <= k < |st| ==>
                  st'[k].total == st[k].total + (if k in Chain(st, n) then Int64(value) else 0))
            && (forall k :: 0 <= k < |st| && k != n ==> st'[k] == st[k].(total := st'[k].total))
            && (forall id :: 0 <= id < |st| ==> (Listed(st', id) <==> Listed(st, id) && !Below(st, n, id)))
  {
    FoundPlace(st, parent, name, i);
    AttachShaped(st, parent, name, value);
    var (st', n) := Attach(st, parent, name, value);
    var st2 := st[n := st[n].(children := [], self := Int64(value))];
    forall k | 0 <= k < |st|
      ensures st'[k].total == st[k].total + (if k in Chain(st, n) then Int64(value) else 0)
    {
      AddUpTotals(st2, n, Int64(value), k);
      ChainSame(st, st2, n);
    }
    forall id | 0 <= id < |st| ensures Listed(st', id) <==> Listed(st, id) && !Below(st, n, id) {
      EmptiedListed(st, st', n, id);
    }
  }

  /** A new name: a leaf of that weight at its place among its siblings, counted in every node above it. */
  lemma {:induction false} AttachFresh(st: Store, parent: nat, name: Name, value: nat) returns (i: nat)
    requires Shaped(st) && parent < |st|
    requires forall k :: 0 <= k < |st[parent].children| ==> st[st[parent].children[k]].name != name
    ensures Place(st, parent, i, name)
    ensures var (st', n) := Attach(st, parent, name, value);
            var ch := st[parent].children;
            && n == |st| && |st'| == n + 1 && Shaped(st') && st'[parent].children == ch[..i] + [n] + ch[i..]
            && st'[n] == Node(parent, [], Int64(value), Int64(value), name, st[parent].depth + 1)
            && (forall k :: 0 <= k < n ==>
                  && st'[k] == st[k].(total := st'[k].total, children := st'[k].children)
                  && (k != parent ==> st'[k].children == st[k].children)
                  && st'[k].total == st[k].total + (if k in Chain(st, parent) then Int64(value) else 0))
  {
    i := PlaceFrom(st, st[parent].children, name, 0);
    PlaceHere(st, parent, name, i);
    AttachShaped(st, parent, name, value);
    AddedLeaf(st, parent, i, name, Int64(value));
  }

  // A leaf of weight v inserted at place i and counted up the chain.
  lemma AddedLeaf(st: Store, parent: nat, i: nat, name: Name, v: int)
    requires parent < |st| && i <= |st[parent].children| && forall k :: 0 < k < |st| ==> st[k].parent < k
    ensures var n := |st|;
            var st1 := InsertAt(st, parent, i, name);
            var st2 := st1[n := st1[n].(children := [], self := v)];
            && (forall k :: 0 < k < |st2| ==> st2[k].parent < k)
            && var st' := AddUp(st2, n, v);
            && st'[n] == Node(parent, [], v, v, name, st[parent].depth + 1)
            && forall k :: 0 <= k < n ==>
                 st'[k] == st2[k].(total := st[k].total + (if k in Chain(st, parent) then v else 0))
  {
    var n := |st|;
    var st1 := InsertAt(st, parent, i, name);
    var st2 := st1[n := st1[n].(children := [], self := v)];
    ChainSame(st, st2, parent);
    forall k | 0 <= k <= n { AddUpTotals(st2, n, v, k); }
  }

  lemma ReadNodeReady(b: seq<Byte>, s: Progress)
    requires Ready(b, s) && s.parents != []
    ensures ReadNode(b, s).Running? ==> Ready(b, ReadNode(b, s).s)
  {
    forall name: Name, value: nat ensures Shaped(Attach(s.st, s.parents[0], name, value).0) {
      AttachShaped(s.st, s.parents[0], name, value);
    }
  }

  // Node after node until no parent waits for a child.
  function Run(b: seq<Byte>, s: Progress): (r: Outcome)
    requires Ready(b, s)
    decreases |b| - s.offset, |s.parents|
  {
    if s.parents == [] then Running(s)
    else
      ReadNodeReady(b, s);
      match ReadNode(b, s)
      case Running(s') => Run(b, s')
      case Malformed => Malformed
      case OutOfRange => OutOfRange
  }

  lemma RunUnfolds(b: seq<Byte>, s: Progress)
    requires Ready(b, s) && s.parents != []
    ensures ReadNode(b, s).Running? ==> Ready(b, ReadNode(b, s).s) && Run(b, s) == Run(b, ReadNode(b, s).s)
    ensures !ReadNode(b, s).Running? ==> Run(b, s) == ReadNode(b, s)
  {
    ReadNodeReady(b, s);
  }

  /** No tree, an error, a slice out of range, or the store and the roots of the tree: the children of
      the first node, whose parent is the virtual root. */
  datatype Decoded = NoTree | Failed | Panics | Tree(st: Store, roots: seq<nat>)

  const START := Progress([Node(0, [], 0, 0, [], 0)], [0], 0)

  function Decode(b: seq<Byte>): Decoded {
    if |b| < 2 then NoTree
    else
      match Run(b, START)
      case Malformed => Failed
      case OutOfRange => Panics
      case Running(s) =>
        if s.st == [] || s.st[0].children == [] || s.st[0].children[0] >= |s.st| then Panics
        else Tree(s.st, s.st[s.st[0].children[0]].children)
  }

  /** The decoder itself: it ends on every input, and gives what Decode says. */
  method UnmarshalTree(b: seq<Byte>) returns (r: Decoded)
    ensures r == Decode(b)
  {
    if |b| < 2 {
      return NoTree;
    }
    var o := ReadAll(b);
    match o
    case Malformed => return Failed;
    case OutOfRange => return Panics;
    case Running(s) =>
      if s.st == [] || s.st[0].children == [] || s.st[0].children[0] >= |s.st| {
        return Panics;
      }
      return Tree(s.st, s.st[s.st[0].children[0]].children);
  }

  // The loop over the nodes.
  method ReadAll(b: seq<Byte>) returns (o: Outcome)
    ensures o == Run(b, START)
  {
    var s := START;
    while |s.parents| > 0
      invariant Ready(b, s) && Run(b, START) == Run(b, s)
      decreases |b| - s.offset, |s.parents|
    {
      RunUnfolds(b, s);
      o := ReadOne(b, s);
      if !o.Running? {
        return;
      }
      s := o.s;
    }
    o := Running(s);
  }

  // One turn of the loop: the next node goes under the parent on top of the stack.
  method ReadOne(b: seq<Byte>, s: Progress) returns (r: Outcome)
    requires Ready(b, s) && s.parents != []
    ensures r == ReadNode(b, s)
  {
    var nameLen := ReadNumber(b, s.offset);
    if nameLen.Bad? {
      return Malformed;
    }
    var offset := nameLen.next;
    if offset + nameLen.x > |b| {
      return OutOfRange;
    }
    var name := b[offset..offset + nameLen.x];
    offset := offset + nameLen.x;
    var value := ReadNumber(b, offset);
    if value.Bad? {
      return Malformed;
    }
    var childrenLen := ReadNumber(b, value.next);
    if childrenLen.Bad? {
      return Malformed;
    }
    var st, n := AttachNode(s.st, s.parents[0], name, value.x);
    return Running(Progress(st, Repeat(n, childrenLen.x) + s.parents[1..], childrenLen.next));
  }

  // Inserts the node under its parent and counts its weight in every node above it.
  method AttachNode(st: Store, parent: nat, name: Name, value: nat) returns (st': Store, n: nat)
    requires Shaped(st) && parent < |st|
    ensures (st', n) == Attach(st, parent, name, value)
  {
    var ch := st[parent].children;
    var i := FindPlace(st, parent, name);
    FoundPlace(st, parent, name, i);
    if i < |ch| && st[ch[i]].name == name {
      st', n := st, ch[i];
    } else {
      st', n := InsertAt(st, parent, i, name), |st|;
    }
    st' := st'[n := st'[n].(children := [], self := Int64(value))];
    st' := AddUpward(st', n, Int64(value));
  }

  method AddUpward(st: Store, id: nat, v: int) returns (st': Store)
    requires id < |st| && forall k :: 0 < k < |st| ==> st[k].parent < k
    ensures st' == AddUp(st, id, v)
  {
    st' := st;
    var pn: nat := id;
    while pn != 0
      invariant pn < |st'| && forall k :: 0 < k < |st'| ==> st'[k].parent < k
      invariant AddUp(st', pn, v) == AddUp(st, id, v)
      decreases pn
    {
      var up := st'[pn].parent;
      st' := st'[pn := st'[pn].(total := st'[pn].total + v)];
      pn := up;
    }
  }
}
