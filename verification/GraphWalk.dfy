/** The extension's two walks over the values an event carries (extension/index.ts): `findUsage`, which marks
    what it has seen, and `snapshotValue`, which marks what it is inside of. Values share objects and may be
    cyclic. */
module GraphWalk {
  import opened Bytes
  import opened Order

  type Ref = nat

  datatype Value =
    | Undefined | Primitive(text: string) | BigInt(text: string) | Function | Symbol | Obj(ref: Ref)

  // Arrays, and plain objects with their keys in the order of insertion.
  datatype Node = Array(items: seq<Value>) | Record(keys: seq<string>, fields: map<string, Value>)

  type Heap = map<Ref, Node>

  ghost predicate ValidNode(n: Node) {
    n.Record? ==>
      && (forall i, j :: 0 <= i < j < |n.keys| ==> n.keys[i] != n.keys[j])
      && (forall k :: k in n.keys <==> k in n.fields)
  }

  // What a node holds, in insertion order.
  function Held(n: Node): (r: seq<Value>)
    requires ValidNode(n)
    ensures |r| == if n.Array? then |n.items| else |n.keys|
  {
    if n.Array? then n.items else seq(|n.keys|, i requires 0 <= i < |n.keys| => assert n.keys[i] in n.keys; n.fields[n.keys[i]])
  }

  ghost predicate Valid(h: Heap) {
    && (forall r :: r in h ==> ValidNode(h[r]))
    && (forall r, v :: r in h && v in Held(h[r]) ==> Within(h, v))
  }

  predicate Within(h: Heap, v: Value) { v.Obj? ==> v.ref in h }

  class WeakSet {
    var members: set<Ref>

    constructor ()
      ensures members == {}
    {
      members := {};
    }

    method Add(r: Ref)
      modifies this
      ensures members == old(members) + {r}
    {
      members := members + {r};
    }

    method Delete(r: Ref)
      modifies this
      ensures members == old(members) - {r}
    {
      members := members - {r};
    }
  }

  // ---------- findUsage ----------

  predicate HasUsage(h: Heap, r: Ref) {
    r in h && h[r].Record? && "usage" in h[r].fields && h[r].fields["usage"] != Undefined
  }

  ghost predicate Edge(h: Heap, a: Ref, b: Ref) {
    a in h && ValidNode(h[a]) && Obj(b) in Held(h[a])
  }

  ghost predicate Path(h: Heap, path: seq<Ref>) {
    path != [] && forall i :: 0 <= i < |path| - 1 ==> Edge(h, path[i], path[i + 1])
  }

  ghost predicate Reaches(h: Heap, v: Value, r: Ref) {
    exists path: seq<Ref> :: Path(h, path) && v == Obj(path[0]) && path[|path| - 1] == r
  }

  ghost predicate FindsUsage(h: Heap, v: Value) { exists r :: HasUsage(h, r) && Reaches(h, v, r) }

  // Every member but `except` is free of usage and leads only to members.
  ghost predicate Explored(h: Heap, members: set<Ref>, except: set<Ref>) {
    forall r | r in members && r !in except :: !HasUsage(h, r) && forall b :: Edge(h, r, b) ==> b in members
  }

  lemma ReachesSelf(h: Heap, r: Ref)
    ensures Reaches(h, Obj(r), r)
  {
    assert Path(h, [r]);
  }

  lemma FindsThrough(h: Heap, r: Ref, v: Value)
    requires Valid(h) && r in h && v in Held(h[r]) && FindsUsage(h, v)
    ensures FindsUsage(h, Obj(r))
  {
    var u :| HasUsage(h, u) && Reaches(h, v, u);
    var path: seq<Ref> :| Path(h, path) && v == Obj(path[0]) && path[|path| - 1] == u;
    var longer := [r] + path;
    assert Edge(h, longer[0], longer[1]);
    assert Path(h, longer) by {
      assert forall i :: 1 <= i < |longer| ==> longer[i] == path[i - 1];
      hide Edge;
    }
    hide Path, Valid;
    assert longer[|longer| - 1] == u;
    assert Reaches(h, Obj(r), u);
  }

  method FindUsage(h: Heap, value: Value, seen: WeakSet) returns (found: bool)
    requires Valid(h) && Within(h, value)
    modifies seen
    ensures old(seen.members) <= seen.members
    ensures found ==> FindsUsage(h, value)
    ensures !found ==> (value.Obj? ==> value.ref in seen.members) && Explored(h, seen.members, old(seen.members))
    decreases h.Keys - seen.members
  {
    if !value.Obj? {
      return false;
    }
    var r := value.ref;
    if r in seen.members {
      return false;
    }
    ghost var before := seen.members;
    seen.Add(r);
    var node, held := h[r], Held(h[r]);
    for i := 0 to |held|
      invariant before + {r} <= seen.members
      invariant Explored(h, seen.members, before + {r})
      invariant forall j :: 0 <= j < i && held[j].Obj? ==> held[j].ref in seen.members
      invariant forall j :: 0 <= j < i && node.Record? && node.keys[j] == "usage" ==> held[j] == Undefined
    {
      var item := held[i];
      assert item in held;
      if node.Record? && node.keys[i] == "usage" && item != Undefined {
        ReachesSelf(h, r);
        assert node.keys[i] in node.keys;
        assert HasUsage(h, r);
        return true;
      }
      ghost var members := seen.members;
      found := FindUsage(h, item, seen);
      if found {
        FindsThrough(h, r, item);
        return true;
      }
      hide HasUsage, FindsUsage;
      ExploredGrows(h, members, seen.members, before + {r});
    }
    NothingHere(h, r, seen.members);
    hide HasUsage, FindsUsage, Edge, Valid;
    return false;
  }

  lemma ExploredGrows(h: Heap, members: set<Ref>, grown: set<Ref>, except: set<Ref>)
    requires members <= grown && Explored(h, members, except) && Explored(h, grown, members)
    ensures Explored(h, grown, except)
  {
  }

  lemma NothingHere(h: Heap, r: Ref, members: set<Ref>)
    requires Valid(h) && r in h
    requires forall j :: 0 <= j < |Held(h[r])| && Held(h[r])[j].Obj? ==> Held(h[r])[j].ref in members
    requires forall j :: 0 <= j < |Held(h[r])| && h[r].Record? && h[r].keys[j] == "usage" ==> Held(h[r])[j] == Undefined
    ensures !HasUsage(h, r) && forall b :: Edge(h, r, b) ==> b in members
  {
  }

  // An explored set that holds the root hides nothing.
  lemma {:induction false} ExploredReaches(h: Heap, members: set<Ref>, path: seq<Ref>)
    requires Explored(h, members, {}) && Path(h, path) && path[0] in members
    ensures path[|path| - 1] in members && !HasUsage(h, path[|path| - 1])
    decreases |path|
  {
    if |path| > 1 {
      assert Edge(h, path[0], path[1]);
      var rest := path[1..];
      assert forall i :: 0 <= i < |rest| - 1 ==> Edge(h, rest[i], rest[i + 1]) by {
        assert forall i :: 0 <= i < |rest| ==> rest[i] == path[i + 1];
      }
      ExploredReaches(h, members, rest);
    }
  }

  // The whole walk: true exactly when some object the value reaches has a defined usage.
  method FindUsageIn(h: Heap, value: Value) returns (found: bool)
    requires Valid(h) && Within(h, value)
    ensures found <==> FindsUsage(h, value)
  {
    var seen := new WeakSet();
    found := FindUsage(h, value, seen);
    if !found && FindsUsage(h, value) {
      ghost var r :| HasUsage(h, r) && Reaches(h, value, r);
      ghost var path: seq<Ref> :| Path(h, path) && value == Obj(path[0]) && path[|path| - 1] == r;
      ExploredReaches(h, seen.members, path);
    }
  }

  // ---------- snapshotValue ----------

  datatype Snapshot =
    | Same(text: string) | UndefinedText | BigIntText(text: string) | UnsupportedFunction | UnsupportedSymbol | Circular
    | Items(items: seq<Snapshot>) | Fields(keys: seq<string>, values: seq<Snapshot>)

  function SortedKeys(n: Node): (keys: seq<string>)
    requires n.Record?
    ensures forall k :: k in keys <==> k in n.fields
    ensures Ascending(keys, StringLess)
  {
    StringOrder();
    Sorted(n.fields.Keys, StringLess)
  }

  // What a node holds, in the order a snapshot lists it.
  function Listed(n: Node): seq<Value> {
    if n.Array? then n.items
    else seq(|SortedKeys(n)|, i requires 0 <= i < |SortedKeys(n)| => assert SortedKeys(n)[i] in SortedKeys(n); n.fields[SortedKeys(n)[i]])
  }

  lemma ListedWithin(h: Heap, r: Ref)
    requires Valid(h) && r in h
    ensures forall i :: 0 <= i < |Listed(h[r])| ==> Within(h, Listed(h[r])[i])
  {
    forall i | 0 <= i < |Listed(h[r])| ensures Listed(h[r])[i] in Held(h[r]) {
      if h[r].Record? {
        var k := SortedKeys(h[r])[i];
        assert k in SortedKeys(h[r]);
        var j :| 0 <= j < |h[r].keys| && h[r].keys[j] == k;
        assert Held(h[r])[j] == h[r].fields[k];
      }
    }
  }

  function Leaf(v: Value): Snapshot
    requires !v.Obj?
  {
    match v
    case Undefined => UndefinedText
    case Primitive(text) => Same(text)
    case BigInt(text) => BigIntText(text)
    case Function => UnsupportedFunction
    case Symbol => UnsupportedSymbol
  }

  function Assemble(n: Node, parts: seq<Snapshot>): Snapshot {
    if n.Array? then Items(parts) else Fields(SortedKeys(n), parts)
  }

  // The value unfolded, with a mark wherever it comes back to something in `inside`. No value of a valid
  // heap leads out of it, so the mark has no other use.
  function Unfold(h: Heap, v: Value, inside: set<Ref>): Snapshot
    decreases h.Keys - inside
  {
    if !v.Obj? then Leaf(v)
    else if v.ref in inside || v.ref !in h then Circular
    else
      var listed := Listed(h[v.ref]);
      Assemble(h[v.ref], seq(|listed|, i requires 0 <= i < |listed| => Unfold(h, listed[i], inside + {v.ref})))
  }

  // Restores the stack it is given, whatever it goes through.
  method TakeSnapshot(h: Heap, value: Value, stack: WeakSet) returns (s: Snapshot)
    requires Valid(h) && Within(h, value)
    modifies stack
    ensures stack.members == old(stack.members)
    ensures s == Unfold(h, value, old(stack.members))
    decreases h.Keys - stack.members
  {
    match value
    case Undefined => return UndefinedText;
    case BigInt(text) => return BigIntText(text);
    case Function => return UnsupportedFunction;
    case Symbol => return UnsupportedSymbol;
    case Primitive(text) => return Same(text);
    case Obj(r) =>
      if r in stack.members {
        return Circular;
      }
      ghost var inside := stack.members;
      stack.Add(r);
      ListedWithin(h, r);
      var node, listed, parts := h[r], Listed(h[r]), [];
      for i := 0 to |listed|
        invariant stack.members == inside + {r}
        invariant |parts| == i
        invariant forall j :: 0 <= j < i ==> parts[j] == Unfold(h, listed[j], inside + {r})
      {
        var part := TakeSnapshot(h, listed[i], stack);
        parts := parts + [part];
      }
      stack.Delete(r);
      assert inside + {r} - {r} == inside;
      assert parts == seq(|listed|, i requires 0 <= i < |listed| => Unfold(h, listed[i], inside + {r}));
      return Assemble(node, parts);
  }

  // Where a list of positions leads in the value: through which objects, and to what.
  datatype Place = Place(above: seq<Ref>, value: Value)

  function Follow(h: Heap, v: Value, path: seq<nat>): Option<Place>
    decreases |path|
  {
    if path == [] then Some(Place([], v))
    else if !v.Obj? || v.ref !in h || path[0] >= |Listed(h[v.ref])| then None
    else
      match Follow(h, Listed(h[v.ref])[path[0]], path[1..])
      case None => None
      case Some(p) => Some(Place([v.ref] + p.above, p.value))
  }

  // Where it leads in a snapshot.
  function At(s: Snapshot, path: seq<nat>): Option<Snapshot>
    decreases |path|
  {
    if path == [] then Some(s)
    else if s.Items? then if path[0] < |s.items| then At(s.items[path[0]], path[1..]) else None
    else if s.Fields? then if path[0] < |s.values| then At(s.values[path[0]], path[1..]) else None
    else None
  }

  ghost predicate Distinct(above: seq<Ref>, inside: set<Ref>) {
    && (forall i :: 0 <= i < |above| ==> above[i] !in inside)
    && (forall i, j :: 0 <= i < j < |above| ==> above[i] != above[j])
  }

  // What a snapshot shows of the node it stands for.
  ghost predicate Shows(h: Heap, s: Snapshot, v: Value) {
    match v
    case Undefined => s == UndefinedText
    case Primitive(text) => s == Same(text)
    case BigInt(text) => s == BigIntText(text)
    case Function => s == UnsupportedFunction
    case Symbol => s == UnsupportedSymbol
    case Obj(r) =>
      && r in h
      && (match h[r]
          case Array(items) => s.Items? && |s.items| == |items|
          case Record(_, fields) =>
            && s.Fields? && |s.values| == |s.keys| && Ascending(s.keys, StringLess)
            && forall k :: k in s.keys <==> k in fields)
  }

  ghost predicate ComesBack(p: Place, inside: set<Ref>) {
    p.value.Obj? && (p.value.ref in inside || p.value.ref in p.above)
  }

  // A snapshot's node, if any, is right for a place, if any.
  ghost predicate Right(h: Heap, s: Option<Snapshot>, p: Option<Place>, inside: set<Ref>) {
    && (s.Some? <==> p.Some? && Distinct(p.value.above, inside))
    && (s.Some? ==>
          if ComesBack(p.value, inside) then s.value == Circular else s.value != Circular && Shows(h, s.value, p.value.value))
  }

  // Position by position, the snapshot has what the value has, as long as no object comes twice on the way;
  // and it has the mark exactly where the value comes back to an object on the way.
  lemma {:induction false} SnapshotExact(h: Heap, v: Value, inside: set<Ref>, path: seq<nat>)
    requires Valid(h) && Within(h, v)
    ensures Right(h, At(Unfold(h, v, inside), path), Follow(h, v, path), inside)
    decreases |path|
  {
    if path == [] {
      SnapshotHere(h, v, inside);
    } else if v.Obj? && v.ref !in inside && path[0] < |Listed(h[v.ref])| {
      var part := Listed(h[v.ref])[path[0]];
      ListedWithin(h, v.ref);
      SnapshotExact(h, part, inside + {v.ref}, path[1..]);
      assert At(Unfold(h, v, inside), path) == At(Unfold(h, part, inside + {v.ref}), path[1..]);
      RightAbove(h, v.ref, At(Unfold(h, v, inside), path), Follow(h, part, path[1..]), inside);
      hide Right, Unfold, At, Valid, Listed;
    } else {
      assert At(Unfold(h, v, inside), path) == None;
      if Follow(h, v, path).Some? {
        assert Follow(h, v, path).value.above[0] == v.ref;
      }
    }
  }

  lemma SnapshotHere(h: Heap, v: Value, inside: set<Ref>)
    requires Within(h, v)
    ensures Right(h, Some(Unfold(h, v, inside)), Some(Place([], v)), inside)
  {
  }

  lemma RightAbove(h: Heap, r: Ref, s: Option<Snapshot>, p: Option<Place>, inside: set<Ref>)
    requires r !in inside && Right(h, s, p, inside + {r})
    ensures Right(h, s, if p.None? then None else Some(Place([r] + p.value.above, p.value.value)), inside)
  {
    if p.Some? {
      DistinctBelow(r, p.value.above, inside);
    }
    hide Distinct, Shows;
  }

  lemma DistinctBelow(r: Ref, above: seq<Ref>, inside: set<Ref>)
    requires r !in inside
    ensures Distinct([r] + above, inside) <==> Distinct(above, inside + {r})
  {
    var all := [r] + above;
    if Distinct(all, inside) {
      assert forall i :: 0 <= i < |above| ==> above[i] == all[i + 1] && all[0] != all[i + 1];
    }
    if Distinct(above, inside + {r}) {
      assert forall i :: 0 < i < |all| ==> all[i] == above[i - 1];
    }
  }

  // ---------- cycles ----------

  lemma FollowStep(h: Heap, v: Value, path: seq<nat>)
    ensures path == [] ==> Follow(h, v, path) == Some(Place([], v))
    ensures path != [] && Follow(h, v, path).Some? ==> v.Obj? && v.ref in h && path[0] < |Listed(h[v.ref])|
    ensures path != [] && v.Obj? && v.ref in h && path[0] < |Listed(h[v.ref])| ==>
              Follow(h, v, path) == match Follow(h, Listed(h[v.ref])[path[0]], path[1..])
                                    case None => None
                                    case Some(p) => Some(Place([v.ref] + p.above, p.value))
  {
  }

  lemma {:induction false} FollowLength(h: Heap, v: Value, path: seq<nat>)
    requires Follow(h, v, path).Some?
    ensures |Follow(h, v, path).value.above| == |path|
    decreases |path|
  {
    hide Follow, Listed;
    FollowStep(h, v, path);
    if path != [] {
      FollowLength(h, Listed(h[v.ref])[path[0]], path[1..]);
    }
  }

  lemma {:induction false} FollowPrefix(h: Heap, v: Value, path: seq<nat>, k: nat)
    requires Follow(h, v, path).Some? && k < |path|
    ensures var above := Follow(h, v, path).value.above;
            |above| == |path| && Follow(h, v, path[..k]) == Some(Place(above[..k], Obj(above[k])))
    decreases |path|
  {
    hide Follow, Listed;
    FollowLength(h, v, path);
    FollowStep(h, v, path);
    FollowStep(h, v, path[..k]);
    if k > 0 {
      var part := Listed(h[v.ref])[path[0]];
      FollowPrefix(h, part, path[1..], k - 1);
      PrefixRest(path, k);
      PrefixCons(v.ref, Follow(h, part, path[1..]).value.above, k);
    }
  }

  lemma PrefixRest(path: seq<nat>, k: nat)
    requires 0 < k <= |path|
    ensures path[..k] != [] && path[..k][0] == path[0] && path[..k][1..] == path[1..][..k - 1]
  {
  }

  lemma PrefixCons(r: Ref, above: seq<Ref>, k: nat)
    requires 0 < k <= |above|
    ensures ([r] + above)[..k] == [r] + above[..k - 1] && ([r] + above)[k] == above[k - 1]
  {
  }

  ghost predicate HasCycle(h: Heap, v: Value) {
    exists path :: Cycles(h, v, path)
  }

  ghost predicate Cycles(h: Heap, v: Value, path: seq<nat>) {
    Follow(h, v, path).Some? && ComesBack(Follow(h, v, path).value, {})
  }

  ghost predicate Marks(s: Snapshot, path: seq<nat>) { At(s, path) == Some(Circular) }

  // A snapshot is marked somewhere exactly when the value comes back to itself somewhere.
  lemma MarkedIffCycle(h: Heap, v: Value)
    requires Valid(h) && Within(h, v)
    ensures (exists path :: Marks(Unfold(h, v, {}), path)) <==> HasCycle(h, v)
  {
    if path :| Marks(Unfold(h, v, {}), path) {
      SnapshotExact(h, v, {}, path);
      assert Cycles(h, v, path);
    }
    if path :| Cycles(h, v, path) {
      var first := FirstReturn(h, v, path);
      SnapshotExact(h, v, {}, first);
      assert Marks(Unfold(h, v, {}), first);
    }
  }

  lemma {:induction false} FirstReturn(h: Heap, v: Value, path: seq<nat>) returns (first: seq<nat>)
    requires Cycles(h, v, path)
    ensures Cycles(h, v, first) && Distinct(Follow(h, v, first).value.above, {})
    decreases |path|
  {
    var above := Follow(h, v, path).value.above;
    if Distinct(above, {}) {
      first := path;
    } else {
      var i, j :| 0 <= i < j < |above| && above[i] == above[j];
      if path != [] { FollowPrefix(h, v, path, 0); }
      FollowPrefix(h, v, path, j);
      assert above[..j][i] == above[j];
      first := FirstReturn(h, v, path[..j]);
    }
  }


  // ---------- values without cycles ----------

  // A snapshot that shows the whole value and has no mark. It does not say how it was taken.
  predicate Plain(h: Heap, v: Value, s: Snapshot)
    decreases s
  {
    if !v.Obj? then s == Leaf(v)
    else
      && v.ref in h
      && var listed := Listed(h[v.ref]);
      match s
      case Items(items) =>
        h[v.ref].Array? && |items| == |listed| && forall i :: 0 <= i < |items| ==> Plain(h, listed[i], items[i])
      case Fields(keys, values) =>
        && h[v.ref].Record? && keys == SortedKeys(h[v.ref]) && |values| == |listed|
        && forall i :: 0 <= i < |values| ==> Plain(h, listed[i], values[i])
      case _ => false
  }

  // There is at most one.
  lemma {:induction false} PlainUnique(h: Heap, v: Value, s: Snapshot, t: Snapshot)
    requires Plain(h, v, s) && Plain(h, v, t)
    ensures s == t
    decreases s
  {
    if v.Obj? {
      var listed := Listed(h[v.ref]);
      match s
      case Items(items) =>
        forall i | 0 <= i < |items| ensures items[i] == t.items[i] {
          PlainUnique(h, listed[i], items[i], t.items[i]);
        }
      case Fields(_, values) =>
        forall i | 0 <= i < |values| ensures values[i] == t.values[i] {
          PlainUnique(h, listed[i], values[i], t.values[i]);
        }
      case _ => assert false;
    }
  }

  // Nothing the value leads to comes back to what lies between, or to what it was reached through.
  ghost predicate NeverBack(h: Heap, v: Value, inside: set<Ref>) {
    forall path :: Follow(h, v, path).Some? ==> !ComesBack(Follow(h, v, path).value, inside)
  }

  lemma NeverBackBelow(h: Heap, r: Ref, i: nat, inside: set<Ref>)
    requires r in h && i < |Listed(h[r])| && NeverBack(h, Obj(r), inside)
    ensures NeverBack(h, Listed(h[r])[i], inside + {r})
  {
    var part := Listed(h[r])[i];
    forall path | Follow(h, part, path).Some? ensures !ComesBack(Follow(h, part, path).value, inside + {r}) {
      var longer := [i] + path;
      assert longer[1..] == path;
      var p := Follow(h, part, path).value;
      assert Follow(h, Obj(r), longer) == Some(Place([r] + p.above, p.value));
      assert !ComesBack(Place([r] + p.above, p.value), inside);
    }
  }

  lemma {:induction false} NeverBackIsPlain(h: Heap, v: Value, inside: set<Ref>)
    requires Valid(h) && Within(h, v) && NeverBack(h, v, inside)
    ensures Plain(h, v, Unfold(h, v, inside))
    decreases h.Keys - inside
  {
    if v.Obj? {
      assert Follow(h, v, []) == Some(Place([], v));
      assert v.ref !in inside;
      ListedWithin(h, v.ref);
      var listed := Listed(h[v.ref]);
      forall i | 0 <= i < |listed| ensures Plain(h, listed[i], Unfold(h, listed[i], inside + {v.ref})) {
        NeverBackBelow(h, v.ref, i, inside);
        NeverBackIsPlain(h, listed[i], inside + {v.ref});
      }
      hide NeverBack, Valid;
    }
  }

  lemma {:induction false} PlainHasNoMark(h: Heap, v: Value, s: Snapshot, path: seq<nat>)
    requires Plain(h, v, s)
    ensures !Marks(s, path)
    decreases |path|
  {
    if path != [] && v.Obj? {
      var listed := Listed(h[v.ref]);
      match s
      case Items(items) => if path[0] < |items| { PlainHasNoMark(h, listed[path[0]], items[path[0]], path[1..]); }
      case Fields(_, values) => if path[0] < |values| { PlainHasNoMark(h, listed[path[0]], values[path[0]], path[1..]); }
      case _ =>
    }
  }

  // The snapshot is the plain one exactly when the value has no cycle, however much is shared and whatever
  // cycles there are elsewhere.
  lemma AcyclicIffPlain(h: Heap, v: Value)
    requires Valid(h) && Within(h, v)
    ensures Plain(h, v, Unfold(h, v, {})) <==> !HasCycle(h, v)
  {
    MarkedIffCycle(h, v);
    if !HasCycle(h, v) {
      assert forall path :: Follow(h, v, path).Some? ==> !Cycles(h, v, path);
      NeverBackIsPlain(h, v, {});
    } else {
      var path :| Marks(Unfold(h, v, {}), path);
      if Plain(h, v, Unfold(h, v, {})) {
        PlainHasNoMark(h, v, Unfold(h, v, {}), path);
      }
    }
  }
}
