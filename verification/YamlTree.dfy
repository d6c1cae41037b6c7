/** The YAML argument tree of a plugin and the write that an environment override
    performs on it (`set_path` in src/config/loader.rs). */
module YamlTree {
  import opened Common

  /** Scalars other than null are never inspected by the loader, so their text stands for them. */
  datatype Value =
    | Null
    | Scalar(text: string)
    | Sequence(items: seq<Value>)
    | Mapping(entries: map<string, Value>)

  datatype Segment = Key(name: string) | Index(pos: nat)

  type Path = seq<Segment>

  // ---------------------------------------------------------------- reading

  function Get(t: Value, path: Path): Option<Value>
    decreases |path|
  {
    if path == [] then Some(t)
    else match path[0]
      case Key(k) =>
        if t.Mapping? && k in t.entries then Get(t.entries[k], path[1..]) else None
      case Index(i) =>
        if t.Sequence? && i < |t.items| then Get(t.items[i], path[1..]) else None
  }

  // ------------------------------------------- what a write means, stated simply

  function Entries(t: Value): map<string, Value> {
    if t.Mapping? then t.entries else map[]
  }

  function Items(t: Value): seq<Value> {
    if t.Sequence? then t.items else []
  }

  /** `Vec::resize(i + 1, Null)` when `i` is past the end. */
  function Padded(s: seq<Value>, i: nat): (r: seq<Value>)
    ensures |r| > i && |r| >= |s| && s <= r
    ensures forall j :: |s| <= j < |r| ==> r[j] == Null
    ensures i < |s| ==> r == s
    ensures i >= |s| ==> |r| == i + 1
  {
    if i < |s| then s else s + seq(i + 1 - |s|, _ => Null)
  }

  function ChildAt(t: Value, k: string): Value {
    if k in Entries(t) then Entries(t)[k] else Null
  }

  /** The tree after writing `v` at `path`: every container on the way exists afterwards,
      a node of the wrong kind is replaced, everything else is kept. */
  function Put(t: Value, path: Path, v: Value): Value
    decreases |path|
  {
    if path == [] then v
    else match path[0]
      case Key(k) =>
        Mapping(Entries(t)[k := Put(ChildAt(t, k), path[1..], v)])
      case Index(i) =>
        var s := Padded(Items(t), i);
        Sequence(s[i := Put(s[i], path[1..], v)])
  }

  // ------------------------------------------- the loader's loop with its cursor

  /** The container the loader creates for the next segment. */
  function Fresh(next: Segment): Value {
    if next.Index? then Sequence([]) else Mapping(map[])
  }

  /** One node above the cursor, with the cursor's own slot left open. */
  datatype Frame = InMapping(entries: map<string, Value>, key: string) | InSequence(items: seq<Value>, pos: nat)

  function Fill(f: Frame, t: Value): Value {
    match f
    case InMapping(m, k) => Mapping(m[k := t])
    case InSequence(s, i) => if i < |s| then Sequence(s[i := t]) else Sequence(s)
  }

  /** Rebuilds the whole tree from the frames above the cursor, innermost frame last. */
  function Plug(spine: seq<Frame>, t: Value): Value
    decreases |spine|
  {
    if spine == [] then t else Plug(spine[..|spine| - 1], Fill(spine[|spine| - 1], t))
  }

  lemma PlugPush(spine: seq<Frame>, f: Frame, t: Value)
    ensures Plug(spine + [f], t) == Plug(spine, Fill(f, t))
  {
    assert (spine + [f])[..|spine + [f]| - 1] == spine;
  }

  /** A created container behaves like a missing node: the next write replaces or extends it alike. */
  lemma FreshIsBlank(next: Segment, rest: Path, t: Value, v: Value)
    requires t == Null || t == Fresh(next)
    ensures Put(t, [next] + rest, v) == Put(Null, [next] + rest, v)
  {
    assert Entries(t) == map[] && Items(t) == [];
  }

  /** The node's items, long enough to hold the index; a node of another kind has none. */
  method Resize(cur: Value, idx: nat) returns (items: seq<Value>)
    ensures items == Padded(Items(cur), idx)
  {
    items := if cur.Sequence? then cur.items else [];
    if idx >= |items| {
      items := items + seq(idx + 1 - |items|, _ => Null);
    }
  }

  /** The write at the last segment. */
  method WriteLast(cur: Value, seg: Segment, value: Value) returns (node: Value)
    ensures node == Put(cur, [seg], value)
  {
    assert [seg][1..] == [];
    match seg
    case Key(k) =>
      var entries := if cur.Mapping? then cur.entries else map[];
      node := Mapping(entries[k := value]);
    case Index(idx) =>
      var items := Resize(cur, idx);
      node := Sequence(items[idx := value]);
  }

  /** What the cursor moves to when a segment follows: a missing key or a null item becomes a fresh
      container for the segment after it. */
  function ChildFor(cur: Value, seg: Segment, next: Segment): Value {
    match seg
    case Key(k) => if k in Entries(cur) then Entries(cur)[k] else Fresh(next)
    case Index(idx) => if Padded(Items(cur), idx)[idx] == Null then Fresh(next) else Padded(Items(cur), idx)[idx]
  }

  function FrameFor(cur: Value, seg: Segment, next: Segment): Frame {
    match seg
    case Key(k) => InMapping(Entries(cur), k)
    case Index(idx) => InSequence(Padded(Items(cur), idx)[idx := ChildFor(cur, seg, next)], idx)
  }

  method Descend(cur: Value, seg: Segment, next: Segment) returns (frame: Frame, child: Value)
    ensures frame == FrameFor(cur, seg, next) && child == ChildFor(cur, seg, next)
  {
    match seg
    case Key(k) =>
      var entries := if cur.Mapping? then cur.entries else map[];
      child := if cur.Mapping? && k in entries then entries[k] else Fresh(next);
      frame := InMapping(entries, k);
    case Index(idx) =>
      var items := Resize(cur, idx);
      if items[idx] == Null {
        items := items[idx := Fresh(next)];
      } else {
        assert items[idx := items[idx]] == items;
      }
      child := items[idx];
      frame := InSequence(items, idx);
  }

  /** `set_path`: walks a cursor down the tree, creating, resizing or replacing nodes as it goes. */
  method SetPath(target: Value, path: Path, value: Value) returns (result: Value)
    ensures result == Put(target, path, value)
  {
    if path == [] {
      return value;
    }
    var cur := target;
    var spine: seq<Frame> := [];
    var i := 0;
    ghost var whole := Put(target, path, value);
    assert path[0..] == path;
    while i < |path| - 1
      invariant 0 <= i < |path|
      invariant Plug(spine, Put(cur, path[i..], value)) == whole
    {
      assert path[i..] == [path[i]] + path[i + 1..];
      CursorMoves(spine, cur, path[i], path[i + 1..], value);
      var frame, child := Descend(cur, path[i], path[i + 1]);
      spine := spine + [frame];
      cur := child;
      i := i + 1;
    }
    assert path[i..] == [path[i]];
    var node := WriteLast(cur, path[i], value);
    result := Plug(spine, node);
  }

  /** The cursor moves to a child, and its node joins the spine. */
  lemma CursorMoves(spine: seq<Frame>, cur: Value, seg: Segment, rest: Path, v: Value)
    requires rest != []
    ensures
      var frame, child := FrameFor(cur, seg, rest[0]), ChildFor(cur, seg, rest[0]);
      Plug(spine, Put(cur, [seg] + rest, v)) == Plug(spine + [frame], Put(child, rest, v))
  {
    match seg
    case Key(k) => DescendKey(cur, k, rest, v);
    case Index(idx) => DescendIndex(cur, idx, rest, v);
    PlugPush(spine, FrameFor(cur, seg, rest[0]), Put(ChildFor(cur, seg, rest[0]), rest, v));
  }

  lemma DescendKey(cur: Value, k: string, rest: Path, v: Value)
    requires rest != []
    ensures
      var child := if k in Entries(cur) then Entries(cur)[k] else Fresh(rest[0]);
      Put(cur, [Key(k)] + rest, v) == Fill(InMapping(Entries(cur), k), Put(child, rest, v))
  {
    assert ([Key(k)] + rest)[1..] == rest && [rest[0]] + rest[1..] == rest;
    FreshIsBlank(rest[0], rest[1..], Fresh(rest[0]), v);
  }

  lemma DescendIndex(cur: Value, idx: nat, rest: Path, v: Value)
    requires rest != []
    ensures
      var s := Padded(Items(cur), idx);
      var child := if s[idx] == Null then Fresh(rest[0]) else s[idx];
      Put(cur, [Index(idx)] + rest, v) == Fill(InSequence(s[idx := child], idx), Put(child, rest, v))
  {
    assert ([Index(idx)] + rest)[1..] == rest && [rest[0]] + rest[1..] == rest;
    FreshIsBlank(rest[0], rest[1..], Fresh(rest[0]), v);
  }

  // ---------------------------------------------------------------- lens laws

  lemma {:induction false} PutGet(t: Value, path: Path, v: Value)
    ensures Get(Put(t, path, v), path) == Some(v)
    decreases |path|
  {
    if path == [] {
    } else {
      match path[0]
      case Key(k) => PutGet(ChildAt(t, k), path[1..], v);
      case Index(i) => PutGet(Padded(Items(t), i)[i], path[1..], v);
    }
  }

  lemma {:induction false} PutPut(t: Value, path: Path, v: Value, w: Value)
    ensures Put(Put(t, path, v), path, w) == Put(t, path, w)
    decreases |path|
  {
    if path == [] {
    } else {
      match path[0]
      case Key(k) =>
        PutTwiceUnderKey(t, k, path, v, path, w);
        PutPut(ChildAt(t, k), path[1..], v, w);
      case Index(i) =>
        PutTwiceUnderIndex(t, i, path, v, path, w);
        PutPut(Padded(Items(t), i)[i], path[1..], v, w);
    }
  }

  lemma {:induction false} GetPut(t: Value, path: Path, v: Value)
    requires Get(t, path) == Some(v)
    ensures Put(t, path, v) == t
    decreases |path|
  {
    if path == [] {
    } else {
      match path[0]
      case Key(k) =>
        GetPut(t.entries[k], path[1..], v);
        assert t.entries[k := t.entries[k]] == t.entries;
      case Index(i) =>
        GetPut(t.items[i], path[1..], v);
    }
  }

  // ------------------------------------------------------- two different paths

  /** The paths part at some segment, and the two segments there are of the same kind. */
  predicate PartSameKind(p: Path, q: Path)
    decreases |p|
  {
    p != [] && q != [] &&
    if p[0] == q[0] then PartSameKind(p[1..], q[1..]) else p[0].Key? == q[0].Key?
  }

  /** The paths part at some segment where one wants a mapping and the other a sequence. */
  predicate PartOtherKind(p: Path, q: Path)
    decreases |p|
  {
    p != [] && q != [] &&
    if p[0] == q[0] then PartOtherKind(p[1..], q[1..]) else p[0].Key? != q[0].Key?
  }

  /** A write keeps every value readable at a path that parts at a segment of the same kind, and the
      only thing it can add there is the null padding of a resized sequence. */
  lemma {:induction false} PutFrame(t: Value, p: Path, v: Value, q: Path)
    requires PartSameKind(p, q)
    ensures Get(t, q).Some? ==> Get(Put(t, p, v), q) == Get(t, q)
    ensures Get(t, q).None? ==> Get(Put(t, p, v), q) in {None, Some(Null)}
    decreases |p|
  {
    if p[0] == q[0] {
      match p[0]
      case Key(k) =>
        PutFrame(ChildAt(t, k), p[1..], v, q[1..]);
        if !(t.Mapping? && k in t.entries) { NullHasNothing(q[1..]); }
      case Index(i) =>
        var s := Padded(Items(t), i);
        PutFrame(s[i], p[1..], v, q[1..]);
        if !(t.Sequence? && i < |t.items|) { NullHasNothing(q[1..]); }
    } else {
      match p[0]
      case Key(k) =>
      case Index(i) =>
        var s := Padded(Items(t), i);
        var j := q[0].pos;
        if |Items(t)| <= j < |s| { NullHasAtMostItself(q[1..]); }
    }
  }

  lemma NullHasNothing(q: Path)
    requires q != []
    ensures Get(Null, q) == None
  {
  }

  lemma NullHasAtMostItself(q: Path)
    ensures Get(Null, q) in {None, Some(Null)}
  {
  }

  /** Where the kinds differ, the write takes the other path's place: nothing is readable there. */
  lemma {:induction false} PutReplacesOtherKind(t: Value, p: Path, v: Value, q: Path)
    requires PartOtherKind(p, q)
    ensures Get(Put(t, p, v), q) == None
    decreases |p|
  {
    if p[0] == q[0] {
      match p[0]
      case Key(k) => PutReplacesOtherKind(ChildAt(t, k), p[1..], v, q[1..]);
      case Index(i) => PutReplacesOtherKind(Padded(Items(t), i)[i], p[1..], v, q[1..]);
    }
  }

  // ------------------------------------------------------------ commutation

  /** Decided from the two writes alone: the paths part at segments of one kind, or one path extends
      the other and the longer write is already contained in the shorter one's value. */
  predicate Independent(p: Path, v: Value, q: Path, w: Value)
    decreases |p|
  {
    if p == [] then Put(v, q, w) == v
    else if q == [] then Put(w, p, v) == w
    else if p[0] == q[0] then Independent(p[1..], v, q[1..], w)
    else p[0].Key? == q[0].Key?
  }

  lemma {:induction false} PartSameKindIsIndependent(p: Path, v: Value, q: Path, w: Value)
    requires PartSameKind(p, q)
    ensures Independent(p, v, q, w)
    decreases |p|
  {
    if p[0] == q[0] { PartSameKindIsIndependent(p[1..], v, q[1..], w); }
  }

  /** Two writes commute exactly when they are independent, and that does not depend on the tree. */
  lemma {:induction false} PutsCommuteIff(t: Value, p: Path, v: Value, q: Path, w: Value)
    ensures Put(Put(t, p, v), q, w) == Put(Put(t, q, w), p, v) <==> Independent(p, v, q, w)
    decreases |p|
  {
    if p == [] || q == [] {
    } else if p[0] == q[0] {
      match p[0]
      case Key(k) => SameKeyCommutes(t, k, p, v, q, w);
      case Index(i) => SameIndexCommutes(t, i, p, v, q, w);
    } else if p[0].Key? && q[0].Key? {
      TwoKeysCommute(t, p, v, q, w);
    } else if p[0].Index? && q[0].Index? {
      TwoIndicesCommute(t, p, v, q, w);
    }
  }

  lemma PutTwiceUnderKey(t: Value, k: string, p: Path, v: Value, q: Path, w: Value)
    requires p != [] && q != [] && p[0] == q[0] == Key(k)
    ensures Put(Put(t, p, v), q, w) == Mapping(Entries(t)[k := Put(Put(ChildAt(t, k), p[1..], v), q[1..], w)])
  {
    var x := Put(ChildAt(t, k), p[1..], v);
    assert Put(t, p, v) == Mapping(Entries(t)[k := x]);
    assert ChildAt(Put(t, p, v), k) == x;
    var y := Put(x, q[1..], w);
    assert Entries(t)[k := x][k := y] == Entries(t)[k := y];
  }

  lemma {:induction false} SameKeyCommutes(t: Value, k: string, p: Path, v: Value, q: Path, w: Value)
    requires p != [] && q != [] && p[0] == q[0] == Key(k)
    ensures Put(Put(t, p, v), q, w) == Put(Put(t, q, w), p, v) <==> Independent(p, v, q, w)
    decreases |p|, 0
  {
    var c := ChildAt(t, k);
    PutsCommuteIff(c, p[1..], v, q[1..], w);
    PutTwiceUnderKey(t, k, p, v, q, w);
    PutTwiceUnderKey(t, k, q, w, p, v);
    var pq, qp := Put(Put(c, p[1..], v), q[1..], w), Put(Put(c, q[1..], w), p[1..], v);
    assert Entries(t)[k := pq][k] == pq && Entries(t)[k := qp][k] == qp;
  }

  lemma PutTwiceUnderIndex(t: Value, i: nat, p: Path, v: Value, q: Path, w: Value)
    requires p != [] && q != [] && p[0] == q[0] == Index(i)
    ensures
      var s := Padded(Items(t), i);
      Put(Put(t, p, v), q, w) == Sequence(s[i := Put(Put(s[i], p[1..], v), q[1..], w)])
  {
    var s := Padded(Items(t), i);
    var x := Put(s[i], p[1..], v);
    assert Put(t, p, v) == Sequence(s[i := x]);
    assert Padded(s[i := x], i) == s[i := x];
    var y := Put(x, q[1..], w);
    assert s[i := x][i := y] == s[i := y];
  }

  lemma {:induction false} SameIndexCommutes(t: Value, i: nat, p: Path, v: Value, q: Path, w: Value)
    requires p != [] && q != [] && p[0] == q[0] == Index(i)
    ensures Put(Put(t, p, v), q, w) == Put(Put(t, q, w), p, v) <==> Independent(p, v, q, w)
    decreases |p|, 0
  {
    var s := Padded(Items(t), i);
    PutsCommuteIff(s[i], p[1..], v, q[1..], w);
    PutTwiceUnderIndex(t, i, p, v, q, w);
    PutTwiceUnderIndex(t, i, q, w, p, v);
    var pq, qp := Put(Put(s[i], p[1..], v), q[1..], w), Put(Put(s[i], q[1..], w), p[1..], v);
    assert s[i := pq][i] == pq && s[i := qp][i] == qp;
  }

  lemma PutTwoKeys(t: Value, k: string, l: string, p: Path, v: Value, q: Path, w: Value)
    requires p != [] && q != [] && p[0] == Key(k) && q[0] == Key(l) && k != l
    ensures
      var x, y := Put(ChildAt(t, k), p[1..], v), Put(ChildAt(t, l), q[1..], w);
      Put(Put(t, p, v), q, w) == Mapping(Entries(t)[k := x][l := y])
  {
    var x := Put(ChildAt(t, k), p[1..], v);
    var u := Put(t, p, v);
    assert u == Mapping(Entries(t)[k := x]) && ChildAt(u, l) == ChildAt(t, l);
  }

  lemma TwoKeysCommute(t: Value, p: Path, v: Value, q: Path, w: Value)
    requires p != [] && q != [] && p[0].Key? && q[0].Key? && p[0] != q[0]
    ensures Put(Put(t, p, v), q, w) == Put(Put(t, q, w), p, v)
  {
    var k, l := p[0].name, q[0].name;
    var x, y := Put(ChildAt(t, k), p[1..], v), Put(ChildAt(t, l), q[1..], w);
    PutTwoKeys(t, k, l, p, v, q, w);
    PutTwoKeys(t, l, k, q, w, p, v);
    assert Entries(t)[k := x][l := y] == Entries(t)[l := y][k := x];
  }

  lemma PaddingsSwap(s: seq<Value>, i: nat, x: Value, j: nat, y: Value)
    requires i < j
    ensures Padded(Padded(s, i)[i := x], j)[j := y] == Padded(Padded(s, j)[j := y], i)[i := x]
  {
    var a, b := Padded(Padded(s, i)[i := x], j)[j := y], Padded(Padded(s, j)[j := y], i)[i := x];
    assert |a| == |b|;
    forall k | 0 <= k < |a|
      ensures a[k] == b[k]
    {
    }
  }

  lemma PutTwoIndices(t: Value, i: nat, j: nat, p: Path, v: Value, q: Path, w: Value)
    requires p != [] && q != [] && p[0] == Index(i) && q[0] == Index(j) && i != j
    ensures
      var s := Items(t);
      var x, y := Put(Padded(s, i)[i], p[1..], v), Put(Padded(s, j)[j], q[1..], w);
      Put(Put(t, p, v), q, w) == Sequence(Padded(Padded(s, i)[i := x], j)[j := y])
  {
    var s := Items(t);
    var x := Put(Padded(s, i)[i], p[1..], v);
    assert Put(t, p, v) == Sequence(Padded(s, i)[i := x]);
    assert Padded(Padded(s, i)[i := x], j)[j] == Padded(s, j)[j];
  }

  lemma TwoIndicesCommute(t: Value, p: Path, v: Value, q: Path, w: Value)
    requires p != [] && q != [] && p[0].Index? && q[0].Index? && p[0] != q[0]
    ensures Put(Put(t, p, v), q, w) == Put(Put(t, q, w), p, v)
  {
    var i, j := p[0].pos, q[0].pos;
    var s := Items(t);
    var x, y := Put(Padded(s, i)[i], p[1..], v), Put(Padded(s, j)[j], q[1..], w);
    PutTwoIndices(t, i, j, p, v, q, w);
    PutTwoIndices(t, j, i, q, w, p, v);
    if i < j { PaddingsSwap(s, i, x, j, y); } else { PaddingsSwap(s, j, y, i, x); }
  }
}
