/** Copy-on-write responses (src/plugin/context.rs). Owners (contexts, and whoever else keeps an `Arc`)
    refer to shared cells with a strong count. Whatever an owner does, the others never notice: every run
    over shared cells is a run in which each owner has a private copy. */
module ResponseSharing {
  import opened Common

  // ----------------------------------------------------- private copies (spec)

  /** What an owner does to its response. */
  datatype Op<!M> =
    | Set(who: nat, value: Option<M>)
    | Share(who: nat, from: nat)
    | Move(who: nat, from: nat)
    | Mutate(who: nat, f: M -> M)
    | Take(who: nat)

  type Views<M> = seq<Option<M>>

  predicate Fits<M>(op: Op<M>, n: nat) {
    op.who < n && (op.Share? || op.Move? ==> op.from < n)
  }

  function Edited<M>(v: Option<M>, f: M -> M): Option<M> {
    match v case None => None case Some(m) => Some(f(m))
  }

  /** Each owner has its own copy, so an operation writes the owners it names and no other. */
  function Step<M>(views: Views<M>, op: Op<M>): (r: Views<M>)
    requires Fits(op, |views|)
    ensures |r| == |views|
  {
    match op
    case Set(i, v) => views[i := v]
    case Share(i, j) => views[i := views[j]]
    case Move(i, j) => views[j := None][i := views[j]]
    case Mutate(i, f) => views[i := Edited(views[i], f)]
    case Take(i) => views[i := None]
  }

  function Run<M>(views: Views<M>, ops: seq<Op<M>>): (r: Views<M>)
    requires forall k :: 0 <= k < |ops| ==> Fits(ops[k], |views|)
    ensures |r| == |views|
    decreases |ops|
  {
    if ops == [] then views
    else
      var last := |ops| - 1;
      Step(Run(views, ops[..last]), ops[last])
  }

  /** The values handed out by the `Take`s of a run, in order. */
  function Taken<M>(views: Views<M>, ops: seq<Op<M>>): seq<Option<M>>
    requires forall k :: 0 <= k < |ops| ==> Fits(ops[k], |views|)
    decreases |ops|
  {
    if ops == [] then []
    else
      var last := |ops| - 1;
      var before := Run(views, ops[..last]);
      assert Fits(ops[last], |before|);
      Taken(views, ops[..last]) + if ops[last].Take? then [before[ops[last].who]] else []
  }

  /** All views but those of owners `i` and `j` are the same. */
  ghost predicate SameBut<M>(a: Views<M>, b: Views<M>, i: nat, j: nat) {
    |a| == |b| && forall k :: 0 <= k < |a| && k != i && k != j ==> a[k] == b[k]
  }

  // ------------------------------------------------------------- shared cells

  class Cell<!M> {
    var msg: M
    var strong: nat
    constructor (m: M)
      ensures msg == m && strong == 1
    {
      msg := m;
      strong := 1;
    }
  }

  function View<M>(c: Cell?<M>): Option<M>
    reads c
  {
    if c == null then None else Some(c.msg)
  }

  lemma SharedCountsTwice<T>(s: seq<T>, i: nat, j: nat)
    requires i < j < |s| && s[i] == s[j]
    ensures multiset(s)[s[i]] >= 2
  {
    assert s == s[..j] + s[j..];
    assert s[i] in s[..j] && s[j] in s[j..];
  }

  lemma CountsTwiceIsShared<T>(s: seq<T>, i: nat)
    requires i < |s| && multiset(s)[s[i]] >= 2
    ensures exists j :: 0 <= j < |s| && j != i && s[j] == s[i]
  {
    var rest := s[..i] + s[i + 1..];
    assert s == s[..i] + [s[i]] + s[i + 1..];
    assert multiset(s) == multiset(rest) + multiset{s[i]};
    assert s[i] in multiset(rest);
    var k :| 0 <= k < |rest| && rest[k] == s[i];
    assert s[if k < i then k else k + 1] == s[i];
  }

  lemma UpdateCounts<T>(s: seq<T>, i: nat, c: T)
    requires i < |s|
    ensures multiset(s)[s[i]] >= 1
    ensures forall x ::
      multiset(s[i := c])[x] == multiset(s)[x] - (if x == s[i] then 1 else 0) + (if x == c then 1 else 0)
  {
    assert s[i] in multiset(s);
  }

  class Owners<!M> {
    var slots: seq<Cell?<M>>

    ghost function Cells(): set<Cell<M>>
      reads this
    {
      set c: Cell<M> | c in slots
    }

    /** Every cell's count is the number of owners that hold it. */
    ghost predicate Valid()
      reads this, Cells()
    {
      forall k :: 0 <= k < |slots| && slots[k] != null ==> slots[k].strong == multiset(slots)[slots[k]]
    }

    ghost function Observed(): (v: Views<M>)
      reads this, Cells()
      ensures |v| == |slots|
    {
      seq(|slots|, k requires 0 <= k < |slots| reads this, Cells() => View(slots[k]))
    }

    /** Some other owner holds the same cell. */
    ghost predicate Aliased(i: nat)
      requires i < |slots|
      reads this
    {
      slots[i] != null && exists j :: 0 <= j < |slots| && j != i && slots[j] == slots[i]
    }

    constructor (n: nat)
      ensures Valid() && |slots| == n && Cells() == {}
      ensures Observed() == seq(n, _ => None)
    {
      slots := seq(n, _ => null);
    }

    lemma CountTellsAliasing(i: nat)
      requires Valid() && i < |slots| && slots[i] != null
      ensures slots[i].strong >= 1
      ensures slots[i].strong == 1 <==> !Aliased(i)
    {
      assert slots[i] in multiset(slots);
      if slots[i].strong != 1 {
        CountsTwiceIsShared(slots, i);
      }
      forall j | 0 <= j < |slots| && j != i && slots[j] == slots[i]
        ensures slots[i].strong != 1
      {
        SharedCountsTwice(slots, if i < j then i else j, if i < j then j else i);
      }
    }

    /** Assignment of a reference already counted: the old one is dropped. */
    method Install(i: nat, c: Cell?<M>)
      requires i < |slots|
      requires forall k :: 0 <= k < |slots| && slots[k] != null && slots[k] != c ==>
        slots[k].strong == multiset(slots)[slots[k]]
      requires c != null ==> c.strong == multiset(slots)[c] + 1
      modifies this`slots, Cells()`strong
      ensures slots == old(slots)[i := c] && Valid()
      ensures Observed() == old(Observed())[i := old(View(c))]
    {
      var was := slots[i];
      UpdateCounts(slots, i, c);
      slots := slots[i := c];
      if was != null {
        was.strong := was.strong - 1;
      }
    }

    /** `set_response` */
    method SetResponse(i: nat, value: Option<M>)
      requires Valid() && i < |slots|
      modifies this, Cells()
      ensures Valid() && fresh(Cells() - old(Cells()))
      ensures Observed() == Step(old(Observed()), Set(i, value))
      ensures Observed()[i] == value && SameBut(Observed(), old(Observed()), i, i)
      ensures !Aliased(i)
    {
      match value
      case None => Install(i, null);
      case Some(m) =>
        var c := new Cell(m);
        Install(i, c);
    }

    /** `set_response_arc` with a clone of the `Arc` of owner `j` */
    method ShareResponse(i: nat, j: nat)
      requires Valid() && i < |slots| && j < |slots|
      modifies this, Cells()
      ensures Valid() && fresh(Cells() - old(Cells()))
      ensures Observed() == Step(old(Observed()), Share(i, j))
      ensures Observed()[i] == old(Observed())[j] && SameBut(Observed(), old(Observed()), i, i)
      ensures slots == old(slots)[i := old(slots[j])]
    {
      var c := slots[j];
      if c != null {
        c.strong := c.strong + 1;
      }
      Install(i, c);
    }

    /** `set_response_arc` with the `Arc` that owner `j` gives up */
    method MoveResponse(i: nat, j: nat)
      requires Valid() && i < |slots| && j < |slots|
      modifies this, Cells()
      ensures Valid() && fresh(Cells() - old(Cells()))
      ensures Observed() == Step(old(Observed()), Move(i, j))
      ensures Observed()[i] == old(Observed())[j] && (j != i ==> Observed()[j] == None)
      ensures SameBut(Observed(), old(Observed()), i, j)
      ensures slots == old(slots)[j := null][i := old(slots[j])]
    {
      var c := slots[j];
      assert c in multiset(slots);
      slots := slots[j := null];
      assert Observed() == old(Observed())[j := None];
      Install(i, c);
    }

    /** `Arc::make_mut`: afterwards the owner holds its message alone. The message is copied exactly when
        another owner held it too. */
    method MakeUnique(i: nat) returns (copied: bool)
      requires Valid() && i < |slots|
      modifies this, Cells()
      ensures Valid() && fresh(Cells() - old(Cells()))
      ensures Observed() == old(Observed()) && !Aliased(i)
      ensures copied == old(Aliased(i))
      ensures !copied ==> slots == old(slots)
    {
      var c := slots[i];
      if c == null {
        return false;
      }
      CountTellsAliasing(i);
      copied := c.strong != 1;
      if copied {
        var own := new Cell(c.msg);
        Install(i, own);
      }
    }

    /** `response_mut`, with `f` the change made through the reference */
    method MutateResponse(i: nat, f: M -> M) returns (copied: bool)
      requires Valid() && i < |slots|
      modifies this, Cells()
      ensures Valid() && fresh(Cells() - old(Cells()))
      ensures Observed() == Step(old(Observed()), Mutate(i, f)) && !Aliased(i)
      ensures old(Observed())[i].None? ==> Observed()[i] == None
      ensures old(Observed())[i].Some? ==> Observed()[i] == Some(f(old(Observed())[i].value))
      ensures SameBut(Observed(), old(Observed()), i, i)
      ensures copied == old(Aliased(i))
      ensures !copied ==> slots == old(slots)
    {
      copied := MakeUnique(i);
      var c := slots[i];
      if c != null {
        c.msg := f(c.msg);
      }
    }

    /** `take_response`: the value is the same whether it is moved out or copied. */
    method TakeResponse(i: nat) returns (r: Option<M>, copied: bool)
      requires Valid() && i < |slots|
      modifies this, Cells()
      ensures Valid() && fresh(Cells() - old(Cells()))
      ensures r == old(Observed())[i]
      ensures Observed() == Step(old(Observed()), Take(i))
      ensures Observed()[i] == None && SameBut(Observed(), old(Observed()), i, i)
      ensures copied == old(Aliased(i))
    {
      var c := slots[i];
      if c == null {
        return None, false;
      }
      CountTellsAliasing(i);
      slots := slots[i := null];
      copied := c.strong != 1;
      r := Some(c.msg);
      c.strong := c.strong - 1;
    }

    method Perform(op: Op<M>) returns (taken: seq<Option<M>>)
      requires Valid() && Fits(op, |slots|)
      modifies this, Cells()
      ensures Valid() && fresh(Cells() - old(Cells()))
      ensures Observed() == Step(old(Observed()), op)
      ensures taken == if op.Take? then [old(Observed())[op.who]] else []
    {
      taken := [];
      match op
      case Set(i, v) => SetResponse(i, v);
      case Share(i, j) => ShareResponse(i, j);
      case Move(i, j) => MoveResponse(i, j);
      case Mutate(i, f) => var _ := MutateResponse(i, f);
      case Take(i) =>
        var r, _ := TakeResponse(i);
        taken := [r];
    }

    /** Any run over shared cells shows every owner, and hands out, what private copies would. */
    method PerformAll(ops: seq<Op<M>>) returns (taken: seq<Option<M>>)
      requires Valid() && forall k :: 0 <= k < |ops| ==> Fits(ops[k], |slots|)
      modifies this, Cells()
      ensures Valid() && fresh(Cells() - old(Cells()))
      ensures Observed() == Run(old(Observed()), ops)
      ensures taken == Taken(old(Observed()), ops)
    {
      ghost var start := Observed();
      taken := [];
      for n := 0 to |ops|
        invariant Valid() && fresh(Cells() - old(Cells()))
        invariant |slots| == |start| && Observed() == Run(start, ops[..n])
        invariant taken == Taken(start, ops[..n])
      {
        assert ops[..n + 1][..n] == ops[..n];
        var t := Perform(ops[n]);
        taken := taken + t;
      }
      assert ops[..|ops|] == ops;
    }
  }

  // --------------------------------------------------- what private copies give

  /** The operation writes owner `k`. */
  predicate Touches<M>(op: Op<M>, k: nat) {
    op.who == k || (op.Move? && op.from == k)
  }

  /** The operation brings another owner's response to `k`. */
  predicate Imports<M>(op: Op<M>, k: nat) {
    (op.Share? || op.Move?) && op.who == k && op.from != k
  }

  function Mine<M>(ops: seq<Op<M>>, k: nat): (r: seq<Op<M>>)
    ensures forall n :: 0 <= n < |r| ==> r[n] in ops
    decreases |ops|
  {
    if ops == [] then []
    else
      var last := |ops| - 1;
      Mine(ops[..last], k) + if Touches(ops[last], k) then [ops[last]] else []
  }

  /** However its response was shared to begin with and whatever the other owners do, an owner that
      imports nothing sees exactly what its own operations alone would show it. */
  lemma {:induction false} Isolation<M>(views: Views<M>, ops: seq<Op<M>>, k: nat)
    requires k < |views|
    requires forall n :: 0 <= n < |ops| ==> Fits(ops[n], |views|) && !Imports(ops[n], k)
    ensures Run(views, ops)[k] == Run(views, Mine(ops, k))[k]
    decreases |ops|
  {
    if ops == [] {
    } else {
      var last := |ops| - 1;
      Isolation(views, ops[..last], k);
      var mine := Mine(ops[..last], k);
      if Touches(ops[last], k) {
        assert (mine + [ops[last]])[..|mine|] == mine;
      } else {
        assert mine + [] == mine;
      }
    }
  }

  // ------------------------------------------------------- a response is taken once

  /** The operation gives owner `i` a response. */
  predicate Gives<M>(op: Op<M>, i: nat) {
    (op.Set? || op.Share? || op.Move?) && op.who == i
  }

  lemma {:induction false} RunAppend<M>(views: Views<M>, xs: seq<Op<M>>, ys: seq<Op<M>>)
    requires forall k :: 0 <= k < |xs| ==> Fits(xs[k], |views|)
    requires forall k :: 0 <= k < |ys| ==> Fits(ys[k], |views|)
    ensures Run(views, xs + ys) == Run(Run(views, xs), ys)
    decreases |ys|
  {
    if ys == [] {
      assert xs + ys == xs;
    } else {
      var last := |ys| - 1;
      RunAppend(views, xs, ys[..last]);
      assert (xs + ys)[..|xs| + last] == xs + ys[..last];
    }
  }

  lemma {:induction false} StaysEmpty<M>(views: Views<M>, ops: seq<Op<M>>, i: nat)
    requires i < |views| && views[i] == None
    requires forall k :: 0 <= k < |ops| ==> Fits(ops[k], |views|) && !Gives(ops[k], i)
    ensures Run(views, ops)[i] == None
    decreases |ops|
  {
    if ops == [] {
    } else {
      StaysEmpty(views, ops[..|ops| - 1], i);
    }
  }

  /** After a take the owner has nothing until it is given something: whatever the others do in between, a
      second take yields nothing. */
  lemma {:induction false} SecondTakeIsEmpty<M>(views: Views<M>, before: seq<Op<M>>, between: seq<Op<M>>, i: nat)
    requires i < |views| && forall k :: 0 <= k < |before| ==> Fits(before[k], |views|)
    requires forall k :: 0 <= k < |between| ==> Fits(between[k], |views|) && !Gives(between[k], i)
    ensures Taken(views, before + [Take(i)] + between + [Take(i)])
         == Taken(views, before + [Take(i)] + between) + [None]
  {
    var first := before + [Take(i)];
    assert first[..|before|] == before;
    var empty := Run(views, first);
    assert empty[i] == None;
    RunAppend(views, first, between);
    StaysEmpty(empty, between, i);
    assert (first + between + [Take(i)])[..|first + between|] == first + between;
  }
}
