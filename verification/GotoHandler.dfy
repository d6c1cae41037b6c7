/** The request handler's goto loop (`PluginHandler::handle` in src/plugin/mod.rs). A plugin is an arbitrary
    context transformer; it may also depend on anything outside the context, so it is given the moment of
    its execution. */
module GotoHandler {
  import opened Common
  import opened DnsTypes
  import opened Wire

  /** The `goto_label` metadata; a value that is not a string cannot be followed. */
  datatype Label = Named(target: string) | OtherValue

  /** `rest` is whatever else the context holds. */
  datatype Context<X> =
    Context(request: Message, response: Option<Message>, gotoLabel: Option<Label>, returnFlag: bool, rest: X)

  datatype Outcome<X> = Outcome(ctx: Context<X>, ok: bool)

  datatype Plugin<!X> = Plugin(name: string, execute: (nat, Context<X>) -> Outcome<X>)

  type Registry<!X> = map<string, Plugin<X>>

  predicate Clean<X>(c: Context<X>) {
    c.gotoLabel == None && !c.returnFlag
  }

  function Cleared<X>(c: Context<X>): Context<X> {
    c.(gotoLabel := None, returnFlag := false)
  }

  /** The execution succeeded and left a label to follow. */
  predicate Jumps<X>(o: Outcome<X>, target: string) {
    o.ok && o.ctx.gotoLabel == Some(Named(target))
  }

  // --------------------------------------------------------------------- runs

  datatype Visit<X> = Visit(name: string, before: Context<X>, outcome: Outcome<X>)

  ghost predicate Follows<X>(v: Visit<X>, w: Visit<X>) {
    Jumps(v.outcome, w.name) && w.before == Cleared(v.outcome.ctx)
  }

  /** The executions of a handler so far: the entry, then each goto target in turn. */
  ghost predicate IsRun<X>(reg: Registry<X>, entry: string, start: Context<X>, log: seq<Visit<X>>) {
    && (forall k :: 0 <= k < |log| ==>
          log[k].name in reg && log[k].outcome == reg[log[k].name].execute(k, log[k].before))
    && (log != [] ==> log[0].name == entry && log[0].before == start)
    && (forall j, k {:trigger Follows(log[j], log[k])} :: 0 <= j < k < |log| && k == j + 1 ==> Follows(log[j], log[k]))
  }

  /** Nothing registered is left to execute, or the last execution failed. */
  predicate Ended<X>(reg: Registry<X>, entry: string, log: seq<Visit<X>>) {
    if log == [] then entry !in reg
    else
      var o := log[|log| - 1].outcome;
      !o.ok || !o.ctx.gotoLabel.Some? || !o.ctx.gotoLabel.value.Named? || o.ctx.gotoLabel.value.target !in reg
  }

  /** The context when the loop is left: a missing target is reported after the label was removed. */
  function Final<X>(start: Context<X>, log: seq<Visit<X>>): Context<X> {
    if log == [] then start
    else
      var c := log[|log| - 1].outcome.ctx;
      if c.gotoLabel.Some? && c.gotoLabel.value.Named? then Cleared(c) else c
  }

  // -------------------------------------------------------- the goto relation

  /** Started without label and flag, plugin `a` may at some moment go to `b`. */
  ghost predicate MayGo<X(!new)>(reg: Registry<X>, a: string, b: string) {
    a in reg && b in reg && exists t: nat, c: Context<X> :: Clean(c) && Jumps(reg[a].execute(t, c), b)
  }

  ghost predicate Path<X(!new)>(reg: Registry<X>, p: seq<string>) {
    |p| >= 2 &&
    forall i, j {:trigger MayGo(reg, p[i], p[j])} :: 0 <= i < j < |p| && j == i + 1 ==> MayGo(reg, p[i], p[j])
  }

  ghost predicate Acyclic<X(!new)>(reg: Registry<X>) {
    forall p {:trigger Path(reg, p)} :: Path(reg, p) ==> p[0] != p[|p| - 1]
  }

  // ------------------------------------------------------------------ lengths

  lemma {:induction false} DistinctFits(names: seq<string>, pool: set<string>)
    requires forall i :: 0 <= i < |names| ==> names[i] in pool
    requires forall i, j :: 0 <= i < j < |names| ==> names[i] != names[j]
    ensures |names| <= |pool|
    decreases |names|
  {
    if names == [] {
    } else {
      var last := |names| - 1;
      DistinctFits(names[..last], pool - {names[last]});
    }
  }

  function Names<X>(log: seq<Visit<X>>): (r: seq<string>)
    ensures |r| == |log| && forall i :: 0 <= i < |log| ==> r[i] == log[i].name
  {
    seq(|log|, i requires 0 <= i < |log| => log[i].name)
  }

  /** Each execution starts with neither a label nor the return flag, and otherwise with the context that
      the one before it left. */
  lemma StartsClean<X>(reg: Registry<X>, entry: string, start: Context<X>, log: seq<Visit<X>>, k: nat)
    requires IsRun(reg, entry, start, log) && Clean(start) && k < |log|
    ensures Clean(log[k].before)
    ensures k > 0 ==>
      var left := log[k - 1].outcome.ctx;
      && log[k].before.request == left.request && log[k].before.response == left.response
      && log[k].before.rest == left.rest && left.gotoLabel == Some(Named(log[k].name))
  {
    assert k > 0 ==> Follows(log[k - 1], log[k]);
  }

  lemma RunIsPath<X(!new)>(reg: Registry<X>, entry: string, start: Context<X>, log: seq<Visit<X>>, k: nat)
    requires IsRun(reg, entry, start, log) && Clean(start) && 0 < k < |log|
    ensures MayGo(reg, log[k - 1].name, log[k].name)
  {
    StartsClean(reg, entry, start, log, k - 1);
    assert Follows(log[k - 1], log[k]);
  }

  lemma SegmentIsPath<X(!new)>(reg: Registry<X>, entry: string, start: Context<X>,
                               log: seq<Visit<X>>, i: nat, j: nat, p: seq<string>)
    requires IsRun(reg, entry, start, log) && Clean(start) && i < j < |log|
    requires |p| == j + 1 - i && forall k :: 0 <= k < |p| ==> p[k] == log[i + k].name
    ensures Path(reg, p)
  {
    forall k, l | 0 <= k < l < |p| && l == k + 1
      ensures MayGo(reg, p[k], p[l])
    {
      RunIsPath(reg, entry, start, log, i + l);
    }
  }

  lemma NoRevisit<X(!new)>(reg: Registry<X>, entry: string, start: Context<X>, log: seq<Visit<X>>, i: nat, j: nat)
    requires IsRun(reg, entry, start, log) && Clean(start) && Acyclic(reg) && i < j < |log|
    ensures log[i].name != log[j].name
  {
    var p := seq(j + 1 - i, k requires 0 <= k < j + 1 - i => log[i + k].name);
    SegmentIsPath(reg, entry, start, log, i, j, p);
    assert p[0] == log[i].name && p[|p| - 1] == log[j].name;
  }

  /** In an acyclic registry no plugin is executed twice, so a run never exceeds the registered plugins. */
  lemma RunsAreShort<X(!new)>(reg: Registry<X>, entry: string, start: Context<X>, log: seq<Visit<X>>)
    requires IsRun(reg, entry, start, log) && Clean(start) && Acyclic(reg)
    ensures forall i, j :: 0 <= i < j < |log| ==> log[i].name != log[j].name
    ensures |log| <= |reg|
  {
    forall i, j | 0 <= i < j < |log|
      ensures log[i].name != log[j].name
    {
      NoRevisit(reg, entry, start, log, i, j);
    }
    DistinctFits(Names(log), reg.Keys);
    assert |reg.Keys| == |reg|;
  }

  lemma ShortIfAcyclic<X(!new)>(reg: Registry<X>, entry: string, start: Context<X>, log: seq<Visit<X>>)
    requires IsRun(reg, entry, start, log) && Clean(start)
    ensures Acyclic(reg) ==> |log| <= |reg|
  {
    if Acyclic(reg) { RunsAreShort(reg, entry, start, log); }
  }

  /** A handler has one run: of two runs, one begins the other, and two ended runs are the same. */
  lemma {:induction false} RunsAgree<X>(reg: Registry<X>, entry: string, start: Context<X>,
                                        log: seq<Visit<X>>, other: seq<Visit<X>>, k: nat)
    requires IsRun(reg, entry, start, log) && IsRun(reg, entry, start, other) && k < |log| && k < |other|
    ensures log[k] == other[k]
  {
    if k == 0 {
    } else {
      RunsAgree(reg, entry, start, log, other, k - 1);
      assert Follows(log[k - 1], log[k]) && Follows(other[k - 1], other[k]);
    }
  }

  lemma BeginningGoesOn<X>(reg: Registry<X>, entry: string, start: Context<X>, log: seq<Visit<X>>, n: nat)
    requires IsRun(reg, entry, start, log) && n < |log|
    ensures !Ended(reg, entry, log[..n])
  {
    if n > 0 {
      assert Follows(log[n - 1], log[n]);
    }
  }

  lemma EndedRunIsWhole<X>(reg: Registry<X>, entry: string, start: Context<X>,
                           log: seq<Visit<X>>, other: seq<Visit<X>>)
    requires IsRun(reg, entry, start, log) && IsRun(reg, entry, start, other) && Ended(reg, entry, log)
    ensures |other| <= |log| && other == log[..|other|]
    ensures Ended(reg, entry, other) ==> other == log
  {
    forall k | 0 <= k < |log| && k < |other|
      ensures log[k] == other[k]
    {
      RunsAgree(reg, entry, start, log, other, k);
    }
    assert |log| < |other| ==> other[..|log|] == log;
    assert |other| <= |log| ==> log[..|other|] == other;
    if |log| < |other| {
      BeginningGoesOn(reg, entry, start, other, |log|);
    } else if |other| < |log| {
      BeginningGoesOn(reg, entry, start, log, |other|);
    }
  }

  // -------------------------------------------------------------- termination

  function Next<X>(reg: Registry<X>, entry: string, start: Context<X>, log: seq<Visit<X>>): (v: Visit<X>)
    requires !Ended(reg, entry, log)
    ensures v.name in reg
  {
    var name := if log == [] then entry else log[|log| - 1].outcome.ctx.gotoLabel.value.target;
    var before := if log == [] then start else Cleared(log[|log| - 1].outcome.ctx);
    Visit(name, before, reg[name].execute(|log|, before))
  }

  lemma NextExtends<X>(reg: Registry<X>, entry: string, start: Context<X>, log: seq<Visit<X>>)
    requires IsRun(reg, entry, start, log) && !Ended(reg, entry, log)
    ensures IsRun(reg, entry, start, log + [Next(reg, entry, start, log)])
  {
    var longer := log + [Next(reg, entry, start, log)];
    forall j, k | 0 <= j < k < |longer| && k == j + 1
      ensures Follows(longer[j], longer[k])
    {
      assert k < |log| ==> Follows(log[j], log[k]);
    }
  }

  lemma {:induction false} RunEnds<X(!new)>(reg: Registry<X>, entry: string, start: Context<X>, log: seq<Visit<X>>)
    returns (whole: seq<Visit<X>>)
    requires IsRun(reg, entry, start, log) && Clean(start) && Acyclic(reg) && |log| <= |reg|
    ensures IsRun(reg, entry, start, whole) && Ended(reg, entry, whole)
    decreases |reg| - |log|
  {
    if Ended(reg, entry, log) {
      whole := log;
    } else {
      NextExtends(reg, entry, start, log);
      var longer := log + [Next(reg, entry, start, log)];
      RunsAreShort(reg, entry, start, longer);
      whole := RunEnds(reg, entry, start, longer);
    }
  }

  /** Whenever it starts without label and flag, plugin `a` goes to `b`. */
  ghost predicate AlwaysGoes<X(!new)>(reg: Registry<X>, a: string, b: string) {
    a in reg && b in reg && forall t: nat, c: Context<X> :: Clean(c) ==> Jumps(reg[a].execute(t, c), b)
  }

  ghost predicate CertainPath<X(!new)>(reg: Registry<X>, p: seq<string>) {
    forall i, j {:trigger AlwaysGoes(reg, p[i], p[j])} :: 0 <= i < j < |p| && j == i + 1 ==> AlwaysGoes(reg, p[i], p[j])
  }

  /** A run that enters a cycle of unconditional gotos stays in it. */
  lemma {:induction false} CycleHolds<X(!new)>(reg: Registry<X>, p: seq<string>, start: Context<X>,
                                               log: seq<Visit<X>>, k: nat) returns (i: nat)
    requires |p| >= 2 && p[0] == p[|p| - 1] && CertainPath(reg, p)
    requires Clean(start) && IsRun(reg, p[0], start, log) && k < |log|
    ensures 0 < i < |p| && log[k].name == p[i - 1] && Jumps(log[k].outcome, p[i]) && p[i] in reg
  {
    if k == 0 {
      i := 1;
    } else {
      var j := CycleHolds(reg, p, start, log, k - 1);
      assert Follows(log[k - 1], log[k]);
      i := if j == |p| - 1 then 1 else j + 1;
    }
    StartsClean(reg, p[0], start, log, k);
    assert AlwaysGoes(reg, p[i - 1], p[i]);
  }

  /** The handler never gets out of a cycle of unconditional gotos. */
  lemma CycleNeverEnds<X(!new)>(reg: Registry<X>, p: seq<string>, start: Context<X>, log: seq<Visit<X>>)
    requires |p| >= 2 && p[0] == p[|p| - 1] && CertainPath(reg, p)
    requires Clean(start) && IsRun(reg, p[0], start, log)
    ensures !Ended(reg, p[0], log)
  {
    assert AlwaysGoes(reg, p[0], p[1]);
    if log != [] {
      var i := CycleHolds(reg, p, start, log, |log| - 1);
    }
  }

  ghost predicate Ends<X(!new)>(reg: Registry<X>, entry: string, start: Context<X>) {
    exists log :: IsRun(reg, entry, start, log) && Ended(reg, entry, log)
  }

  /** Where gotos do not depend on the context, acyclicity is exactly what the handler needs to end from
      every entry. */
  lemma EndsIff<X(!new)>(reg: Registry<X>, start: Context<X>)
    requires Clean(start)
    requires forall a, b :: MayGo(reg, a, b) ==> AlwaysGoes(reg, a, b)
    ensures (forall entry :: Ends(reg, entry, start)) <==> Acyclic(reg)
  {
    if Acyclic(reg) {
      forall entry
        ensures Ends(reg, entry, start)
      {
        var whole := RunEnds(reg, entry, start, []);
      }
    } else {
      var p :| Path(reg, p) && p[0] == p[|p| - 1];
      assert forall i, j {:trigger AlwaysGoes(reg, p[i], p[j])} ::
        0 <= i < j < |p| && j == i + 1 ==> MayGo(reg, p[i], p[j]);
      assert CertainPath(reg, p);
      forall log | IsRun(reg, p[0], start, log)
        ensures !Ended(reg, p[0], log)
      {
        CycleNeverEnds(reg, p, start, log);
      }
      assert !Ends(reg, p[0], start);
    }
  }

  // -------------------------------------------------------------- the handler

  const NEW_MESSAGE: Message :=
    Message(0, Flags(false, false, false, true, false, false, false), Query, NoError, [], [], [], [])

  /** The cache plugins run once more on a response, in registry order; their errors are only reported. */
  function Stored<X>(reg: Registry<X>, order: seq<string>, moment: nat, c: Context<X>): Context<X>
    decreases |order|
  {
    if order == [] then c
    else
      var last := |order| - 1;
      var before := Stored(reg, order[..last], moment, c);
      if order[last] in reg && reg[order[last]].name == "cache" then
        reg[order[last]].execute(moment + last, before).ctx
      else before
  }

  function AfterStore<X>(reg: Registry<X>, order: seq<string>, moment: nat, c: Context<X>): Context<X> {
    if c.response.Some? then Stored(reg, order, moment, c) else c
  }

  function Reply<X>(c: Context<X>): (m: Message)
    ensures m.id == c.request.id
    ensures c.response.Some? ==> m == c.response.value.(id := c.request.id)
    ensures c.response.None? ==> m.rcode == ServFail && m.answers == m.authority == m.additional == []
  {
    var m := if c.response.Some? then c.response.value else NEW_MESSAGE.(rcode := ServFail);
    m.(id := c.request.id)
  }

  predicate IsCache<X>(reg: Registry<X>, name: string) {
    name in reg && reg[name].name == "cache"
  }

  lemma {:induction false} StoredStepwise<X>(reg: Registry<X>, order: seq<string>, moment: nat, c: Context<X>)
    returns (cs: seq<Context<X>>)
    ensures |cs| == |order| + 1 && cs[0] == c && cs[|order|] == Stored(reg, order, moment, c)
    ensures forall i :: 0 <= i < |order| ==>
      cs[i + 1] == if IsCache(reg, order[i]) then reg[order[i]].execute(moment + i, cs[i]).ctx else cs[i]
    decreases |order|
  {
    if order == [] {
      cs := [c];
    } else {
      var last := |order| - 1;
      var before := StoredStepwise(reg, order[..last], moment, c);
      cs := before + [Stored(reg, order, moment, c)];
      forall i | 0 <= i < |order|
        ensures cs[i + 1] == if IsCache(reg, order[i]) then reg[order[i]].execute(moment + i, cs[i]).ctx else cs[i]
      {
        if i < last {
          assert order[..last][i] == order[i] && cs[i] == before[i] && cs[i + 1] == before[i + 1];
        }
      }
    }
  }

  /** The contexts around each position of the order: if there is a response, a cache plugin is executed
      once, on the context its predecessors left; everything else leaves the context alone. */
  lemma StoresOncePerCache<X>(reg: Registry<X>, order: seq<string>, moment: nat, c: Context<X>)
    returns (cs: seq<Context<X>>)
    ensures |cs| == |order| + 1 && cs[0] == c && cs[|order|] == AfterStore(reg, order, moment, c)
    ensures forall i :: 0 <= i < |order| ==>
      cs[i + 1] ==
        if c.response.Some? && IsCache(reg, order[i]) then reg[order[i]].execute(moment + i, cs[i]).ctx else cs[i]
  {
    if c.response.Some? {
      cs := StoredStepwise(reg, order, moment, c);
    } else {
      cs := seq(|order| + 1, _ => c);
    }
  }

  method StoreResponse<X>(reg: Registry<X>, order: seq<string>, moment: nat, start: Context<X>)
    returns (ctx: Context<X>)
    ensures ctx == AfterStore(reg, order, moment, start)
  {
    ctx := start;
    if ctx.response.None? { return; }
    for i := 0 to |order|
      invariant ctx == Stored(reg, order[..i], moment, start)
    {
      assert order[..i + 1][..i] == order[..i];
      if order[i] in reg && reg[order[i]].name == "cache" {
        var o := reg[order[i]].execute(moment + i, ctx);
        ctx := o.ctx;
      }
    }
    assert order[..|order|] == order;
  }

  lemma GotoExtends<X>(reg: Registry<X>, entry: string, start: Context<X>,
                       whole: seq<Visit<X>>, log: seq<Visit<X>>, v: Visit<X>)
    requires IsRun(reg, entry, start, whole) && Ended(reg, entry, whole) && IsRun(reg, entry, start, log)
    requires !Ended(reg, entry, log) && v == Next(reg, entry, start, log)
    ensures IsRun(reg, entry, start, log + [v]) && |log + [v]| <= |whole|
  {
    NextExtends(reg, entry, start, log);
    EndedRunIsWhole(reg, entry, start, whole, log + [v]);
  }

  /** The entry and then the goto loop: every execution until nothing is left to follow or one fails. */
  method FollowGotos<X(!new)>(reg: Registry<X>, entry: string, start: Context<X>)
    returns (ctx: Context<X>, ok: bool, log: seq<Visit<X>>)
    requires Clean(start) && Ends(reg, entry, start)
    ensures IsRun(reg, entry, start, log) && Ended(reg, entry, log)
    ensures !ok <==> log != [] && !log[|log| - 1].outcome.ok
    ensures ok ==> ctx == Final(start, log)
  {
    ghost var whole :| IsRun(reg, entry, start, whole) && Ended(reg, entry, whole);
    ctx, log := start, [];
    if entry in reg {
      var o := reg[entry].execute(0, ctx);
      log := [Visit(entry, ctx, o)];
      EndedRunIsWhole(reg, entry, start, whole, log);
      ctx := o.ctx;
      if !o.ok { return ctx, false, log; }
    }
    while ctx.gotoLabel.Some?
      invariant IsRun(reg, entry, start, log) && |log| <= |whole|
      invariant log == [] ==> entry !in reg && ctx == start
      invariant log != [] ==> log[|log| - 1].outcome == Outcome(ctx, true)
      decreases |whole| - |log|
    {
      if !ctx.gotoLabel.value.Named? { break; }
      var target := ctx.gotoLabel.value.target;
      ctx := ctx.(gotoLabel := None);
      ctx := ctx.(returnFlag := false);
      if target !in reg { break; }
      var o := reg[target].execute(|log|, ctx);
      GotoExtends(reg, entry, start, whole, log, Visit(target, ctx, o));
      log := log + [Visit(target, ctx, o)];
      ctx := o.ctx;
      if !o.ok { return ctx, false, log; }
    }
    ok := true;
  }

  /** `order` is the order in which the registry lists its plugins. */
  method Handle<X(!new)>(reg: Registry<X>, entry: string, start: Context<X>, order: seq<string>)
    returns (r: Result<Message, ()>, log: seq<Visit<X>>)
    requires Clean(start) && Ends(reg, entry, start)
    ensures IsRun(reg, entry, start, log) && Ended(reg, entry, log)
    ensures Acyclic(reg) ==> |log| <= |reg|
    ensures r.Err? <==> log != [] && !log[|log| - 1].outcome.ok
    ensures r.Ok? ==> r.value == Reply(AfterStore(reg, order, |log|, Final(start, log)))
  {
    var ctx, ok;
    ctx, ok, log := FollowGotos(reg, entry, start);
    ShortIfAcyclic(reg, entry, start, log);
    if !ok { return Err(()), log; }
    ctx := StoreResponse(reg, order, |log|, ctx);
    var response := if ctx.response.Some? then ctx.response.value else NEW_MESSAGE.(rcode := ServFail);
    return Ok(response.(id := ctx.request.id)), log;
  }

  // ---------------------------------------------------------- the original id

  /** No plugin rewrites the id of the request it is given. */
  ghost predicate RequestIdKept<X(!new)>(reg: Registry<X>) {
    forall name, t: nat, c: Context<X> {:trigger reg[name].execute(t, c)} ::
      name in reg ==> reg[name].execute(t, c).ctx.request.id == c.request.id
  }

  lemma {:induction false} IdAlongRun<X(!new)>(reg: Registry<X>, entry: string, start: Context<X>,
                                               log: seq<Visit<X>>, k: nat)
    requires IsRun(reg, entry, start, log) && RequestIdKept(reg) && k < |log|
    ensures log[k].outcome.ctx.request.id == start.request.id
  {
    if k == 0 {
    } else {
      IdAlongRun(reg, entry, start, log, k - 1);
      assert Follows(log[k - 1], log[k]);
    }
  }

  lemma {:induction false} IdAfterStore<X(!new)>(reg: Registry<X>, order: seq<string>, moment: nat, c: Context<X>)
    requires RequestIdKept(reg)
    ensures Stored(reg, order, moment, c).request.id == c.request.id
    decreases |order|
  {
    if order == [] {
    } else {
      IdAfterStore(reg, order[..|order| - 1], moment, c);
    }
  }

  /** However many gotos are followed, the reply answers the id that came in. */
  lemma ReplyHasOriginalId<X(!new)>(reg: Registry<X>, entry: string, start: Context<X>, log: seq<Visit<X>>,
                                    order: seq<string>, moment: nat)
    requires IsRun(reg, entry, start, log) && RequestIdKept(reg)
    ensures Reply(AfterStore(reg, order, moment, Final(start, log))).id == start.request.id
  {
    if log != [] {
      IdAlongRun(reg, entry, start, log, |log| - 1);
    }
    IdAfterStore(reg, order, moment, Final(start, log));
  }
}
