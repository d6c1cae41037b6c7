/** Graceful shutdown: the accept loops of the UDP, TCP and DoT servers with their permits, the one-way
    shutdown bus, draining, and the launcher's join with a timeout (src/server/common.rs, udp.rs, tcp.rs,
    dot.rs and launcher.rs). The three accept loops take the same steps. */
module Shutdown {
  import opened Common

  datatype Phase = Accepting | Draining | Exited(timedOut: bool) | Aborted

  /** `inFlight` counts spawned request tasks; each holds one permit of the server's semaphore. */
  datatype Server = Server(max: nat, available: nat, inFlight: nat, phase: Phase)

  /** The launcher's join. `done` were awaited to completion, `current` is being awaited. */
  datatype Join =
    | NotJoining
    | Joining(rest: seq<nat>, current: nat, done: seq<nat>)
    | Joined(ok: bool, done: seq<nat>, left: Option<nat>, aborted: seq<nat>)

  /** `tasks` holds the handle of each spawned server until the launcher drains it. */
  datatype State = State(signalled: bool, servers: seq<Server>, tasks: seq<nat>, join: Join)

  datatype Step =
    | Spawn(max: nat)
    | Receive(i: nat)
    | Finish(i: nat)
    | Trigger
    | Leave(i: nat)
    | Poll(i: nat)
    | DrainTimeout(i: nat)
    | StartJoin
    | JoinCurrent
    | JoinTimeout

  const BOOT := State(false, [], [], NotJoining)

  function With(s: State, i: nat, v: Server): State
    requires i < |s.servers|
  {
    s.(servers := s.servers[i := v])
  }

  predicate Over(p: Phase) {
    p.Exited? || p.Aborted?
  }

  function Next(s: State, step: Step): Option<State> {
    match step
    case Spawn(max) =>
      Some(s.(servers := s.servers + [Server(max, max, 0, Accepting)], tasks := s.tasks + [|s.servers|]))
    case Receive(i) =>
      if i < |s.servers| && s.servers[i].phase.Accepting? then
        var v := s.servers[i];
        // without a free permit the packet or connection is dropped
        if v.available == 0 then Some(s)
        else Some(With(s, i, v.(available := v.available - 1, inFlight := v.inFlight + 1)))
      else None
    case Finish(i) =>
      if i < |s.servers| && s.servers[i].inFlight > 0 then
        var v := s.servers[i];
        Some(With(s, i, v.(available := v.available + 1, inFlight := v.inFlight - 1)))
      else None
    case Trigger => Some(s.(signalled := true))
    case Leave(i) =>
      if i < |s.servers| && s.servers[i].phase.Accepting? && s.signalled then
        Some(With(s, i, s.servers[i].(phase := Draining)))
      else None
    case Poll(i) =>
      if i < |s.servers| && s.servers[i].phase.Draining? then
        if s.servers[i].available < s.servers[i].max then Some(s)
        else Some(With(s, i, s.servers[i].(phase := Exited(false))))
      else None
    case DrainTimeout(i) =>
      if i < |s.servers| && s.servers[i].phase.Draining? then
        Some(With(s, i, s.servers[i].(phase := Exited(true))))
      else None
    case StartJoin =>
      if s.join.NotJoining? then Some(s.(tasks := [], join := PopNext(s.tasks, []))) else None
    case JoinCurrent =>
      if s.join.Joining? && s.join.current < |s.servers| && Over(s.servers[s.join.current].phase) then
        Some(s.(join := PopNext(s.join.rest, s.join.done + [s.join.current])))
      else None
    case JoinTimeout =>
      if s.join.Joining? then
        Some(s.(join := Joined(false, s.join.done, Some(s.join.current), Reversed(s.join.rest)),
                servers := AbortAll(s.servers, s.join.rest)))
      else None
  }

  /** The handles are popped from the end of the vector. */
  function PopNext(rest: seq<nat>, done: seq<nat>): Join {
    if rest == [] then Joined(true, done, None, [])
    else Joining(rest[..|rest| - 1], rest[|rest| - 1], done)
  }

  function Reversed(s: seq<nat>): (r: seq<nat>)
    ensures |r| == |s|
  {
    if s == [] then [] else [s[|s| - 1]] + Reversed(s[..|s| - 1])
  }

  lemma {:induction false} ReversedHolds(s: seq<nat>)
    ensures forall x :: x in Reversed(s) <==> x in s
  {
    if s == [] {
    } else {
      var short, last := s[..|s| - 1], s[|s| - 1];
      ReversedHolds(short);
      assert s == short + [last] && Reversed(s) == [last] + Reversed(short);
    }
  }

  /** Aborting a server task stops its loop; request tasks it has spawned go on. */
  function AbortAll(servers: seq<Server>, handles: seq<nat>): (r: seq<Server>)
    ensures |r| == |servers|
    ensures forall i :: 0 <= i < |servers| ==>
      r[i] == if i in handles && !Over(servers[i].phase) then servers[i].(phase := Aborted) else servers[i]
  {
    seq(|servers|, i requires 0 <= i < |servers| =>
      if i in handles && !Over(servers[i].phase) then servers[i].(phase := Aborted) else servers[i])
  }

  function Run(s: State, steps: seq<Step>): Option<State>
    decreases |steps|
  {
    if steps == [] then Some(s)
    else match Next(s, steps[0])
      case None => None
      case Some(t) => Run(t, steps[1..])
  }

  // ---------------------------------------------------------------- permits

  predicate ServerOk(v: Server) {
    && v.available + v.inFlight == v.max
    && (v.phase == Exited(false) ==> v.inFlight == 0)
  }

  ghost predicate Handles(join: Join, servers: seq<Server>) {
    match join
    case NotJoining => true
    case Joining(rest, current, done) =>
      && current < |servers| && Known(rest, |servers|)
      && (forall h :: h in done ==> h < |servers| && Over(servers[h].phase))
    case Joined(ok, done, left, aborted) =>
      && (forall h :: h in done ==> h < |servers| && Over(servers[h].phase))
      && (forall h :: h in aborted ==> h < |servers| && Over(servers[h].phase))
      && (left.Some? ==> left.value < |servers|)
      && (ok ==> left == None && aborted == [])
      && (!ok ==> left.Some?)
  }

  ghost predicate Permits(s: State) {
    forall i :: 0 <= i < |s.servers| ==> ServerOk(s.servers[i])
  }

  ghost predicate Known(handles: seq<nat>, n: nat) {
    forall h :: h in handles ==> h < n
  }

  /** Every spawn stores a new handle. */
  ghost predicate Increasing(handles: seq<nat>) {
    forall i, j :: 0 <= i < j < |handles| ==> handles[i] < handles[j]
  }

  /** Only a join that timed out aborts servers. */
  ghost predicate AbortsExplained(s: State) {
    forall i :: 0 <= i < |s.servers| && s.servers[i].phase.Aborted? ==> s.join.Joined? && !s.join.ok
  }

  ghost predicate Sound(s: State) {
    Permits(s) && Known(s.tasks, |s.servers|) && Increasing(s.tasks) && Handles(s.join, s.servers) && AbortsExplained(s)
  }

  /** A server that is no longer accepting never gains a request; an ended one stays ended. */
  predicate Quiets(v: Server, v': Server) {
    && v'.max == v.max
    && (!v.phase.Accepting? ==> !v'.phase.Accepting? && v'.inFlight <= v.inFlight)
    && (Over(v.phase) ==> v'.phase == v.phase)
  }

  ghost predicate Progress(s: State, t: State) {
    && |s.servers| <= |t.servers| && (s.signalled ==> t.signalled)
    && forall i :: 0 <= i < |s.servers| ==> Quiets(s.servers[i], t.servers[i])
  }

  lemma StepProgress(s: State, step: Step)
    requires Next(s, step).Some?
    ensures Progress(s, Next(s, step).value)
  {
  }

  lemma HandlesStay(join: Join, servers: seq<Server>, servers': seq<Server>)
    requires Handles(join, servers) && |servers| <= |servers'|
    requires forall i :: 0 <= i < |servers| && Over(servers[i].phase) ==> servers'[i].phase == servers[i].phase
    ensures Handles(join, servers')
  {
  }

  lemma PermitsStay(s: State, step: Step)
    requires Permits(s) && Next(s, step).Some?
    ensures Permits(Next(s, step).value)
  {
  }

  lemma AbortsStayExplained(s: State, step: Step)
    requires AbortsExplained(s) && Next(s, step).Some?
    ensures AbortsExplained(Next(s, step).value)
  {
  }

  lemma TimeoutKeeps(s: State)
    requires s.join.Joining? && Handles(s.join, s.servers)
    ensures Handles(Next(s, JoinTimeout).value.join, Next(s, JoinTimeout).value.servers)
  {
    ReversedHolds(s.join.rest);
  }

  lemma JoinStays(s: State, step: Step)
    requires Known(s.tasks, |s.servers|) && Handles(s.join, s.servers) && Next(s, step).Some?
    ensures Handles(Next(s, step).value.join, Next(s, step).value.servers)
  {
    var t := Next(s, step).value;
    if step.StartJoin? {
      PopKeeps(s.tasks, [], s.servers);
    } else if step.JoinCurrent? {
      PopKeeps(s.join.rest, s.join.done + [s.join.current], s.servers);
    } else if step.JoinTimeout? {
      TimeoutKeeps(s);
    } else {
      StepProgress(s, step);
      HandlesStay(s.join, s.servers, t.servers);
    }
  }

  lemma {:induction false} StepKeeps(s: State, step: Step)
    requires Sound(s) && Next(s, step).Some?
    ensures Sound(Next(s, step).value)
  {
    PermitsStay(s, step);
    AbortsStayExplained(s, step);
    JoinStays(s, step);
    StepProgress(s, step);
    HandlesStayNew(s, step);
  }

  lemma HandlesStayNew(s: State, step: Step)
    requires Known(s.tasks, |s.servers|) && Increasing(s.tasks) && Next(s, step).Some?
    ensures Increasing(Next(s, step).value.tasks)
  {
    assert forall i :: 0 <= i < |s.tasks| ==> s.tasks[i] in s.tasks;
  }

  lemma PopKeeps(rest: seq<nat>, done: seq<nat>, servers: seq<Server>)
    requires Known(rest, |servers|)
    requires forall h :: h in done ==> h < |servers| && Over(servers[h].phase)
    ensures Handles(PopNext(rest, done), servers)
  {
    if rest != [] {
      assert rest[|rest| - 1] in rest;
      var short := rest[..|rest| - 1];
      forall h | h in short
        ensures h < |servers|
      {
        assert h in rest;
      }
    }
  }

  /** Over every run: permits and requests balance, the bus never goes back, a server that has left its
      loop never gains a request, and an ended server stays ended. */
  lemma {:induction false} RunKeeps(s: State, steps: seq<Step>)
    requires Sound(s) && Run(s, steps).Some?
    ensures Sound(Run(s, steps).value) && Progress(s, Run(s, steps).value)
    decreases |steps|
  {
    if steps == [] {
    } else {
      StepKeeps(s, steps[0]);
      StepProgress(s, steps[0]);
      RunKeeps(Next(s, steps[0]).value, steps[1..]);
    }
  }

  /** The same from the start of the program. */
  lemma {:induction false} EveryRunIsSound(steps: seq<Step>)
    requires Run(BOOT, steps).Some?
    ensures Sound(Run(BOOT, steps).value)
  {
    RunKeeps(BOOT, steps);
  }

  /** A server whose drain ended other than by its timeout has no request in flight, now or later. */
  lemma {:induction false} DrainedStaysEmpty(s: State, i: nat, steps: seq<Step>)
    requires Sound(s) && i < |s.servers| && s.servers[i].phase == Exited(false) && Run(s, steps).Some?
    ensures
      var t := Run(s, steps).value;
      i < |t.servers| && t.servers[i].inFlight == 0 && t.servers[i].available == t.servers[i].max == s.servers[i].max
  {
    RunKeeps(s, steps);
  }

  /** A new server accepts with all its permits free, and its handle is kept. */
  lemma SpawnedServerAccepts(s: State, max: nat)
    ensures Next(s, Spawn(max)).Some?
    ensures
      var t := Next(s, Spawn(max)).value;
      var v := t.servers[|t.servers| - 1];
      && |t.servers| == |s.servers| + 1 && v.phase.Accepting? && v.inFlight == 0 && v.max == v.available == max
      && t.tasks == s.tasks + [|s.servers|] && t.servers[..|s.servers|] == s.servers
  {
  }

  /** Only this server's count differs, by so many requests taken or finished. */
  ghost predicate Gains(s: State, t: State, i: nat, requests: int) {
    && i < |s.servers| && t == s.(servers := t.servers) && |t.servers| == |s.servers|
    && t.servers[i].inFlight == s.servers[i].inFlight + requests
    && t.servers[i].available == s.servers[i].available - requests
    && t.servers[i].max == s.servers[i].max && t.servers[i].phase == s.servers[i].phase
    && forall j :: 0 <= j < |s.servers| && j != i ==> t.servers[j] == s.servers[j]
  }

  /** An accepting server takes a request exactly if a permit is free, and drops it otherwise; a server that
      no longer accepts takes none. */
  lemma ReceiveTakesIff(s: State, i: nat)
    requires i < |s.servers|
    ensures Next(s, Receive(i)).Some? <==> s.servers[i].phase.Accepting?
    ensures s.servers[i].phase.Accepting? ==>
      Gains(s, Next(s, Receive(i)).value, i, if s.servers[i].available > 0 then 1 else 0)
  {
  }

  /** A request in flight can finish in every phase, and gives its permit back. */
  lemma FinishFrees(s: State, i: nat)
    requires i < |s.servers| && s.servers[i].inFlight > 0
    ensures Next(s, Finish(i)).Some? && Gains(s, Next(s, Finish(i)).value, i, -1)
  {
  }

  /** A server leaves its loop exactly once the shutdown is signalled, and a drain can be cut short. */
  lemma LeavesIffSignalled(s: State, i: nat)
    requires i < |s.servers|
    ensures Next(s, Trigger).Some? && Next(s, Trigger).value == s.(signalled := true)
    ensures s.servers[i].phase.Accepting? ==> (Next(s, Leave(i)).Some? <==> s.signalled)
    ensures s.servers[i].phase.Draining? ==>
      Next(s, DrainTimeout(i)) == Some(With(s, i, s.servers[i].(phase := Exited(true))))
    ensures s.servers[i].phase.Draining? ==>
      (Next(s, Poll(i)).value.servers[i].phase == Exited(false) <==> s.servers[i].available >= s.servers[i].max)
  {
  }

  // ------------------------------------------------------------------- join

  /** The last handle pushed is the first taken. */
  lemma {:induction false} ReversedAt(s: seq<nat>, i: nat)
    requires i < |s|
    ensures Reversed(s)[i] == s[|s| - 1 - i]
  {
    if i == 0 {
    } else {
      ReversedAt(s[..|s| - 1], i - 1);
    }
  }

  /** Every handle the join took, in the order it takes them. */
  function Order(join: Join): seq<nat> {
    match join
    case NotJoining => []
    case Joining(rest, current, done) => done + [current] + Reversed(rest)
    case Joined(_, done, left, aborted) => done + (if left.Some? then [left.value] else []) + aborted
  }

  /** The join of a vector of handles of which `completing` complete before the timeout: they are awaited
      newest first, and a timeout leaves one being awaited and the rest aborted. */
  function JoinOutcome(handles: seq<nat>, completing: nat): Join {
    var r := Reversed(handles);
    if |r| <= completing then Joined(true, r, None, [])
    else Joined(false, r[..completing], Some(r[completing]), r[completing + 1..])
  }

  /** One handle popped from the end moves over to those taken. */
  lemma PopMoves(taken: seq<nat>, handles: seq<nat>)
    requires handles != []
    ensures taken + Reversed(handles) == taken + [handles[|handles| - 1]] + Reversed(handles[..|handles| - 1])
  {
    Assoc(taken, [handles[|handles| - 1]], Reversed(handles[..|handles| - 1]));
  }

  lemma TimeoutOutcome(handles: seq<nat>, done: seq<nat>, current: nat, rest: seq<nat>)
    requires Reversed(handles) == done + [current] + Reversed(rest)
    ensures JoinOutcome(handles, |done|) == Joined(false, done, Some(current), Reversed(rest))
  {
    var r := Reversed(handles);
    assert r[..|done|] == done && r[|done|] == current && r[|done| + 1..] == Reversed(rest);
  }

  lemma FullOutcome(handles: seq<nat>, done: seq<nat>, completing: nat)
    requires Reversed(handles) == done + Reversed([]) && |done| <= completing
    ensures JoinOutcome(handles, completing) == Joined(true, done, None, [])
  {
    assert done + [] == done;
  }

  method AbortRest(rest: seq<nat>) returns (aborted: seq<nat>)
    ensures aborted == Reversed(rest)
  {
    var handles := rest;
    aborted := [];
    while handles != []
      invariant aborted + Reversed(handles) == Reversed(rest)
      decreases |handles|
    {
      PopMoves(aborted, handles);
      aborted := aborted + [handles[|handles| - 1]];
      handles := handles[..|handles| - 1];
    }
    assert aborted + [] == aborted;
  }

  /** The launcher's task vector. */
  class Launcher {
    var tasks: seq<nat>

    constructor ()
      ensures tasks == []
    {
      tasks := [];
    }

    /** A server that fails to start leaves no handle. */
    method SpawnServer(started: bool, handle: nat)
      modifies this
      ensures tasks == if started then old(tasks) + [handle] else old(tasks)
    {
      if started {
        tasks := tasks + [handle];
      }
    }

    /** `launch_all`: one server per configuration, `None` for one that fails to start. The handles are
        those of the step relation. */
    method LaunchAll(limits: seq<Option<nat>>)
      requires tasks == []
      modifies this
      ensures Run(BOOT, Spawns(limits)).Some? && tasks == Run(BOOT, Spawns(limits)).value.tasks
    {
      ghost var s := BOOT;
      assert limits[..0] == [];
      for k := 0 to |limits|
        invariant Run(BOOT, Spawns(limits[..k])) == Some(s)
        invariant tasks == s.tasks && |s.servers| == |s.tasks|
      {
        var started := limits[k].Some?;
        SpawnsPush(limits, k, s);
        SpawnServer(started, |tasks|);
        s := if started then Next(s, Spawn(limits[k].value)).value else s;
      }
      assert limits[..|limits|] == limits;
    }

    /** `completing` is how many handles complete before the timeout. */
    method WaitForServers(completing: nat) returns (join: Join)
      modifies this
      ensures tasks == [] && join == JoinOutcome(old(tasks), completing)
      ensures Order(join) == Reversed(old(tasks))
    {
      var handles := tasks;
      tasks := [];
      var done: seq<nat> := [];
      while handles != []
        invariant tasks == []
        invariant done + Reversed(handles) == Reversed(old(tasks)) && |done| <= completing
        decreases |handles|
      {
        PopMoves(done, handles);
        var current := handles[|handles| - 1];
        handles := handles[..|handles| - 1];
        if |done| == completing {
          TimeoutOutcome(old(tasks), done, current, handles);
          var aborted := AbortRest(handles);
          return Joined(false, done, Some(current), aborted);
        }
        done := done + [current];
      }
      FullOutcome(old(tasks), done, completing);
      assert done + [] + [] == done == Reversed(old(tasks));
      return Joined(true, done, None, []);
    }
  }

  function Spawns(limits: seq<Option<nat>>): seq<Step>
    decreases |limits|
  {
    if limits == [] then []
    else
      var last := |limits| - 1;
      Spawns(limits[..last]) + if limits[last].Some? then [Spawn(limits[last].value)] else []
  }

  lemma SpawnsPush(limits: seq<Option<nat>>, k: nat, s: State)
    requires k < |limits| && Run(BOOT, Spawns(limits[..k])) == Some(s)
    ensures Run(BOOT, Spawns(limits[..k + 1])) ==
      Some(if limits[k].Some? then Next(s, Spawn(limits[k].value)).value else s)
  {
    var before := Spawns(limits[..k]);
    assert limits[..k + 1][..k] == limits[..k];
    if limits[k].Some? {
      var step := Spawn(limits[k].value);
      RunAppend(BOOT, before, [step]);
      assert [step][1..] == [];
    } else {
      assert before + [] == before;
    }
  }

  lemma PopOrder(rest: seq<nat>, done: seq<nat>)
    ensures Order(PopNext(rest, done)) == done + Reversed(rest)
  {
  }

  lemma StepKeepsOrder(s: State, step: Step)
    requires Next(s, step).Some? && !s.join.NotJoining?
    ensures Order(Next(s, step).value.join) == Order(s.join)
    ensures !Next(s, step).value.join.NotJoining?
  {
    if step.JoinCurrent? {
      PopOrder(s.join.rest, s.join.done + [s.join.current]);
    }
  }

  lemma {:induction false} RunKeepsOrder(s: State, steps: seq<Step>)
    requires Run(s, steps).Some? && !s.join.NotJoining?
    ensures Order(Run(s, steps).value.join) == Order(s.join) && !Run(s, steps).value.join.NotJoining?
    decreases |steps|
  {
    if steps == [] {
    } else {
      StepKeepsOrder(s, steps[0]);
      RunKeepsOrder(Next(s, steps[0]).value, steps[1..]);
    }
  }

  lemma {:induction false} ReversedHasNoRepeats(s: seq<nat>)
    requires Increasing(s)
    ensures forall i, j :: 0 <= i < j < |s| ==> Reversed(s)[i] != Reversed(s)[j]
  {
    if s == [] {
    } else {
      var short, last := s[..|s| - 1], s[|s| - 1];
      var r := Reversed(short);
      ReversedHasNoRepeats(short);
      ReversedHolds(short);
      assert Reversed(s) == [last] + r && last !in short;
      assert forall j :: 0 <= j < |r| ==> r[j] in r;
    }
  }

  /** From the moment the launcher starts to join: at any later point the handles it took are the pushed
      ones, newest first, each in exactly one place; when it reports success all of them completed, and
      otherwise one was left being awaited and the rest were aborted. */
  lemma {:induction false} JoinPartitionsHandles(s: State, steps: seq<Step>)
    requires Sound(s) && s.join.NotJoining? && Run(s, [StartJoin] + steps).Some?
    ensures
      var t := Run(s, [StartJoin] + steps).value;
      && Order(t.join) == Reversed(s.tasks)
      && (forall i, j :: 0 <= i < j < |Order(t.join)| ==> Order(t.join)[i] != Order(t.join)[j])
      && (t.join.Joined? && t.join.ok ==> t.join.done == Reversed(s.tasks))
      && (t.join.Joined? ==> (!t.join.ok <==> t.join.left.Some?))
      && (t.join.Joined? ==>
            forall h :: h in t.join.done + t.join.aborted ==> h < |t.servers| && Over(t.servers[h].phase))
  {
    assert ([StartJoin] + steps)[1..] == steps;
    var u := Next(s, StartJoin).value;
    PopOrder(s.tasks, []);
    RunKeepsOrder(u, steps);
    ReversedHasNoRepeats(s.tasks);
    RunKeeps(s, [StartJoin] + steps);
    var t := Run(s, [StartJoin] + steps).value;
    if t.join.Joined? && t.join.ok {
      assert t.join.done + [] + [] == t.join.done;
    }
  }

  // -------------------------------------- the launcher's loop and the step relation

  function Times(step: Step, k: nat): seq<Step> {
    if k == 0 then [] else [step] + Times(step, k - 1)
  }

  lemma {:induction false} RunAppend(s: State, xs: seq<Step>, ys: seq<Step>)
    requires Run(s, xs).Some?
    ensures Run(s, xs + ys) == Run(Run(s, xs).value, ys)
    decreases |xs|
  {
    if xs == [] {
      assert xs + ys == ys;
    } else {
      assert (xs + ys)[1..] == xs[1..] + ys;
      RunAppend(Next(s, xs[0]).value, xs[1..], ys);
    }
  }

  lemma {:induction false} ReversedTail(s: seq<nat>, c: nat)
    requires c <= |s|
    ensures Reversed(s)[c..] == Reversed(s[..|s| - c])
  {
    if c == 0 {
      assert s[..|s|] == s;
    } else {
      var short := s[..|s| - 1];
      ReversedTail(short, c - 1);
      assert short[..|short| - (c - 1)] == s[..|s| - c];
      assert Reversed(s)[c..] == Reversed(short)[c - 1..];
    }
  }

  /** Every handle refers to a server that is over. */
  ghost predicate AllOver(servers: seq<Server>, handles: seq<nat>) {
    forall i :: 0 <= i < |handles| ==> handles[i] < |servers| && Over(servers[handles[i]].phase)
  }

  lemma AwaitsOne(s: State, short: seq<nat>, current: nat, done: seq<nat>)
    requires s.join == PopNext(short + [current], done)
    requires current < |s.servers| && Over(s.servers[current].phase)
    ensures Next(s, JoinCurrent) == Some(s.(join := PopNext(short, done + [current])))
  {
    assert (short + [current])[..|short|] == short;
  }

  lemma ConsPrefix(x: nat, s: seq<nat>, k: nat)
    requires 0 < k <= |s| + 1
    ensures ([x] + s)[..k] == [x] + s[..k - 1]
  {
  }

  lemma ReversedPush(short: seq<nat>, current: nat)
    ensures Reversed(short + [current]) == [current] + Reversed(short)
  {
    assert (short + [current])[..|short|] == short;
  }

  lemma AllOverRest(servers: seq<Server>, current: nat, later: seq<nat>)
    requires AllOver(servers, [current] + later)
    ensures current < |servers| && Over(servers[current].phase) && AllOver(servers, later)
  {
    var all := [current] + later;
    assert all[0] == current;
    forall i | 0 <= i < |later|
      ensures later[i] < |servers| && Over(servers[later[i]].phase)
    {
      assert later[i] == all[i + 1];
    }
  }

  lemma {:induction false} Awaits(s: State, rest: seq<nat>, done: seq<nat>, k: nat)
    requires s.join == PopNext(rest, done) && k <= |rest| && AllOver(s.servers, Reversed(rest)[..k])
    ensures Run(s, Times(JoinCurrent, k)) == Some(s.(join := PopNext(rest[..|rest| - k], done + Reversed(rest)[..k])))
    decreases k
  {
    if k == 0 {
      assert rest[..|rest|] == rest && done + Reversed(rest)[..0] == done;
    } else {
      var short, current := rest[..|rest| - 1], rest[|rest| - 1];
      var later := Reversed(short)[..k - 1];
      assert rest == short + [current];
      ReversedPush(short, current);
      ConsPrefix(current, Reversed(short), k);
      AllOverRest(s.servers, current, later);
      AwaitsOne(s, short, current, done);
      Awaits(s.(join := PopNext(short, done + [current])), short, done + [current], k - 1);
      assert short[..|short| - (k - 1)] == rest[..|rest| - k];
      Assoc(done, [current], later);
      assert ([JoinCurrent] + Times(JoinCurrent, k - 1))[1..] == Times(JoinCurrent, k - 1);
    }
  }

  /** The steps of a join of which `completing` handles complete in time. */
  function JoinSteps(n: nat, completing: nat): seq<Step> {
    if n <= completing then [StartJoin] + Times(JoinCurrent, n)
    else [StartJoin] + Times(JoinCurrent, completing) + [JoinTimeout]
  }

  lemma AwaitsFromStart(s: State, k: nat)
    requires s.join.NotJoining? && k <= |s.tasks| && AllOver(s.servers, Reversed(s.tasks)[..k])
    ensures
      var join := PopNext(s.tasks[..|s.tasks| - k], Reversed(s.tasks)[..k]);
      Run(s, [StartJoin] + Times(JoinCurrent, k)) == Some(s.(tasks := [], join := join))
  {
    var u := s.(tasks := [], join := PopNext(s.tasks, []));
    assert [StartJoin][1..] == [] && Run(s, [StartJoin]) == Some(u);
    Awaits(u, s.tasks, [], k);
    RunAppend(s, [StartJoin], Times(JoinCurrent, k));
    assert [] + Reversed(s.tasks)[..k] == Reversed(s.tasks)[..k];
  }

  lemma TimesOut(s: State, rest: seq<nat>, done: seq<nat>)
    requires s.join == PopNext(rest, done) && rest != []
    ensures Run(s, [JoinTimeout]).Some?
    ensures Run(s, [JoinTimeout]).value.join == Joined(false, done, Some(Reversed(rest)[0]), Reversed(rest)[1..])
  {
    assert [JoinTimeout][1..] == [];
    var short := rest[..|rest| - 1];
    assert Reversed(rest) == [rest[|rest| - 1]] + Reversed(short);
  }

  /** The launcher's loop is a run of the step relation, whenever the servers it awaits to the end are over. */
  lemma {:induction false} OutcomeIsRun(s: State, completing: nat)
    requires s.join.NotJoining?
    requires AllOver(s.servers, Reversed(s.tasks)[..if |s.tasks| <= completing then |s.tasks| else completing])
    ensures Run(s, JoinSteps(|s.tasks|, completing)).Some?
    ensures Run(s, JoinSteps(|s.tasks|, completing)).value.join == JoinOutcome(s.tasks, completing)
  {
    var n, r := |s.tasks|, Reversed(s.tasks);
    if n <= completing {
      AwaitsFromStart(s, n);
      assert r[..n] == r && s.tasks[..0] == [];
    } else {
      AwaitsFromStart(s, completing);
      var started := [StartJoin] + Times(JoinCurrent, completing);
      RunAppend(s, started, [JoinTimeout]);
      ReversedTail(s.tasks, completing);
      TimesOut(Run(s, started).value, s.tasks[..n - completing], r[..completing]);
      assert r[completing..][0] == r[completing] && r[completing..][1..] == r[completing + 1..];
    }
  }

  /** And conversely: however a join runs among the other steps, its result is the loop's, with as many
      handles completing as were awaited to the end. */
  lemma {:induction false} RunIsOutcome(s: State, steps: seq<Step>)
    requires Sound(s) && s.join.NotJoining? && Run(s, [StartJoin] + steps).Some?
    requires Run(s, [StartJoin] + steps).value.join.Joined?
    ensures
      var join := Run(s, [StartJoin] + steps).value.join;
      join == JoinOutcome(s.tasks, |join.done|)
  {
    JoinPartitionsHandles(s, steps);
    RunKeeps(s, [StartJoin] + steps);
    var join := Run(s, [StartJoin] + steps).value.join;
    var r := Reversed(s.tasks);
    if join.left.Some? {
      assert r == join.done + [join.left.value] + join.aborted;
      assert r[..|join.done|] == join.done && r[|join.done| + 1..] == join.aborted;
    } else {
      assert join.ok && join.aborted == [];
    }
  }

  // ------------------------------------------------------- a shutdown can succeed

  predicate NoReceives(steps: seq<Step>) {
    forall i :: 0 <= i < |steps| ==> !steps[i].Receive? && !steps[i].DrainTimeout? && !steps[i].JoinTimeout?
  }

  lemma NoReceivesAppend(xs: seq<Step>, ys: seq<Step>)
    requires NoReceives(xs) && NoReceives(ys)
    ensures NoReceives(xs + ys)
  {
  }

  lemma {:induction false} NoReceivesTimes(step: Step, k: nat)
    requires NoReceives([step])
    ensures NoReceives(Times(step, k))
  {
    if k == 0 {
    } else {
      NoReceivesTimes(step, k - 1);
      NoReceivesAppend([step], Times(step, k - 1));
    }
  }

  /** The requests in flight finish one by one. */
  lemma {:induction false} FinishesAll(s: State, i: nat)
    requires i < |s.servers| && ServerOk(s.servers[i])
    ensures
      var v := s.servers[i];
      Run(s, Times(Finish(i), v.inFlight)) == Some(With(s, i, v.(available := v.max, inFlight := 0)))
    decreases s.servers[i].inFlight
  {
    var v := s.servers[i];
    if v.inFlight == 0 {
      assert v.(available := v.max, inFlight := 0) == v;
      assert s.servers[i := v] == s.servers;
    } else {
      var u := Next(s, Finish(i)).value;
      var rest := Times(Finish(i), v.inFlight - 1);
      FinishesAll(u, i);
      assert ([Finish(i)] + rest)[1..] == rest;
      var last := v.(available := v.max, inFlight := 0);
      assert u.servers[i := last] == s.servers[i := last];
    }
  }

  function Drained(v: Server): Server {
    if Over(v.phase) then v else Server(v.max, v.max, 0, Exited(false))
  }

  lemma LeavesLoop(s: State, i: nat) returns (steps: seq<Step>)
    requires s.signalled && i < |s.servers| && !Over(s.servers[i].phase)
    ensures NoReceives(steps) && Run(s, steps) == Some(With(s, i, s.servers[i].(phase := Draining)))
  {
    var v := s.servers[i];
    if v.phase.Accepting? {
      steps := [Leave(i)];
      assert [Leave(i)][1..] == [];
    } else {
      steps := [];
      assert v.(phase := Draining) == v && s.servers[i := v] == s.servers;
    }
  }

  lemma EndsDrain(s: State, i: nat)
    requires i < |s.servers| && s.servers[i].phase.Draining? && s.servers[i].available == s.servers[i].max
    ensures Run(s, [Poll(i)]) == Some(With(s, i, s.servers[i].(phase := Exited(false))))
  {
    assert [Poll(i)][1..] == [];
  }

  lemma WithTwice(s: State, i: nat, v: Server, w: Server)
    requires i < |s.servers|
    ensures With(With(s, i, v), i, w) == With(s, i, w) && With(s, i, v).servers[i] == v
  {
    assert s.servers[i := v][i := w] == s.servers[i := w];
  }

  /** A server that has left its loop finishes its requests and ends its drain in time. */
  lemma EmptiesAndEnds(s: State, i: nat) returns (steps: seq<Step>)
    requires i < |s.servers| && ServerOk(s.servers[i]) && s.servers[i].phase.Draining?
    ensures NoReceives(steps) && Run(s, steps) == Some(With(s, i, Drained(s.servers[i])))
  {
    var v := s.servers[i];
    var finish, empty := Times(Finish(i), v.inFlight), v.(available := v.max, inFlight := 0);
    FinishesAll(s, i);
    NoReceivesTimes(Finish(i), v.inFlight);
    WithTwice(s, i, empty, empty.(phase := Exited(false)));
    EndsDrain(With(s, i, empty), i);
    RunAppend(s, finish, [Poll(i)]);
    NoReceivesAppend(finish, [Poll(i)]);
    steps := finish + [Poll(i)];
  }

  /** After the signal a server can leave its loop, finish its requests and end its drain in time. */
  lemma {:induction false} DrainsOne(s: State, i: nat) returns (steps: seq<Step>)
    requires s.signalled && i < |s.servers| && ServerOk(s.servers[i])
    ensures NoReceives(steps) && Run(s, steps) == Some(With(s, i, Drained(s.servers[i])))
  {
    var v := s.servers[i];
    if Over(v.phase) {
      steps := [];
      assert s.servers[i := v] == s.servers;
    } else {
      var leave := LeavesLoop(s, i);
      var u := With(s, i, v.(phase := Draining));
      WithTwice(s, i, v.(phase := Draining), Drained(v));
      var rest := EmptiesAndEnds(u, i);
      RunAppend(s, leave, rest);
      NoReceivesAppend(leave, rest);
      steps := leave + rest;
    }
  }

  function AllDrained(servers: seq<Server>, n: nat): (r: seq<Server>)
    requires n <= |servers|
    ensures |r| == |servers|
    ensures forall i :: 0 <= i < |servers| ==> r[i] == if i < n then Drained(servers[i]) else servers[i]
  {
    seq(|servers|, i requires 0 <= i < |servers| => if i < n then Drained(servers[i]) else servers[i])
  }

  lemma {:induction false} DrainsFirst(s: State, n: nat) returns (steps: seq<Step>)
    requires s.signalled && Permits(s) && n <= |s.servers|
    ensures NoReceives(steps) && Run(s, steps) == Some(s.(servers := AllDrained(s.servers, n)))
    decreases n
  {
    if n == 0 {
      steps := [];
      assert AllDrained(s.servers, 0) == s.servers;
    } else {
      var before := DrainsFirst(s, n - 1);
      var u := s.(servers := AllDrained(s.servers, n - 1));
      assert u.servers[n - 1] == s.servers[n - 1];
      var one := DrainsOne(u, n - 1);
      RunAppend(s, before, one);
      NoReceivesAppend(before, one);
      steps := before + one;
      assert u.servers[n - 1 := Drained(s.servers[n - 1])] == AllDrained(s.servers, n);
    }
  }

  lemma {:induction false} ReversedIsKnown(handles: seq<nat>, n: nat)
    requires Known(handles, n)
    ensures forall i :: 0 <= i < |Reversed(handles)| ==> Reversed(handles)[i] < n
  {
    var r := Reversed(handles);
    ReversedHolds(handles);
    forall i | 0 <= i < |r|
      ensures r[i] < n
    {
      assert r[i] in r;
    }
  }

  /** From any sound state after the signal and before the join, without new requests and without any
      timeout, every server that was not over drains to the end and the join reports success. */
  lemma {:induction false} ShutdownCanSucceed(s: State) returns (steps: seq<Step>)
    requires Sound(s) && s.signalled && s.join.NotJoining?
    ensures NoReceives(steps) && Run(s, steps).Some?
    ensures
      var t := Run(s, steps).value;
      && t.join == Joined(true, Reversed(s.tasks), None, [])
      && |t.servers| == |s.servers|
      && forall i :: 0 <= i < |s.servers| ==> t.servers[i] == Drained(s.servers[i])
  {
    var n := |s.servers|;
    var drain := DrainsFirst(s, n);
    var u := Run(s, drain).value;
    assert forall i :: 0 <= i < n ==> Over(u.servers[i].phase);
    ReversedIsKnown(s.tasks, n);
    var r, k := Reversed(s.tasks), |s.tasks|;
    assert r[..k] == r;
    AwaitsFromStart(u, k);
    assert s.tasks[..0] == [];
    var join := [StartJoin] + Times(JoinCurrent, k);
    NoReceivesTimes(JoinCurrent, k);
    NoReceivesAppend([StartJoin], Times(JoinCurrent, k));
    RunAppend(s, drain, join);
    NoReceivesAppend(drain, join);
    steps := drain + join;
  }

  /** If the launcher reports success and no drain timed out, no launched server has a request in flight,
      and none appears whatever happens next. */
  lemma {:induction false} GracefulShutdown(s: State, steps: seq<Step>, later: seq<Step>)
    requires Sound(s) && s.join.NotJoining? && Run(s, [StartJoin] + steps).Some?
    requires
      var t := Run(s, [StartJoin] + steps).value;
      && t.join.Joined? && t.join.ok && Run(t, later).Some?
      && (forall h :: h in s.tasks && h < |t.servers| ==> t.servers[h].phase != Exited(true))
    ensures
      var end := Run(Run(s, [StartJoin] + steps).value, later).value;
      forall h :: h in s.tasks ==> h < |end.servers| && end.servers[h].inFlight == 0
  {
    var t := Run(s, [StartJoin] + steps).value;
    JoinPartitionsHandles(s, steps);
    RunKeeps(s, [StartJoin] + steps);
    ReversedHolds(s.tasks);
    forall h | h in s.tasks
      ensures h < |Run(t, later).value.servers| && Run(t, later).value.servers[h].inFlight == 0
    {
      assert h in t.join.done;
      assert h in t.join.done + t.join.aborted;
      DrainedStaysEmpty(t, h, later);
    }
  }
}
