/** The debounced file watcher (`spawn_file_watcher` in src/utils/mod.rs) as a state machine: one
    event loop and one spawned timer task per scheduled path share the locked map of pending paths.
    Every step below holds the lock, or touches no shared data. */
module FileWatcher {
  import opened Common

  type Path = string

  /** Milliseconds on the monotonic clock. */
  type Time = nat

  /** The pause before re-watching a removed file. */
  const REWATCH: nat := 50

  /** Where the event loop is. It handles one event at a time, so stopping is only possible when idle. */
  datatype Phase =
    | Idle
    | Stamped(path: Path, at: Time, removed: bool)
    | Recorded(path: Path, already: bool, resume: Time)
    | Stopped

  datatype Task = Task(path: Path, wakeAt: Time)

  datatype Note = Event(path: Path, at: Time, removed: bool) | Called(path: Path, at: Time)

  datatype State = State(
    now: Time, phase: Phase, pending: map<Path, Time>, tasks: map<nat, Task>, nextId: nat, history: seq<Note>)

  datatype Step =
    | Tick(to: Time)
    | Stamp(path: Path, removed: bool)
    | Record
    | Resume
    | Wake(id: nat)
    | Stop

  function Start(now: Time): State {
    State(now, Idle, map[], map[], 0, [])
  }

  /** The state after a step, if the step can happen; `d` is the debounce window. */
  function Next(d: nat, s: State, step: Step): Option<State> {
    match step
    case Tick(to) => if s.now <= to then Some(s.(now := to)) else None
    case Stamp(p, removed) => if s.phase.Idle? then Some(s.(phase := Stamped(p, s.now, removed))) else None
    case Record =>
      if s.phase.Stamped? then
        var p := s.phase.path;
        Some(s.(phase := Recorded(p, p in s.pending, if s.phase.removed then s.now + REWATCH else s.now),
                pending := s.pending[p := s.phase.at],
                history := s.history + [Event(p, s.phase.at, s.phase.removed)]))
      else None
    case Resume =>
      if s.phase.Recorded? && s.phase.resume <= s.now then
        if s.phase.already then Some(s.(phase := Idle))
        else Some(s.(phase := Idle, nextId := s.nextId + 1,
                     tasks := s.tasks[s.nextId := Task(s.phase.path, s.now + d)]))
      else None
    case Wake(id) => if id in s.tasks && s.tasks[id].wakeAt <= s.now then Some(WakeUp(d, s, id)) else None
    case Stop => if s.phase.Idle? then Some(s.(phase := Stopped)) else None
  }

  /** One turn of a timer task, all of it under the lock. */
  function WakeUp(d: nat, s: State, id: nat): State
    requires id in s.tasks
  {
    var p := s.tasks[id].path;
    if p !in s.pending then s.(tasks := s.tasks - {id})
    else if s.now >= s.pending[p] + d then
      s.(tasks := s.tasks - {id}, pending := s.pending - {p}, history := s.history + [Called(p, s.now)])
    else s.(tasks := s.tasks[id := Task(p, s.now + d)])
  }

  function Run(d: nat, s: State, steps: seq<Step>): Option<State>
    decreases |steps|
  {
    if steps == [] then Some(s)
    else match Next(d, s, steps[0])
      case None => None
      case Some(t) => Run(d, t, steps[1..])
  }

  // ---------------------------------------------------------------- history

  function LastEvent(h: seq<Note>, p: Path): (e: Option<Note>)
    ensures e.Some? ==> e.value.Event? && e.value.path == p
  {
    if h == [] then None
    else
      var n := h[|h| - 1];
      if n.Event? && n.path == p then Some(n) else LastEvent(h[..|h| - 1], p)
  }

  /** The last thing that happened to the path was an event: a callback is owed. */
  predicate Owed(h: seq<Note>, p: Path) {
    h != [] &&
    var n := h[|h| - 1];
    if n.path == p then n.Event? else Owed(h[..|h| - 1], p)
  }

  lemma NoteAdded(h: seq<Note>, n: Note, p: Path)
    ensures LastEvent(h + [n], p) == if n.Event? && n.path == p then Some(n) else LastEvent(h, p)
    ensures Owed(h + [n], p) == if n.path == p then n.Event? else Owed(h, p)
  {
    assert (h + [n])[..|h + [n]| - 1] == h;
  }

  // -------------------------------------------------------------- invariant

  /** Recorded but not yet scheduled: the loop has still to spawn the task. */
  predicate InGap(s: State, p: Path) {
    s.phase.Recorded? && !s.phase.already && s.phase.path == p
  }

  ghost predicate HasTask(s: State, p: Path) {
    exists id :: id in s.tasks && s.tasks[id].path == p
  }

  /** Exactly one task per pending path, none for other paths, and none in the gap. */
  ghost predicate OneTaskEach(s: State) {
    && (forall i, j :: i in s.tasks && j in s.tasks && s.tasks[i].path == s.tasks[j].path ==> i == j)
    && (forall p :: HasTask(s, p) <==> p in s.pending && !InGap(s, p))
  }

  /** The tasks, the pending map and the loop's place fit together. */
  ghost predicate Tidy(s: State) {
    && OneTaskEach(s)
    && (forall id :: id in s.tasks ==> id < s.nextId)
    && (s.phase.Recorded? && !s.phase.already ==> s.phase.path in s.pending)
    && (forall p :: p in s.pending ==> s.pending[p] <= s.now)
    && (s.phase.Stamped? ==> s.phase.at <= s.now)
  }

  ghost predicate Sound(d: nat, s: State) {
    Tidy(s) && Dated(s) && PendingIsOwed(s) && CallsAreQuiet(d, s.history)
  }

  /** A path's pending time is that of its latest event. */
  ghost predicate Dated(s: State) {
    forall p :: p in s.pending ==>
      LastEvent(s.history, p).Some? && LastEvent(s.history, p).value.at == s.pending[p]
  }

  ghost predicate PendingIsOwed(s: State) {
    forall p :: p in s.pending <==> Owed(s.history, p)
  }

  /** No callback runs within the window after the path's latest recorded event. */
  ghost predicate CallsAreQuiet(d: nat, h: seq<Note>) {
    forall j :: 0 <= j < |h| && h[j].Called? ==>
      LastEvent(h[..j], h[j].path).Some? && LastEvent(h[..j], h[j].path).value.at + d <= h[j].at
  }

  lemma QuietAdded(d: nat, h: seq<Note>, n: Note)
    requires CallsAreQuiet(d, h)
    requires n.Called? ==> LastEvent(h, n.path).Some? && LastEvent(h, n.path).value.at + d <= n.at
    ensures CallsAreQuiet(d, h + [n])
  {
    var h' := h + [n];
    forall j | 0 <= j < |h'| && h'[j].Called?
      ensures LastEvent(h'[..j], h'[j].path).Some? && LastEvent(h'[..j], h'[j].path).value.at + d <= h'[j].at
    {
      assert h'[..j] == h[..j];
      assert h[..|h|] == h;
    }
  }

  lemma {:induction false} RecordTidies(d: nat, s: State)
    requires Tidy(s) && s.phase.Stamped?
    ensures Tidy(Next(d, s, Record).value)
  {
    var t := Next(d, s, Record).value;
    assert forall p :: HasTask(t, p) <==> HasTask(s, p);
  }

  lemma {:induction false} RecordKeeps(d: nat, s: State)
    requires Sound(d, s) && s.phase.Stamped?
    ensures Sound(d, Next(d, s, Record).value)
  {
    var n := Event(s.phase.path, s.phase.at, s.phase.removed);
    RecordTidies(d, s);
    forall p { NoteAdded(s.history, n, p); }
    QuietAdded(d, s.history, n);
  }

  lemma {:induction false} ResumeKeeps(d: nat, s: State)
    requires Tidy(s) && s.phase.Recorded? && s.phase.resume <= s.now
    ensures Tidy(Next(d, s, Resume).value)
  {
    var t := Next(d, s, Resume).value;
    if s.phase.already {
      assert forall p :: HasTask(t, p) <==> HasTask(s, p);
    } else {
      var q := s.phase.path;
      assert !HasTask(s, q);
      assert t.tasks[s.nextId].path == q;
      forall p
        ensures HasTask(t, p) <==> HasTask(s, p) || p == q
      {
        if HasTask(s, p) {
          var id :| id in s.tasks && s.tasks[id].path == p;
          assert id in t.tasks && t.tasks[id].path == p;
        }
      }
    }
  }

  /** A task that calls back takes its path with it. */
  lemma {:induction false} CallTidies(d: nat, s: State, id: nat)
    requires Tidy(s) && id in s.tasks && s.tasks[id].path in s.pending && s.now >= s.pending[s.tasks[id].path] + d
    ensures Tidy(WakeUp(d, s, id))
  {
    var t := WakeUp(d, s, id);
    var q := s.tasks[id].path;
    forall p
      ensures HasTask(t, p) <==> HasTask(s, p) && p != q
    {
      if HasTask(s, p) && p != q {
        var i :| i in s.tasks && s.tasks[i].path == p;
        assert i in t.tasks;
      }
    }
  }

  lemma {:induction false} WaitTidies(d: nat, s: State, id: nat)
    requires Tidy(s) && id in s.tasks && s.tasks[id].path in s.pending && s.now < s.pending[s.tasks[id].path] + d
    ensures Tidy(WakeUp(d, s, id))
  {
    var t := WakeUp(d, s, id);
    assert forall i :: i in s.tasks ==> i in t.tasks && t.tasks[i].path == s.tasks[i].path;
    assert forall i :: i in t.tasks ==> i in s.tasks && t.tasks[i].path == s.tasks[i].path;
    assert forall p :: HasTask(t, p) <==> HasTask(s, p);
  }

  lemma {:induction false} WakeKeeps(d: nat, s: State, id: nat)
    requires Sound(d, s) && id in s.tasks && s.tasks[id].wakeAt <= s.now
    ensures Sound(d, WakeUp(d, s, id))
  {
    var q := s.tasks[id].path;
    assert HasTask(s, q);
    if s.now >= s.pending[q] + d {
      CallTidies(d, s, id);
      var n := Called(q, s.now);
      forall p { NoteAdded(s.history, n, p); }
      QuietAdded(d, s.history, n);
    } else {
      WaitTidies(d, s, id);
    }
  }

  lemma {:induction false} StepKeeps(d: nat, s: State, step: Step)
    requires Sound(d, s) && Next(d, s, step).Some?
    ensures Sound(d, Next(d, s, step).value)
  {
    var t := Next(d, s, step).value;
    match step
    case Record => RecordKeeps(d, s);
    case Resume => ResumeKeeps(d, s);
    case Wake(id) => WakeKeeps(d, s, id);
    case _ => assert forall p :: HasTask(t, p) <==> HasTask(s, p);
  }

  lemma StartIsSound(d: nat, now: Time)
    ensures Sound(d, Start(now))
  {
  }

  /** Every interleaving of events, wake-ups, clock ticks and a stop keeps the invariant. */
  lemma {:induction false} RunKeeps(d: nat, s: State, steps: seq<Step>)
    requires Sound(d, s) && Run(d, s, steps).Some?
    ensures Sound(d, Run(d, s, steps).value)
    decreases |steps|
  {
    if steps == [] {
    } else {
      StepKeeps(d, s, steps[0]);
      RunKeeps(d, Next(d, s, steps[0]).value, steps[1..]);
    }
  }

  /** What the invariant promises of any run from the start: no two tasks race for a path, no callback
      comes early, and a recorded event is either still pending or followed by a callback. */
  lemma {:induction false} EventsAreAnswered(d: nat, now: Time, steps: seq<Step>, i: nat)
    requires Run(d, Start(now), steps).Some?
    requires i < |Run(d, Start(now), steps).value.history| && Run(d, Start(now), steps).value.history[i].Event?
    ensures
      var s := Run(d, Start(now), steps).value;
      var p := s.history[i].path;
      && OneTaskEach(s) && CallsAreQuiet(d, s.history)
      && (p in s.pending || exists j :: i < j < |s.history| && s.history[j].Called? && s.history[j].path == p)
  {
    StartIsSound(d, now);
    RunKeeps(d, Start(now), steps);
    var s := Run(d, Start(now), steps).value;
    NotOwedMeansCalled(s.history, i);
  }

  lemma {:induction false} NotOwedMeansCalled(h: seq<Note>, i: nat)
    requires i < |h| && h[i].Event?
    ensures Owed(h, h[i].path) || exists j :: i < j < |h| && h[j].Called? && h[j].path == h[i].path
    decreases |h|
  {
    var last := |h| - 1;
    if h[last].path == h[i].path {
      if h[last].Called? { assert i < last; }
    } else {
      NotOwedMeansCalled(h[..last], i);
      if !Owed(h[..last], h[i].path) {
        var j :| i < j < last && h[..last][j].Called? && h[..last][j].path == h[i].path;
        assert h[j].Called? && h[j].path == h[i].path;
      }
    }
  }

  // ------------------------------------------------------ punctual wake-ups

  /** Timers and the loop run as soon as they are due. */
  ghost predicate Punctual(s: State, step: Step) {
    step.Tick? ==>
      && (forall id :: id in s.tasks ==> step.to <= s.tasks[id].wakeAt)
      && !s.phase.Stamped?
      && (s.phase.Recorded? ==> step.to <= s.phase.resume)
  }

  /** The pause that an event puts before the spawning of its task. */
  function Pause(removed: bool): nat {
    if removed then 50 else 0
  }

  /** Latest moment at which a callback may still be owed for an event. */
  predicate InTime(d: nat, e: Note, t: Time)
    requires e.Event?
  {
    t <= e.at + d + Pause(e.removed) || t < e.at + 2 * d
  }

  ghost predicate OnTime(d: nat, s: State) {
    && (forall id :: id in s.tasks ==> s.now <= s.tasks[id].wakeAt <= s.now + d)
    && TasksAreInTime(d, s)
    && (s.phase.Stamped? ==> s.phase.at == s.now)
    && (s.phase.Recorded? ==> s.now <= s.phase.resume)
    && GapIsShort(s)
    && CallsAreInTime(d, s.history)
  }

  ghost predicate TasksAreInTime(d: nat, s: State) {
    forall id :: id in s.tasks && LastEvent(s.history, s.tasks[id].path).Some? ==>
      InTime(d, LastEvent(s.history, s.tasks[id].path).value, s.tasks[id].wakeAt)
  }

  /** A path waits for its task no longer than its event pauses the loop. */
  ghost predicate GapIsShort(s: State) {
    forall p :: InGap(s, p) && LastEvent(s.history, p).Some? ==>
      s.phase.resume <= LastEvent(s.history, p).value.at + Pause(LastEvent(s.history, p).value.removed)
  }

  ghost predicate CallsAreInTime(d: nat, h: seq<Note>) {
    forall j :: 0 <= j < |h| && h[j].Called? ==>
      LastEvent(h[..j], h[j].path).Some? && InTime(d, LastEvent(h[..j], h[j].path).value, h[j].at)
  }

  lemma InTimeAdded(d: nat, h: seq<Note>, n: Note)
    requires CallsAreInTime(d, h)
    requires n.Called? ==> LastEvent(h, n.path).Some? && InTime(d, LastEvent(h, n.path).value, n.at)
    ensures CallsAreInTime(d, h + [n])
  {
    var h' := h + [n];
    forall j | 0 <= j < |h'| && h'[j].Called?
      ensures LastEvent(h'[..j], h'[j].path).Some? && InTime(d, LastEvent(h'[..j], h'[j].path).value, h'[j].at)
    {
      assert h'[..j] == h[..j];
      assert h[..|h|] == h;
    }
  }

  lemma {:induction false} PunctualRecordKeeps(d: nat, s: State)
    requires OnTime(d, s) && s.phase.Stamped?
    ensures OnTime(d, Next(d, s, Record).value)
  {
    var n := Event(s.phase.path, s.phase.at, s.phase.removed);
    InTimeAdded(d, s.history, n);
    forall p { NoteAdded(s.history, n, p); }
  }

  lemma {:induction false} PunctualCallKeeps(d: nat, s: State, id: nat)
    requires OnTime(d, s) && Dated(s) && id in s.tasks && s.tasks[id].wakeAt <= s.now
    requires s.tasks[id].path in s.pending && s.now >= s.pending[s.tasks[id].path] + d
    ensures OnTime(d, WakeUp(d, s, id))
  {
    var q := s.tasks[id].path;
    var n := Called(q, s.now);
    assert InTime(d, LastEvent(s.history, q).value, s.now);
    InTimeAdded(d, s.history, n);
    forall p { NoteAdded(s.history, n, p); }
  }

  lemma {:induction false} PunctualWaitKeeps(d: nat, s: State, id: nat)
    requires OnTime(d, s) && Dated(s) && id in s.tasks && s.tasks[id].wakeAt <= s.now
    requires s.tasks[id].path in s.pending && s.now < s.pending[s.tasks[id].path] + d
    ensures OnTime(d, WakeUp(d, s, id))
  {
    var q := s.tasks[id].path;
    assert InTime(d, LastEvent(s.history, q).value, s.now + d);
  }

  lemma {:induction false} PunctualWakeKeeps(d: nat, s: State, id: nat)
    requires Tidy(s) && Dated(s) && OnTime(d, s) && id in s.tasks && s.tasks[id].wakeAt <= s.now
    ensures OnTime(d, WakeUp(d, s, id))
  {
    var q := s.tasks[id].path;
    assert HasTask(s, q);
    if s.now >= s.pending[q] + d {
      PunctualCallKeeps(d, s, id);
    } else {
      PunctualWaitKeeps(d, s, id);
    }
  }

  lemma {:induction false} PunctualResumeKeeps(d: nat, s: State)
    requires Dated(s) && OnTime(d, s) && s.phase.Recorded? && s.phase.resume <= s.now
    requires !s.phase.already ==> s.phase.path in s.pending
    ensures OnTime(d, Next(d, s, Resume).value)
  {
    if !s.phase.already {
      assert InGap(s, s.phase.path);
      assert InTime(d, LastEvent(s.history, s.phase.path).value, s.now + d);
    }
  }

  lemma {:induction false} PunctualStepKeeps(d: nat, s: State, step: Step)
    requires Sound(d, s) && OnTime(d, s) && Punctual(s, step) && Next(d, s, step).Some?
    ensures OnTime(d, Next(d, s, step).value)
  {
    match step
    case Record => PunctualRecordKeeps(d, s);
    case Wake(id) => PunctualWakeKeeps(d, s, id);
    case Resume => PunctualResumeKeeps(d, s);
    case Tick(_) =>
    case Stamp(_, _) =>
    case Stop =>
  }

  ghost predicate PunctualRun(d: nat, s: State, steps: seq<Step>)
    decreases |steps|
  {
    steps == [] ||
    (Punctual(s, steps[0]) && Next(d, s, steps[0]).Some? && PunctualRun(d, Next(d, s, steps[0]).value, steps[1..]))
  }

  lemma {:induction false} PunctualRunKeeps(d: nat, s: State, steps: seq<Step>)
    requires Sound(d, s) && OnTime(d, s) && PunctualRun(d, s, steps)
    ensures Run(d, s, steps).Some?
    ensures Sound(d, Run(d, s, steps).value) && OnTime(d, Run(d, s, steps).value)
    decreases |steps|
  {
    if steps == [] {
    } else {
      StepKeeps(d, s, steps[0]);
      PunctualStepKeeps(d, s, steps[0]);
      PunctualRunKeeps(d, Next(d, s, steps[0]).value, steps[1..]);
    }
  }

  /** With punctual wake-ups every callback comes after its window and within the latency bound of the
      latest event, and once that bound has passed nothing is owed for the event any more. */
  lemma {:induction false} LatencyBound(d: nat, now: Time, steps: seq<Step>, p: Path)
    requires PunctualRun(d, Start(now), steps)
    ensures Run(d, Start(now), steps).Some?
    ensures
      var s := Run(d, Start(now), steps).value;
      && CallsAreQuiet(d, s.history) && CallsAreInTime(d, s.history)
      && (LastEvent(s.history, p).Some? && !InTime(d, LastEvent(s.history, p).value, s.now) ==> !Owed(s.history, p))
  {
    StartIsSound(d, now);
    PunctualRunKeeps(d, Start(now), steps);
    var s := Run(d, Start(now), steps).value;
    if p in s.pending && !InGap(s, p) {
      assert HasTask(s, p);
    }
  }

  // ------------------------------------------------ the clock is never blocked

  ghost function Due(s: State): set<nat> {
    set id | id in s.tasks && s.tasks[id].wakeAt <= s.now
  }

  ghost function DueWork(s: State): nat {
    |Due(s)| + (if s.phase.Stamped? then 3 else if s.phase.Recorded? && s.phase.resume <= s.now then 2 else 0)
  }

  lemma {:induction false} Smaller<T>(a: set<T>, b: set<T>)
    requires a <= b
    ensures |a| <= |b|
    decreases a
  {
    if a == {} {
    } else {
      var x :| x in a;
      Smaller(a - {x}, b - {x});
    }
  }

  ghost predicate TasksAreTracked(s: State) {
    forall id :: id in s.tasks ==> s.tasks[id].path in s.pending && s.pending[s.tasks[id].path] <= s.now
  }

  lemma {:induction false} TidyTasks(s: State)
    requires Tidy(s)
    ensures TasksAreTracked(s)
  {
    forall id | id in s.tasks
      ensures s.tasks[id].path in s.pending && s.pending[s.tasks[id].path] <= s.now
    {
      assert HasTask(s, s.tasks[id].path);
    }
  }

  lemma WakeLessDue(d: nat, s: State, id: nat)
    requires TasksAreTracked(s) && OnTime(d, s) && id in Due(s)
    ensures DueWork(WakeUp(d, s, id)) < DueWork(s)
  {
    var t := WakeUp(d, s, id);
    assert Due(t) <= Due(s) - {id};
    Smaller(Due(t), Due(s) - {id});
  }

  lemma ResumeLessDue(d: nat, s: State)
    requires s.phase.Recorded? && s.phase.resume <= s.now
    ensures DueWork(Next(d, s, Resume).value) < DueWork(s)
  {
    var t := Next(d, s, Resume).value;
    assert Due(t) <= Due(s) + {s.nextId};
    Smaller(Due(t), Due(s) + {s.nextId});
  }

  /** In a punctual run there is always a step to take: either the clock can advance, or one of finitely
      many due steps can run and leaves less due work behind. */
  lemma {:induction false} NeverStuck(d: nat, s: State) returns (step: Step)
    requires TasksAreTracked(s) && OnTime(d, s)
    ensures Next(d, s, step).Some? && Punctual(s, step)
    ensures step == Tick(s.now + 1) || DueWork(Next(d, s, step).value) < DueWork(s)
  {
    if s.phase.Stamped? {
      step := Record;
      assert Due(Next(d, s, Record).value) == Due(s);
    } else if s.phase.Recorded? && s.phase.resume <= s.now {
      step := Resume;
      ResumeLessDue(d, s);
    } else if exists id :: id in Due(s) {
      var id :| id in Due(s);
      step := Wake(id);
      WakeLessDue(d, s, id);
    } else {
      step := Tick(s.now + 1);
      forall id | id in s.tasks
        ensures s.now + 1 <= s.tasks[id].wakeAt
      {
        assert id !in Due(s);
      }
    }
  }

  // ------------------------------------------------------------- after a stop

  /** Tasks that will find their path not yet quiet and go round once more. */
  ghost function Early(d: nat, s: State): set<nat> {
    set id | id in s.tasks && s.tasks[id].path in s.pending && s.tasks[id].wakeAt < s.pending[s.tasks[id].path] + d
  }

  ghost function Remaining(d: nat, s: State): nat {
    |s.tasks.Keys| + |Early(d, s)|
  }

  lemma {:induction false} WakeDecreases(d: nat, s: State, id: nat)
    requires TasksAreTracked(s) && id in s.tasks && s.tasks[id].wakeAt <= s.now
    ensures Remaining(d, WakeUp(d, s, id)) < Remaining(d, s) && WakeUp(d, s, id).phase == s.phase
  {
    var t := WakeUp(d, s, id);
    var q := s.tasks[id].path;
    if s.now >= s.pending[q] + d {
      assert t.tasks.Keys == s.tasks.Keys - {id};
      assert Early(d, t) <= Early(d, s);
      Smaller(Early(d, t), Early(d, s));
    } else {
      assert t.tasks.Keys == s.tasks.Keys;
      assert id in Early(d, s) && Early(d, t) <= Early(d, s) - {id};
      Smaller(Early(d, t), Early(d, s) - {id});
    }
  }

  function Wakes(steps: seq<Step>): nat {
    if steps == [] then 0 else (if steps[0].Wake? then 1 else 0) + Wakes(steps[1..])
  }

  function PathsOf(added: seq<Note>): set<Path> {
    if added == [] then {} else {added[0].path} + PathsOf(added[1..])
  }

  /** Callbacks only, no two of them for one path. */
  predicate OneCallEach(added: seq<Note>) {
    added == [] || (added[0].Called? && added[0].path !in PathsOf(added[1..]) && OneCallEach(added[1..]))
  }

  /** What a run after the stop may do between two states. */
  ghost predicate Winding(s: State, t: State, added: seq<Note>) {
    && t.phase.Stopped? && t.history == s.history + added && OneCallEach(added)
    && t.pending.Keys <= s.pending.Keys && PathsOf(added) == s.pending.Keys - t.pending.Keys
  }

  lemma CallWinds(s: State, u: State, q: Path, t: State, later: seq<Note>)
    requires q in s.pending && u.pending.Keys == s.pending.Keys - {q}
    requires u.history == s.history + [Called(q, s.now)]
    requires Winding(u, t, later)
    ensures Winding(s, t, [Called(q, s.now)] + later)
  {
    var n := Called(q, s.now);
    assert u.history + later == s.history + ([n] + later);
    assert ([n] + later)[1..] == later;
  }

  lemma WakeWinds(d: nat, s: State, id: nat, t: State, later: seq<Note>) returns (added: seq<Note>)
    requires id in s.tasks && s.tasks[id].path in s.pending
    requires Winding(WakeUp(d, s, id), t, later)
    ensures Winding(s, t, added)
  {
    var q := s.tasks[id].path;
    if s.now >= s.pending[q] + d {
      CallWinds(s, WakeUp(d, s, id), q, t, later);
      added := [Called(q, s.now)] + later;
    } else {
      added := later;
    }
  }

  /** After the loop has stopped, the surviving tasks make exactly one callback for each path that leaves
      the pending map, and record nothing new. */
  lemma {:induction false} AfterStop(d: nat, s: State, steps: seq<Step>) returns (added: seq<Note>)
    requires Sound(d, s) && s.phase.Stopped? && Run(d, s, steps).Some?
    ensures Winding(s, Run(d, s, steps).value, added)
    decreases |steps|
  {
    if steps == [] {
      added := [];
      assert s.history + [] == s.history;
    } else {
      StepKeeps(d, s, steps[0]);
      added := AfterStop(d, Next(d, s, steps[0]).value, steps[1..]);
      if steps[0].Wake? {
        TidyTasks(s);
        added := WakeWinds(d, s, steps[0].id, Run(d, s, steps).value, added);
      }
    }
  }

  lemma {:induction false} StoppedStepDecreases(d: nat, s: State, step: Step)
    requires TasksAreTracked(s) && s.phase.Stopped? && Next(d, s, step).Some?
    ensures
      var t := Next(d, s, step).value;
      t.phase.Stopped? && Remaining(d, t) + (if step.Wake? then 1 else 0) <= Remaining(d, s)
  {
    if step.Wake? {
      WakeDecreases(d, s, step.id);
    } else {
      assert Early(d, Next(d, s, step).value) == Early(d, s);
    }
  }

  /** Every wake-up after the stop uses up some of a finite amount of work. */
  lemma {:induction false} WakesAreBounded(d: nat, s: State, steps: seq<Step>)
    requires Sound(d, s) && s.phase.Stopped? && Run(d, s, steps).Some?
    ensures Wakes(steps) + Remaining(d, Run(d, s, steps).value) <= Remaining(d, s)
    decreases |steps|
  {
    if steps == [] {
    } else {
      TidyTasks(s);
      StoppedStepDecreases(d, s, steps[0]);
      StepKeeps(d, s, steps[0]);
      WakesAreBounded(d, Next(d, s, steps[0]).value, steps[1..]);
    }
  }

  lemma {:induction false} DistinctCount(added: seq<Note>)
    requires OneCallEach(added)
    ensures |PathsOf(added)| == |added|
  {
    if added == [] {
    } else {
      DistinctCount(added[1..]);
    }
  }

  /** The callbacks left at a stop are at most the paths pending then, and the tasks finish after at most
      two wake-ups for each of those paths. */
  lemma {:induction false} StopIsBounded(d: nat, s: State, steps: seq<Step>)
    requires Sound(d, s) && s.phase.Stopped? && Run(d, s, steps).Some?
    ensures
      var t := Run(d, s, steps).value;
      && |t.history| - |s.history| == |s.pending| - |t.pending|
      && Wakes(steps) <= 2 * |s.pending|
  {
    var t := Run(d, s, steps).value;
    var added := AfterStop(d, s, steps);
    WakesAreBounded(d, s, steps);
    DistinctCount(added);
    assert |s.pending.Keys - t.pending.Keys| == |s.pending.Keys| - |t.pending.Keys|;
    TasksAreFew(s, s.tasks.Keys, s.pending.Keys);
    Smaller(Early(d, s), s.tasks.Keys);
  }

  lemma {:induction false} TasksAreFew(s: State, ids: set<nat>, paths: set<Path>)
    requires ids <= s.tasks.Keys
    requires forall id :: id in ids ==> s.tasks[id].path in paths
    requires forall i, j :: i in ids && j in ids && s.tasks[i].path == s.tasks[j].path ==> i == j
    ensures |ids| <= |paths|
    decreases ids
  {
    if ids == {} {
    } else {
      var id :| id in ids;
      TasksAreFew(s, ids - {id}, paths - {s.tasks[id].path});
    }
  }

  // ------------------------------------------------ every event gets its callback

  /** Work left if no further event comes: the loop's own steps and the wake-ups. */
  ghost function Work(d: nat, s: State): nat {
    Remaining(d, s) + (if s.phase.Stamped? then 4 else if s.phase.Recorded? then 2 else 0)
  }

  ghost predicate SomethingDue(s: State) {
    || s.phase.Stamped?
    || (s.phase.Recorded? && s.phase.resume <= s.now)
    || exists id :: id in s.tasks && s.tasks[id].wakeAt <= s.now
  }

  ghost predicate Lessens(d: nat, s: State, step: Step)
    requires Next(d, s, step).Some?
  {
    Work(d, Next(d, s, step).value) < Work(d, s)
  }

  lemma {:induction false} RecordWorks(d: nat, s: State)
    requires Tidy(s) && s.phase.Stamped?
    ensures Lessens(d, s, Record)
  {
    var t := Next(d, s, Record).value;
    if HasTask(s, s.phase.path) {
      var id :| id in s.tasks && s.tasks[id].path == s.phase.path;
      assert Early(d, t) <= Early(d, s) + {id};
      Smaller(Early(d, t), Early(d, s) + {id});
    } else {
      forall id | id in s.tasks
        ensures s.tasks[id].path != s.phase.path
      {
        assert HasTask(s, s.tasks[id].path);
      }
      assert Early(d, t) <= Early(d, s);
      Smaller(Early(d, t), Early(d, s));
    }
  }

  /** A task spawned now wakes after its path's window, so it is not early. */
  lemma {:induction false} SpawnIsNotEarly(d: nat, s: State, t: State, task: Task)
    requires t.tasks == s.tasks[s.nextId := task] && t.pending == s.pending && s.nextId !in s.tasks
    requires task.path in s.pending ==> s.pending[task.path] + d <= task.wakeAt
    ensures Remaining(d, t) <= Remaining(d, s) + 1
  {
    forall id | id in Early(d, t)
      ensures id in Early(d, s)
    {
      assert id != s.nextId;
    }
    Smaller(Early(d, t), Early(d, s));
    assert t.tasks.Keys == s.tasks.Keys + {s.nextId};
  }

  lemma SameRemains(d: nat, s: State, t: State)
    requires t.tasks == s.tasks && t.pending == s.pending
    ensures Remaining(d, t) == Remaining(d, s)
  {
    assert Early(d, t) == Early(d, s);
  }

  lemma {:induction false} ResumeWorks(d: nat, s: State)
    requires s.phase.Recorded? && s.phase.resume <= s.now
    requires s.phase.path in s.pending ==> s.pending[s.phase.path] <= s.now
    requires s.nextId !in s.tasks
    ensures Lessens(d, s, Resume)
  {
    var t := Next(d, s, Resume).value;
    if s.phase.already {
      SameRemains(d, s, t);
    } else {
      SpawnIsNotEarly(d, s, t, Task(s.phase.path, s.now + d));
    }
  }

  /** Something due can be done at once, is no new event, and leaves less work. */
  lemma {:induction false} DueStep(d: nat, s: State) returns (step: Step)
    requires Tidy(s) && SomethingDue(s)
    ensures !step.Stamp? && !step.Tick? && Next(d, s, step).Some? && Lessens(d, s, step)
  {
    if s.phase.Stamped? {
      step := Record;
      RecordWorks(d, s);
    } else if s.phase.Recorded? && s.phase.resume <= s.now {
      step := Resume;
      ResumeWorks(d, s);
    } else {
      var id :| id in s.tasks && s.tasks[id].wakeAt <= s.now;
      step := Wake(id);
      TidyTasks(s);
      WakeWorks(d, s, id);
    }
  }

  lemma {:induction false} LessRemains(d: nat, s: State, t: State, step: Step)
    requires Next(d, s, step) == Some(t) && t.phase == s.phase && Remaining(d, t) < Remaining(d, s)
    ensures Lessens(d, s, step)
  {
  }

  lemma {:induction false} WakeWorks(d: nat, s: State, id: nat)
    requires TasksAreTracked(s) && id in s.tasks && s.tasks[id].wakeAt <= s.now
    ensures Next(d, s, Wake(id)).Some? && Lessens(d, s, Wake(id))
  {
    WakeDecreases(d, s, id);
    LessRemains(d, s, WakeUp(d, s, id), Wake(id));
  }

  lemma HistoryGrows(d: nat, s: State, step: Step)
    requires Next(d, s, step).Some?
    ensures s.history <= Next(d, s, step).value.history
  {
  }

  lemma {:induction false} EarliestWake(s: State, ids: set<nat>) returns (first: nat)
    requires ids != {} && ids <= s.tasks.Keys
    ensures first in ids && forall id :: id in ids ==> s.tasks[first].wakeAt <= s.tasks[id].wakeAt
    decreases ids
  {
    first :| first in ids;
    if ids != {first} {
      assert ids - {first} != {};
      var other := EarliestWake(s, ids - {first});
      if s.tasks[other].wakeAt < s.tasks[first].wakeAt { first := other; }
    }
  }

  /** While a path is pending the clock can go on, punctually, to a moment where something is due. */
  lemma {:induction false} TickToDue(d: nat, s: State) returns (to: Time)
    requires Sound(d, s) && OnTime(d, s) && s.pending != map[] && !SomethingDue(s)
    ensures Next(d, s, Tick(to)).Some? && Punctual(s, Tick(to)) && SomethingDue(Next(d, s, Tick(to)).value)
    ensures Work(d, Next(d, s, Tick(to)).value) == Work(d, s)
  {
    if s.tasks.Keys == {} {
      var p :| p in s.pending;
      assert !HasTask(s, p);
      to := s.phase.resume;
    } else {
      var id := EarliestWake(s, s.tasks.Keys);
      to := s.tasks[id].wakeAt;
      if s.phase.Recorded? && s.phase.resume < to { to := s.phase.resume; }
    }
    var t := Next(d, s, Tick(to)).value;
    assert Early(d, t) == Early(d, s);
  }

  predicate NoNewEvents(steps: seq<Step>) {
    forall i :: 0 <= i < |steps| ==> !steps[i].Stamp?
  }

  lemma PunctualCons(d: nat, s: State, step: Step, steps: seq<Step>)
    requires Next(d, s, step).Some? && Punctual(s, step) && PunctualRun(d, Next(d, s, step).value, steps)
    ensures PunctualRun(d, s, [step] + steps)
    ensures Run(d, s, [step] + steps) == Run(d, Next(d, s, step).value, steps)
  {
    assert ([step] + steps)[1..] == steps;
  }

  /** From any state of a punctual run, the pending map empties without waiting for further events. */
  lemma {:induction false} Drains(d: nat, s: State) returns (steps: seq<Step>)
    requires Sound(d, s) && OnTime(d, s)
    ensures NoNewEvents(steps) && PunctualRun(d, s, steps) && Run(d, s, steps).Some?
    ensures Run(d, s, steps).value.pending == map[] && s.history <= Run(d, s, steps).value.history
    decreases Work(d, s), if SomethingDue(s) then 0 else 1
  {
    if s.pending == map[] {
      steps := [];
    } else {
      var step;
      if SomethingDue(s) {
        step := DueStep(d, s);
      } else {
        var to := TickToDue(d, s);
        step := Tick(to);
      }
      StepKeeps(d, s, step);
      PunctualStepKeeps(d, s, step);
      HistoryGrows(d, s, step);
      var t := Next(d, s, step).value;
      var rest := Drains(d, t);
      PunctualCons(d, s, step, rest);
      steps := [step] + rest;
    }
  }

  /** Every event recorded in a punctual run gets its callback: the run can always be continued without
      new events until a callback for the event's path follows it, and the latency bound holds for that
      callback as well. */
  lemma {:induction false} EveryEventIsCalled(d: nat, now: Time, steps: seq<Step>, i: nat) returns (more: seq<Step>)
    requires PunctualRun(d, Start(now), steps) && Run(d, Start(now), steps).Some?
    requires
      var s := Run(d, Start(now), steps).value;
      i < |s.history| && s.history[i].Event?
    ensures
      var s := Run(d, Start(now), steps).value;
      && NoNewEvents(more) && PunctualRun(d, s, more) && Run(d, s, more).Some?
      && var h := Run(d, s, more).value.history;
         && s.history <= h && CallsAreQuiet(d, h) && CallsAreInTime(d, h)
         && exists j :: i < j < |h| && h[j].Called? && h[j].path == s.history[i].path
  {
    StartIsSound(d, now);
    PunctualRunKeeps(d, Start(now), steps);
    var s := Run(d, Start(now), steps).value;
    more := Drains(d, s);
    PunctualRunKeeps(d, s, more);
    var t := Run(d, s, more).value;
    NotOwedMeansCalled(t.history, i);
  }

  // ------------------------------------------------ the history is what happened

  /** The events that a run brings, told from its steps alone: each with the clock at its arrival. */
  function Arrivals(now: Time, steps: seq<Step>): seq<Note>
    decreases |steps|
  {
    if steps == [] then []
    else match steps[0]
      case Tick(to) => Arrivals(to, steps[1..])
      case Stamp(p, removed) => [Event(p, now, removed)] + Arrivals(now, steps[1..])
      case _ => Arrivals(now, steps[1..])
  }

  function ClockAfter(now: Time, steps: seq<Step>): Time
    decreases |steps|
  {
    if steps == [] then now
    else ClockAfter(if steps[0].Tick? then steps[0].to else now, steps[1..])
  }

  function EventsOf(h: seq<Note>): seq<Note> {
    if h == [] then []
    else EventsOf(h[..|h| - 1]) + if h[|h| - 1].Event? then [h[|h| - 1]] else []
  }

  /** The event that the loop has taken but not yet recorded. */
  function InHand(s: State): seq<Note> {
    if s.phase.Stamped? then [Event(s.phase.path, s.phase.at, s.phase.removed)] else []
  }

  /** All events taken so far. */
  function Taken(s: State): seq<Note> {
    EventsOf(s.history) + InHand(s)
  }

  lemma EventsPush(h: seq<Note>, n: Note)
    ensures EventsOf(h + [n]) == EventsOf(h) + if n.Event? then [n] else []
  {
    assert (h + [n])[..|h|] == h;
  }

  lemma {:induction false} StepTakes(d: nat, s: State, step: Step)
    requires Next(d, s, step).Some?
    ensures
      var t := Next(d, s, step).value;
      && Taken(t) == Taken(s) + (if step.Stamp? then [Event(step.path, s.now, step.removed)] else [])
      && t.now == (if step.Tick? then step.to else s.now)
  {
    match step
    case Record =>
      EventsPush(s.history, Event(s.phase.path, s.phase.at, s.phase.removed));
    case Wake(id) =>
      EventsPush(s.history, Called(s.tasks[id].path, s.now));
    case _ =>
  }

  /** In every run the recorded events are exactly the events that arrived, in order, each with its path,
      its kind and its arrival time; only the last one may still be in the loop's hand. */
  lemma {:induction false} EventsAreArrivals(d: nat, s: State, steps: seq<Step>)
    requires Run(d, s, steps).Some?
    ensures
      var t := Run(d, s, steps).value;
      Taken(t) == Taken(s) + Arrivals(s.now, steps) && t.now == ClockAfter(s.now, steps)
    decreases |steps|
  {
    if steps == [] {
      assert Taken(s) + [] == Taken(s);
    } else {
      var u := Next(d, s, steps[0]).value;
      var first := if steps[0].Stamp? then [Event(steps[0].path, s.now, steps[0].removed)] else [];
      StepTakes(d, s, steps[0]);
      EventsAreArrivals(d, u, steps[1..]);
      Assoc(Taken(s), first, Arrivals(u.now, steps[1..]));
      assert first + Arrivals(u.now, steps[1..]) == Arrivals(s.now, steps);
    }
  }

  /** From the start nothing is in the history but what arrived. */
  lemma {:induction false} HistoryIsArrivals(d: nat, now: Time, steps: seq<Step>)
    requires Run(d, Start(now), steps).Some?
    ensures
      var t := Run(d, Start(now), steps).value;
      EventsOf(t.history) + InHand(t) == Arrivals(now, steps)
  {
    EventsAreArrivals(d, Start(now), steps);
    assert [] + [] + Arrivals(now, steps) == Arrivals(now, steps);
  }

  /** An idle loop takes any event, also one for a path already pending, and its window starts anew. */
  lemma {:induction false} ArrivalIsRecorded(d: nat, s: State, p: Path, removed: bool)
    requires s.phase.Idle?
    ensures Run(d, s, [Stamp(p, removed), Record]).Some?
    ensures
      var t := Run(d, s, [Stamp(p, removed), Record]).value;
      && t.history == s.history + [Event(p, s.now, removed)] && t.pending == s.pending[p := s.now]
      && t.tasks == s.tasks && t.now == s.now
  {
    assert [Stamp(p, removed), Record][1..] == [Record] && [Record][1..] == [];
    var u := s.(phase := Stamped(p, s.now, removed));
    assert Next(d, s, Stamp(p, removed)) == Some(u);
    assert Run(d, u, [Record]) == Run(d, Next(d, u, Record).value, []);
  }

  /** Only a removal holds the loop up, for 50 ms, before it goes on. */
  lemma RemovalPauses(d: nat, s: State, wait: nat)
    requires s.phase.Stamped?
    ensures
      var t := Next(d, s, Record).value;
      Next(d, t.(now := s.now + wait), Resume).Some? <==> wait >= if s.phase.removed then 50 else 0
  {
  }

  /** A stopped loop takes no event in any continuation. */
  lemma {:induction false} StopTakesNothing(d: nat, s: State, steps: seq<Step>)
    requires s.phase.Stopped? && Run(d, s, steps).Some?
    ensures Run(d, s, steps).value.phase.Stopped? && NoNewEvents(steps)
    decreases |steps|
  {
    if steps == [] {
    } else {
      var rest := steps[1..];
      StopTakesNothing(d, Next(d, s, steps[0]).value, rest);
      assert forall i :: 0 < i < |steps| ==> steps[i] == rest[i - 1];
    }
  }

  lemma IdleCanStop(d: nat, s: State)
    requires s.phase.Idle?
    ensures Next(d, s, Stop) == Some(s.(phase := Stopped))
  {
  }
}
