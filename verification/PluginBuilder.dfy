/** The plugin builder (src/plugin/builder.rs): every configured plugin is built once, sequences only
    as empty placeholders, and then each sequence is rebuilt with its steps resolved against the
    registry. Objects are numbered in creation order; a step is an edge between objects. */
module PluginBuilder {
  import opened Common

  type Name = string
  type Id = nat

  // ------------------------------------------------------------ configuration

  /** The text after `exec:`: an exec-plugin prefix, a `$name` reference, or neither. */
  datatype Action = Inline(created: bool) | Ref(name: Name) | UnknownAction

  /** One entry of a sequence's list. For a `matches` entry: did the condition parse, and is there an `exec`? */
  datatype StepSpec = Exec(action: Action) | Guarded(conditionOk: bool, guarded: Option<Action>) | Malformed

  /** `None` stands for an entry that is not a string. */
  datatype Args = StepList(steps: seq<StepSpec>) | NameList(names: seq<Option<Name>>) | Unsupported

  datatype Kind = SequenceOf(args: Args) | Registered(created: bool) | Server | UnknownKind

  datatype PluginConfig = PluginConfig(name: Name, kind: Kind)

  // ------------------------------------------------------------------ objects

  /** `from` is the reference a step was parsed from; it only serves to state where the step leads. */
  datatype Step = Step(target: Id, from: Option<Name>)

  datatype Object = Plain | Sequence(steps: seq<Step>)

  datatype World = World(plugins: map<Name, Id>, objects: seq<Object>)

  datatype BuildError = UnknownType | FactoryFailed | BadSteps | UnknownPlugin(child: Name)

  /** What pass 1 leaves behind. The program only logs an error and goes on with the world reached. */
  datatype Pass = Pass(world: World, error: Option<BuildError>)

  function Create(w: World, o: Object): World {
    w.(objects := w.objects + [o])
  }

  function Register(w: World, name: Name, o: Object): World {
    World(w.plugins[name := |w.objects|], w.objects + [o])
  }

  function Build(w: World, c: PluginConfig): Result<World, BuildError> {
    match c.kind
    case Registered(created) => if created then Ok(Register(w, c.name, Plain)) else Err(FactoryFailed)
    case SequenceOf(_) => Ok(Register(w, c.name, Sequence([])))
    case Server => Ok(Register(w, c.name, Plain))
    case UnknownKind => Err(UnknownType)
  }

  /** A plugin that fails to build is logged and skipped. */
  function BuildAll(w: World, cs: seq<PluginConfig>): (r: World)
    ensures Grounded(w) ==> Grounded(r)
    decreases |cs|
  {
    if cs == [] then w
    else match Build(w, cs[0])
      case Ok(w') => BuildAll(w', cs[1..])
      case Err(_) => BuildAll(w, cs[1..])
  }

  function ActionOf(spec: StepSpec): Option<Action> {
    match spec
    case Exec(a) => Some(a)
    case Guarded(ok, a) => if ok then a else None
    case Malformed => None
  }

  /** Steps of a list: an action that cannot be resolved is skipped, a malformed entry fails the build. */
  function ParseSteps(w: World, specs: seq<StepSpec>): (World, Result<seq<Step>, BuildError>)
    decreases |specs|
  {
    if specs == [] then (w, Ok([]))
    else
      match ActionOf(specs[0])
      case None => (w, Err(BadSteps))
      case Some(action) =>
        var (w', first) := ParseAction(w, action);
        var (end, rest) := ParseSteps(w', specs[1..]);
        (end, Prepend(first, rest))
  }

  function Prepend(steps: seq<Step>, r: Result<seq<Step>, BuildError>): Result<seq<Step>, BuildError> {
    match r
    case Ok(rest) => Ok(steps + rest)
    case Err(e) => Err(e)
  }

  function ParseAction(w: World, a: Action): (World, seq<Step>) {
    match a
    case Inline(created) => if created then (Create(w, Plain), [Step(|w.objects|, None)]) else (w, [])
    case Ref(n) => (w, if n in w.plugins then [Step(w.plugins[n], Some(n))] else [])
    case UnknownAction => (w, [])
  }

  /** The simple format: every name must be known. */
  function ParseNames(w: World, names: seq<Option<Name>>): Result<seq<Step>, BuildError>
    decreases |names|
  {
    if names == [] then Ok([])
    else if names[0].None? then Err(BadSteps)
    else if names[0].value !in w.plugins then Err(UnknownPlugin(names[0].value))
    else match ParseNames(w, names[1..])
      case Ok(rest) => Ok([Step(w.plugins[names[0].value], names[0])] + rest)
      case Err(e) => Err(e)
  }

  /** Pass 1 for one configuration: a sequence gets a new object; anything else is left alone. */
  function Rebuild(w: World, c: PluginConfig): Pass {
    if !c.kind.SequenceOf? then Pass(w, None)
    else match c.kind.args
      case StepList(specs) =>
        (match ParseSteps(w, specs)
         case (w', Ok(steps)) => Pass(Register(w', c.name, Sequence(steps)), None)
         case (w', Err(e)) => Pass(w', Some(e)))
      case NameList(names) =>
        (match ParseNames(w, names)
         case Ok(steps) => Pass(Register(w, c.name, Sequence(steps)), None)
         case Err(e) => Pass(w, Some(e)))
      case Unsupported => Pass(w, Some(BadSteps))
  }

  /** The first error ends the pass. */
  function RebuildAll(w: World, cs: seq<PluginConfig>): Pass
    decreases |cs|
  {
    if cs == [] then Pass(w, None)
    else
      var p := Rebuild(w, cs[0]);
      if p.error.Some? then p else RebuildAll(p.world, cs[1..])
  }

  /** How many configurations pass 1 gets through before an error, or all of them. */
  function Completed(w: World, cs: seq<PluginConfig>): (n: nat)
    ensures n <= |cs|
    ensures n == |cs| <==> RebuildAll(w, cs).error.None?
    decreases |cs|
  {
    if cs == [] || Rebuild(w, cs[0]).error.Some? then 0 else 1 + Completed(Rebuild(w, cs[0]).world, cs[1..])
  }

  // ------------------------------------------------------------ the builder

  class Builder {
    var plugins: map<Name, Id>
    var objects: seq<Object>

    constructor ()
      ensures View() == World(map[], [])
    {
      plugins, objects := map[], [];
    }

    ghost function View(): World
      reads this
    {
      World(plugins, objects)
    }

    method Add(name: Name, o: Object)
      modifies this
      ensures View() == Register(old(View()), name, o)
    {
      plugins := plugins[name := |objects|];
      objects := objects + [o];
    }

    method BuildPlugin(c: PluginConfig) returns (r: Result<Id, BuildError>)
      modifies this
      ensures Build(old(View()), c).Ok? ==> View() == Build(old(View()), c).value && r == Ok(plugins[c.name])
      ensures Build(old(View()), c).Err? ==> View() == old(View()) && r == Err(Build(old(View()), c).error)
    {
      match c.kind {
        case Registered(created) =>
          if !created { return Err(FactoryFailed); }
          Add(c.name, Plain);
        case SequenceOf(_) => Add(c.name, Sequence([]));
        case Server => Add(c.name, Plain);
        case UnknownKind => return Err(UnknownType);
      }
      return Ok(plugins[c.name]);
    }

    method LoadAll(cs: seq<PluginConfig>)
      modifies this
      ensures View() == BuildAll(old(View()), cs)
    {
      var k := 0;
      while k < |cs|
        invariant k <= |cs|
        invariant BuildAll(View(), cs[k..]) == BuildAll(old(View()), cs)
      {
        assert cs[k..][0] == cs[k] && cs[k..][1..] == cs[k + 1..];
        var _ := BuildPlugin(cs[k]);
        k := k + 1;
      }
    }

    /** `parse_sequence_steps`: pushes one step after the other. */
    method ParseSequenceSteps(specs: seq<StepSpec>) returns (r: Result<seq<Step>, BuildError>)
      modifies this
      ensures (View(), r) == ParseSteps(old(View()), specs)
    {
      var steps: seq<Step> := [];
      var k := 0;
      ghost var whole := ParseSteps(View(), specs);
      assert specs[0..] == specs;
      PrependNothing(whole.1);
      while k < |specs|
        invariant k <= |specs|
        invariant Continues(steps, ParseSteps(View(), specs[k..])) == whole
      {
        assert specs[k..][0] == specs[k] && specs[k..][1..] == specs[k + 1..];
        var action: Action;
        match specs[k] {
          case Exec(a) => action := a;
          case Guarded(ok, a) =>
            if !ok || a.None? { return Err(BadSteps); }
            action := a.value;
          case Malformed => return Err(BadSteps);
        }
        ghost var before, done := View(), steps;
        match action {
          case Inline(created) =>
            if created {
              steps := steps + [Step(|objects|, None)];
              objects := objects + [Plain];
            }
          case Ref(n) =>
            if n in plugins { steps := steps + [Step(plugins[n], Some(n))]; }
          case UnknownAction =>
        }
        assert ParseAction(before, action).0 == View();
        assert steps == done + ParseAction(before, action).1;
        PrependAssoc(done, ParseAction(before, action).1, ParseSteps(View(), specs[k + 1..]).1);
        k := k + 1;
      }
      assert steps + [] == steps;
      return Ok(steps);
    }

    method ParseNameList(names: seq<Option<Name>>) returns (r: Result<seq<Step>, BuildError>)
      ensures r == ParseNames(View(), names)
    {
      var steps: seq<Step> := [];
      var k := 0;
      assert names[0..] == names;
      PrependNothing(ParseNames(View(), names));
      while k < |names|
        invariant k <= |names|
        invariant Prepend(steps, ParseNames(View(), names[k..])) == ParseNames(View(), names)
      {
        assert names[k..][0] == names[k] && names[k..][1..] == names[k + 1..];
        match names[k] {
          case None => return Err(BadSteps);
          case Some(n) =>
            if n !in plugins { return Err(UnknownPlugin(n)); }
            PrependAssoc(steps, [Step(plugins[n], names[k])], ParseNames(View(), names[k + 1..]));
            steps := steps + [Step(plugins[n], names[k])];
        }
        k := k + 1;
      }
      assert steps + [] == steps;
      return Ok(steps);
    }

    /** Pass 1 of `resolve_references`. */
    method ResolveSequences(cs: seq<PluginConfig>) returns (error: Option<BuildError>)
      modifies this
      ensures Pass(View(), error) == RebuildAll(old(View()), cs)
    {
      var k := 0;
      while k < |cs|
        invariant k <= |cs|
        invariant RebuildAll(View(), cs[k..]) == RebuildAll(old(View()), cs)
      {
        assert cs[k..][0] == cs[k] && cs[k..][1..] == cs[k + 1..];
        if cs[k].kind.SequenceOf? {
          var steps: Result<seq<Step>, BuildError>;
          match cs[k].kind.args {
            case StepList(specs) => steps := ParseSequenceSteps(specs);
            case NameList(names) => steps := ParseNameList(names);
            case Unsupported => return Some(BadSteps);
          }
          if steps.Err? { return Some(steps.error); }
          Add(cs[k].name, Sequence(steps.value));
        }
        k := k + 1;
      }
      return None;
    }
  }

  ghost function Continues(steps: seq<Step>, p: (World, Result<seq<Step>, BuildError>))
    : (World, Result<seq<Step>, BuildError>)
  {
    (p.0, Prepend(steps, p.1))
  }

  lemma PrependNothing(r: Result<seq<Step>, BuildError>)
    ensures Prepend([], r) == r
  {
    if r.Ok? { assert [] + r.value == r.value; }
  }

  lemma PrependAssoc(a: seq<Step>, b: seq<Step>, r: Result<seq<Step>, BuildError>)
    ensures Prepend(a, Prepend(b, r)) == Prepend(a + b, r)
  {
    if r.Ok? { Assoc(a, b, r.value); }
  }

  // ----------------------------------------------------- edges go to older objects

  /** Registered names point at existing objects, and every step at an object created before its own. */
  predicate Grounded(w: World) {
    && (forall n :: n in w.plugins ==> w.plugins[n] < |w.objects|)
    && (forall k :: 0 <= k < |w.objects| && w.objects[k].Sequence? ==> StepsBelow(w.objects[k].steps, k))
  }

  predicate StepsBelow(steps: seq<Step>, k: nat) {
    forall i :: 0 <= i < |steps| ==> steps[i].target < k
  }

  lemma RegisterGrounded(w: World, name: Name, o: Object)
    requires Grounded(w) && (o.Sequence? ==> StepsBelow(o.steps, |w.objects|))
    ensures Grounded(Register(w, name, o))
  {
  }

  lemma {:induction false} ParseStepsGrounded(w: World, specs: seq<StepSpec>)
    requires Grounded(w)
    ensures
      var (end, r) := ParseSteps(w, specs);
      && Grounded(end) && end.plugins == w.plugins && w.objects <= end.objects
      && (r.Ok? ==> StepsBelow(r.value, |end.objects|))
    decreases |specs|
  {
    if specs == [] || ActionOf(specs[0]).None? {
    } else {
      ParseStepsGrounded(ParseAction(w, ActionOf(specs[0]).value).0, specs[1..]);
    }
  }

  lemma {:induction false} ParseNamesGrounded(w: World, names: seq<Option<Name>>)
    requires Grounded(w) && ParseNames(w, names).Ok?
    ensures StepsBelow(ParseNames(w, names).value, |w.objects|)
    decreases |names|
  {
    if names == [] {
    } else {
      ParseNamesGrounded(w, names[1..]);
    }
  }

  lemma RebuildGrounded(w: World, c: PluginConfig)
    requires Grounded(w)
    ensures Grounded(Rebuild(w, c).world)
  {
    if c.kind.SequenceOf? {
      match c.kind.args
      case StepList(specs) =>
        ParseStepsGrounded(w, specs);
        var (end, r) := ParseSteps(w, specs);
        if r.Ok? { RegisterGrounded(end, c.name, Sequence(r.value)); }
      case NameList(names) =>
        if ParseNames(w, names).Ok? {
          ParseNamesGrounded(w, names);
          RegisterGrounded(w, c.name, Sequence(ParseNames(w, names).value));
        }
      case Unsupported =>
    }
  }

  /** Also when the pass stops on an error. */
  lemma {:induction false} RebuildAllGrounded(w: World, cs: seq<PluginConfig>)
    requires Grounded(w)
    ensures Grounded(RebuildAll(w, cs).world)
    decreases |cs|
  {
    if cs == [] {
    } else {
      RebuildGrounded(w, cs[0]);
      if Rebuild(w, cs[0]).error.None? { RebuildAllGrounded(Rebuild(w, cs[0]).world, cs[1..]); }
    }
  }

  const NOTHING := World(map[], [])

  predicate Edge(w: World, a: Id, b: Id) {
    a < |w.objects| && w.objects[a].Sequence? &&
    exists i :: 0 <= i < |w.objects[a].steps| && w.objects[a].steps[i].target == b
  }

  predicate Walk(w: World, walk: seq<Id>) {
    forall i :: 0 <= i < |walk| - 1 ==> Edge(w, walk[i], walk[i + 1])
  }

  lemma {:induction false} WalksDescend(w: World, walk: seq<Id>)
    requires Grounded(w) && Walk(w, walk) && |walk| > 1
    ensures walk[|walk| - 1] < walk[0]
    decreases |walk|
  {
    assert Edge(w, walk[0], walk[1]);
    if |walk| > 2 {
      var rest := walk[1..];
      forall i | 0 <= i < |rest| - 1
        ensures Edge(w, rest[i], rest[i + 1])
      {
        assert Edge(w, walk[i + 1], walk[i + 1 + 1]);
      }
      WalksDescend(w, walk[1..]);
    }
  }

  /** The registry and the step edges that the servers run on, whether or not pass 1 went through. The
      children of fallback plugins are resolved later and are no step edges. */
  function Loaded(cs: seq<PluginConfig>): (w: World)
    ensures Grounded(w)
  {
    RebuildAllGrounded(BuildAll(NOTHING, cs), cs);
    RebuildAll(BuildAll(NOTHING, cs), cs).world
  }

  /** Whatever the configuration, even one of sequences naming themselves or each other, or one that stops
      pass 1 with an error, no walk along steps returns to where it began. */
  lemma StepGraphIsAcyclic(cs: seq<PluginConfig>, walk: seq<Id>)
    requires Walk(Loaded(cs), walk) && |walk| > 1
    ensures walk[0] != walk[|walk| - 1]
  {
    WalksDescend(Loaded(cs), walk);
  }

  // --------------------------------------------- which steps lead to final objects

  /** Some sequence among positions `j` to `n` is configured under this name. */
  predicate SequenceIn(cs: seq<PluginConfig>, j: nat, n: nat, m: Name) {
    exists k :: j <= k < n && k < |cs| && cs[k].kind.SequenceOf? && cs[k].name == m
  }

  lemma RebuildRegisters(w: World, c: PluginConfig)
    requires Grounded(w)
    ensures
      var p := Rebuild(w, c);
      && w.objects <= p.world.objects
      && (forall n :: n in w.plugins && n != c.name ==> n in p.world.plugins && p.world.plugins[n] == w.plugins[n])
      && (!c.kind.SequenceOf? || p.error.Some? ==> p.world.plugins == w.plugins)
      && (c.kind.SequenceOf? && p.error.None? ==>
            (c.name in p.world.plugins && p.world.plugins[c.name] == |p.world.objects| - 1 >= |w.objects|
             && p.world.objects[|p.world.objects| - 1].Sequence?))
  {
    if c.kind.SequenceOf? {
      match c.kind.args
      case StepList(specs) => ParseStepsGrounded(w, specs);
      case NameList(names) =>
      case Unsupported =>
    }
  }

  lemma SequenceInRest(cs: seq<PluginConfig>, j: nat, n: nat, m: Name)
    requires cs != []
    ensures SequenceIn(cs, j + 1, n + 1, m) <==> SequenceIn(cs[1..], j, n, m)
    ensures SequenceIn(cs, 0, n + 1, m) <==> (cs[0].kind.SequenceOf? && cs[0].name == m) || SequenceIn(cs, 1, n + 1, m)
  {
    if SequenceIn(cs, j + 1, n + 1, m) {
      var k :| j + 1 <= k < n + 1 && k < |cs| && cs[k].kind.SequenceOf? && cs[k].name == m;
      assert cs[1..][k - 1] == cs[k];
    }
    if SequenceIn(cs[1..], j, n, m) {
      var k :| j <= k < n && k < |cs[1..]| && cs[1..][k].kind.SequenceOf? && cs[1..][k].name == m;
      assert cs[k + 1] == cs[1..][k];
    }
  }

  /** Pass 1 moves a name to a new object exactly if it gets through a sequence of that name. */
  lemma {:induction false} RegistryMoves(w: World, cs: seq<PluginConfig>, m: Name)
    requires Grounded(w) && m in w.plugins
    ensures
      var w' := RebuildAll(w, cs).world;
      && m in w'.plugins && w.objects <= w'.objects
      && (if SequenceIn(cs, 0, Completed(w, cs), m) then w'.plugins[m] >= |w.objects|
          else w'.plugins[m] == w.plugins[m])
    decreases |cs|
  {
    if cs == [] {
    } else {
      RebuildRegisters(w, cs[0]);
      RebuildGrounded(w, cs[0]);
      var p := Rebuild(w, cs[0]);
      if p.error.None? {
        RegistryMoves(p.world, cs[1..], m);
        SequenceInRest(cs, 0, Completed(p.world, cs[1..]), m);
      }
    }
  }

  /** Steps parsed from a reference lead to what the registry held at that moment. */
  predicate NamedSteps(w: World, steps: seq<Step>) {
    forall i :: 0 <= i < |steps| && steps[i].from.Some? ==>
      steps[i].from.value in w.plugins && steps[i].target == w.plugins[steps[i].from.value]
  }

  lemma {:induction false} ParseStepsNamed(w: World, specs: seq<StepSpec>)
    requires ParseSteps(w, specs).1.Ok?
    ensures NamedSteps(w, ParseSteps(w, specs).1.value)
    decreases |specs|
  {
    if specs == [] {
    } else {
      var action := ActionOf(specs[0]).value;
      ParseStepsNamed(ParseAction(w, action).0, specs[1..]);
      assert ParseAction(w, action).0.plugins == w.plugins;
    }
  }

  lemma {:induction false} ParseNamesNamed(w: World, names: seq<Option<Name>>)
    requires ParseNames(w, names).Ok?
    ensures NamedSteps(w, ParseNames(w, names).value)
    decreases |names|
  {
    if names == [] {
    } else {
      ParseNamesNamed(w, names[1..]);
    }
  }

  lemma {:induction false} ObjectsStay(w: World, cs: seq<PluginConfig>)
    requires Grounded(w)
    ensures w.objects <= RebuildAll(w, cs).world.objects
    decreases |cs|
  {
    if cs == [] {
    } else {
      RebuildRegisters(w, cs[0]);
      RebuildGrounded(w, cs[0]);
      if Rebuild(w, cs[0]).error.None? { ObjectsStay(Rebuild(w, cs[0]).world, cs[1..]); }
    }
  }

  /** Pass 1 got through configuration `j`, and it is a sequence. */
  predicate IsRebuilt(w: World, cs: seq<PluginConfig>, j: nat) {
    j < Completed(w, cs) && cs[j].kind.SequenceOf?
  }

  /** The sequence object that pass 1 creates for configuration `j`. */
  function ObjectOf(w: World, cs: seq<PluginConfig>, j: nat): (id: Id)
    requires Grounded(w) && IsRebuilt(w, cs, j)
    ensures id < |RebuildAll(w, cs).world.objects| && RebuildAll(w, cs).world.objects[id].Sequence?
    decreases |cs|
  {
    var w' := Rebuild(w, cs[0]).world;
    RebuildRegisters(w, cs[0]);
    RebuildGrounded(w, cs[0]);
    ObjectsStay(w', cs[1..]);
    if j == 0 then w'.plugins[cs[0].name] else ObjectOf(w', cs[1..], j - 1)
  }

  function StepsOf(w: World, cs: seq<PluginConfig>, j: nat): seq<Step>
    requires Grounded(w) && IsRebuilt(w, cs, j)
  {
    RebuildAll(w, cs).world.objects[ObjectOf(w, cs, j)].steps
  }

  /** The steps of a rebuilt sequence lead to what the registry held when it was rebuilt. */
  lemma FirstStepNamed(w: World, cs: seq<PluginConfig>, i: nat, m: Name)
    requires Grounded(w) && IsRebuilt(w, cs, 0)
    requires i < |StepsOf(w, cs, 0)| && StepsOf(w, cs, 0)[i].from == Some(m)
    ensures m in w.plugins && StepsOf(w, cs, 0)[i].target == w.plugins[m]
  {
    var w' := Rebuild(w, cs[0]).world;
    RebuildRegisters(w, cs[0]);
    RebuildGrounded(w, cs[0]);
    ObjectsStay(w', cs[1..]);
    assert StepsOf(w, cs, 0) == w'.objects[w'.plugins[cs[0].name]].steps;
    match cs[0].kind.args
    case StepList(specs) =>
      ParseStepsNamed(w, specs);
      ParseStepsGrounded(w, specs);
    case NameList(names) =>
      ParseNamesNamed(w, names);
  }

  /** A step that configuration `j` names `m` leads to the object registered as `m` in the end exactly when
      pass 1 gets through no sequence named `m` at position `j` or later; otherwise to an older one. */
  lemma {:induction false} StepIsFinalIff(w: World, cs: seq<PluginConfig>, j: nat, i: nat, m: Name)
    requires Grounded(w) && IsRebuilt(w, cs, j)
    requires i < |StepsOf(w, cs, j)| && StepsOf(w, cs, j)[i].from == Some(m)
    ensures
      var end := RebuildAll(w, cs).world;
      var step := StepsOf(w, cs, j)[i];
      && m in end.plugins
      && (if SequenceIn(cs, j, Completed(w, cs), m) then step.target < end.plugins[m]
          else step.target == end.plugins[m])
    decreases |cs|
  {
    if j == 0 {
      FirstStepNamed(w, cs, i, m);
      RegistryMoves(w, cs, m);
    } else {
      var w' := Rebuild(w, cs[0]).world;
      RebuildGrounded(w, cs[0]);
      StepIsFinalIff(w', cs[1..], j - 1, i, m);
      SequenceInRest(cs, j - 1, Completed(w', cs[1..]), m);
    }
  }

  /** The object rebuilt for configuration `j` is the one registered under its name in the end exactly when
      pass 1 gets through no later sequence of that name. */
  lemma {:induction false} RebuiltIsRegisteredIff(w: World, cs: seq<PluginConfig>, j: nat)
    requires Grounded(w) && IsRebuilt(w, cs, j)
    ensures
      var end := RebuildAll(w, cs).world;
      && cs[j].name in end.plugins
      && (ObjectOf(w, cs, j) == end.plugins[cs[j].name] <==> !SequenceIn(cs, j + 1, Completed(w, cs), cs[j].name))
    decreases |cs|
  {
    var w' := Rebuild(w, cs[0]).world;
    RebuildRegisters(w, cs[0]);
    RebuildGrounded(w, cs[0]);
    SequenceInRest(cs, j, Completed(w', cs[1..]), cs[j].name);
    if j == 0 {
      RegistryMoves(w', cs[1..], cs[0].name);
    } else {
      RebuiltIsRegisteredIff(w', cs[1..], j - 1);
    }
  }

  // ------------------------------------------------ sequences not reached by pass 1

  predicate Builds(c: PluginConfig) {
    c.kind.SequenceOf? || c.kind.Server? || (c.kind.Registered? && c.kind.created)
  }

  function ObjectFor(c: PluginConfig): Object {
    if c.kind.SequenceOf? then Sequence([]) else Plain
  }

  /** A build succeeds exactly for sequences, servers and plugins that their factory creates. */
  lemma BuildsIff(w: World, c: PluginConfig)
    ensures Build(w, c).Ok? <==> Builds(c)
    ensures Builds(c) ==>
      var w' := Build(w, c).value;
      && w'.objects == w.objects + [ObjectFor(c)] && w'.plugins == w.plugins[c.name := |w.objects|]
  {
  }

  lemma {:induction false} BuildAllKeeps(w: World, cs: seq<PluginConfig>, m: Name)
    requires Grounded(w) && m in w.plugins
    requires forall k :: 0 <= k < |cs| && Builds(cs[k]) ==> cs[k].name != m
    ensures
      var w' := BuildAll(w, cs);
      m in w'.plugins && w'.plugins[m] == w.plugins[m] && w.objects <= w'.objects
    decreases |cs|
  {
    if cs == [] {
    } else {
      match Build(w, cs[0])
      case Ok(w') => BuildAllKeeps(w', cs[1..], m);
      case Err(_) => BuildAllKeeps(w, cs[1..], m);
    }
  }

  /** The last configuration of a name that can be built decides what the name stands for before pass 1. */
  lemma {:induction false} LastBuiltIsRegistered(w: World, cs: seq<PluginConfig>, j: nat)
    requires Grounded(w) && j < |cs| && Builds(cs[j])
    requires forall k :: j < k < |cs| && Builds(cs[k]) ==> cs[k].name != cs[j].name
    ensures
      var w' := BuildAll(w, cs);
      cs[j].name in w'.plugins && w'.objects[w'.plugins[cs[j].name]] == ObjectFor(cs[j])
    decreases |cs|
  {
    var w' := match Build(w, cs[0]) case Ok(x) => x case Err(_) => w;
    if j == 0 {
      BuildAllKeeps(w', cs[1..], cs[0].name);
    } else {
      LastBuiltIsRegistered(w', cs[1..], j - 1);
    }
  }

  /** A sequence that pass 1 does not get through is still registered as its empty placeholder, unless an
      earlier sequence of the same name was rebuilt. */
  lemma {:induction false} UnreachedIsPlaceholder(cs: seq<PluginConfig>, j: nat)
    requires Completed(BuildAll(NOTHING, cs), cs) <= j < |cs| && cs[j].kind.SequenceOf?
    requires forall k :: j < k < |cs| && Builds(cs[k]) ==> cs[k].name != cs[j].name
    ensures
      var built := BuildAll(NOTHING, cs);
      && cs[j].name in built.plugins && cs[j].name in Loaded(cs).plugins
      && (Loaded(cs).plugins[cs[j].name] == built.plugins[cs[j].name]
          <==> !SequenceIn(cs, 0, Completed(built, cs), cs[j].name))
      && (!SequenceIn(cs, 0, Completed(built, cs), cs[j].name) ==>
            Loaded(cs).objects[Loaded(cs).plugins[cs[j].name]] == Sequence([]))
  {
    var built := BuildAll(NOTHING, cs);
    LastBuiltIsRegistered(NOTHING, cs, j);
    RegistryMoves(built, cs, cs[j].name);
    assert Loaded(cs) == RebuildAll(built, cs).world;
  }

  // ------------------------------------------------------- where pass 1 stops

  /** Pass 1 fails on the configuration, given the registered names. */
  predicate Unresolvable(known: set<Name>, c: PluginConfig) {
    c.kind.SequenceOf? &&
    match c.kind.args
    case StepList(specs) => exists i :: 0 <= i < |specs| && ActionOf(specs[i]).None?
    case NameList(names) => exists i :: 0 <= i < |names| && (names[i].None? || names[i].value !in known)
    case Unsupported => true
  }

  lemma {:induction false} StepsParseIff(w: World, specs: seq<StepSpec>)
    ensures ParseSteps(w, specs).1.Ok? <==> forall i :: 0 <= i < |specs| ==> ActionOf(specs[i]).Some?
    decreases |specs|
  {
    if specs == [] || ActionOf(specs[0]).None? {
    } else {
      StepsParseIff(ParseAction(w, ActionOf(specs[0]).value).0, specs[1..]);
      assert forall i :: 0 < i < |specs| ==> specs[i] == specs[1..][i - 1];
    }
  }

  lemma RebuildFailsIff(w: World, c: PluginConfig)
    ensures Rebuild(w, c).error.Some? <==> Unresolvable(w.plugins.Keys, c)
  {
    if c.kind.SequenceOf? {
      match c.kind.args
      case StepList(specs) => StepsParseIff(w, specs);
      case NameList(names) => NamesAreWanted(w, names);
      case Unsupported =>
    }
  }

  lemma {:induction false} BuiltSequencesAreKnown(w: World, cs: seq<PluginConfig>)
    ensures w.plugins.Keys <= BuildAll(w, cs).plugins.Keys
    ensures forall k :: 0 <= k < |cs| && cs[k].kind.SequenceOf? ==> cs[k].name in BuildAll(w, cs).plugins
    decreases |cs|
  {
    if cs == [] {
    } else {
      var w' := match Build(w, cs[0]) case Ok(x) => x case Err(_) => w;
      BuiltSequencesAreKnown(w', cs[1..]);
      assert forall k :: 0 < k < |cs| ==> cs[k] == cs[1..][k - 1];
    }
  }

  /** Pass 1 gets through exactly the configurations before the first one that cannot be resolved, which is
      decided by the configurations and the names registered before the pass. */
  lemma {:induction false} CompletedIff(w: World, cs: seq<PluginConfig>)
    requires Grounded(w) && forall k :: 0 <= k < |cs| && cs[k].kind.SequenceOf? ==> cs[k].name in w.plugins
    ensures forall k :: 0 <= k < Completed(w, cs) ==> !Unresolvable(w.plugins.Keys, cs[k])
    ensures Completed(w, cs) < |cs| ==> Unresolvable(w.plugins.Keys, cs[Completed(w, cs)])
    decreases |cs|
  {
    if cs == [] {
    } else {
      RebuildFailsIff(w, cs[0]);
      RebuildRegisters(w, cs[0]);
      RebuildGrounded(w, cs[0]);
      var p := Rebuild(w, cs[0]);
      if p.error.None? {
        SameNames(w, cs[0]);
        assert forall k :: 0 < k < |cs| ==> cs[k] == cs[1..][k - 1];
        CompletedIff(p.world, cs[1..]);
      }
    }
  }

  lemma SameNames(w: World, c: PluginConfig)
    requires Grounded(w) && (c.kind.SequenceOf? ==> c.name in w.plugins)
    ensures Rebuild(w, c).world.plugins.Keys == w.plugins.Keys
  {
    if c.kind.SequenceOf? && c.kind.args.StepList? {
      ParseStepsGrounded(w, c.kind.args.steps);
    }
  }

  /** The same for the loaded configuration. */
  lemma {:induction false} PassStopsAtFirstUnresolvable(cs: seq<PluginConfig>)
    ensures
      var built := BuildAll(NOTHING, cs);
      && (forall k :: 0 <= k < Completed(built, cs) ==> !Unresolvable(built.plugins.Keys, cs[k]))
      && (Completed(built, cs) < |cs| ==> Unresolvable(built.plugins.Keys, cs[Completed(built, cs)]))
  {
    BuiltSequencesAreKnown(NOTHING, cs);
    CompletedIff(BuildAll(NOTHING, cs), cs);
  }

  // -------------------------------------------------- what the steps come from

  predicate ActionMentions(a: Action, m: Name) {
    a == Ref(m)
  }

  predicate SpecMentions(s: StepSpec, m: Name) {
    (s.Exec? && ActionMentions(s.action, m)) ||
    (s.Guarded? && s.guarded.Some? && ActionMentions(s.guarded.value, m))
  }

  /** The configuration refers to the name, in either format. */
  predicate Mentions(c: PluginConfig, m: Name) {
    c.kind.SequenceOf? &&
    match c.kind.args
    case StepList(specs) => exists i :: 0 <= i < |specs| && SpecMentions(specs[i], m)
    case NameList(names) => Some(m) in names
    case Unsupported => false
  }

  lemma {:induction false} StepsMention(w: World, specs: seq<StepSpec>, i: nat, m: Name)
    requires ParseSteps(w, specs).1.Ok? && i < |ParseSteps(w, specs).1.value|
    requires ParseSteps(w, specs).1.value[i].from == Some(m)
    ensures exists k :: 0 <= k < |specs| && SpecMentions(specs[k], m)
    decreases |specs|
  {
    var (w', first) := ParseAction(w, ActionOf(specs[0]).value);
    if i < |first| {
      assert SpecMentions(specs[0], m);
    } else {
      StepsMention(w', specs[1..], i - |first|, m);
      var k :| 0 <= k < |specs[1..]| && SpecMentions(specs[1..][k], m);
      assert SpecMentions(specs[k + 1], m);
    }
  }

  lemma {:induction false} NamesMention(w: World, names: seq<Option<Name>>, i: nat, m: Name)
    requires ParseNames(w, names).Ok? && i < |ParseNames(w, names).value|
    requires ParseNames(w, names).value[i].from == Some(m)
    ensures Some(m) in names
    decreases |names|
  {
    if i == 0 {
    } else {
      NamesMention(w, names[1..], i - 1, m);
    }
  }

  function WantedBy(known: set<Name>, a: Action): seq<Option<Name>> {
    match a
    case Ref(n) => if n in known then [Some(n)] else []
    case Inline(created) => if created then [None] else []
    case UnknownAction => []
  }

  /** What the entries of a list ask for, in order: references that are registered and created actions. */
  function Wanted(known: set<Name>, specs: seq<StepSpec>): seq<Option<Name>> {
    if specs == [] then []
    else
      (match ActionOf(specs[0])
       case Some(a) => WantedBy(known, a)
       case None => []) + Wanted(known, specs[1..])
  }

  function Origins(steps: seq<Step>): (r: seq<Option<Name>>)
    ensures |r| == |steps| && forall i :: 0 <= i < |r| ==> r[i] == steps[i].from
  {
    seq(|steps|, i requires 0 <= i < |steps| => steps[i].from)
  }

  lemma OriginsAppend(a: seq<Step>, b: seq<Step>)
    ensures Origins(a + b) == Origins(a) + Origins(b)
  {
  }

  lemma ActionIsWanted(w: World, a: Action)
    ensures Origins(ParseAction(w, a).1) == WantedBy(w.plugins.Keys, a)
    ensures ParseAction(w, a).0.plugins == w.plugins
  {
  }

  /** Nothing is lost or reordered: the steps are exactly what the entries ask for. */
  lemma {:induction false} StepsAreWanted(w: World, specs: seq<StepSpec>)
    requires ParseSteps(w, specs).1.Ok?
    ensures Origins(ParseSteps(w, specs).1.value) == Wanted(w.plugins.Keys, specs)
    decreases |specs|
  {
    if specs == [] {
    } else {
      var action := ActionOf(specs[0]).value;
      var (w', first) := ParseAction(w, action);
      ActionIsWanted(w, action);
      StepsAreWanted(w', specs[1..]);
      OriginsAppend(first, ParseSteps(w', specs[1..]).1.value);
    }
  }

  /** Every inline action is a new object of its own: no other step of the list leads there, and nothing
      that existed before. */
  lemma {:induction false} InlineStepsAreNew(w: World, specs: seq<StepSpec>)
    requires Grounded(w) && ParseSteps(w, specs).1.Ok?
    ensures
      var (end, r) := ParseSteps(w, specs);
      var steps := r.value;
      && w.objects <= end.objects
      && (forall i :: 0 <= i < |steps| && steps[i].from.None? ==>
            |w.objects| <= steps[i].target < |end.objects| && end.objects[steps[i].target] == Plain)
      && (forall i :: 0 <= i < |steps| && steps[i].from.Some? ==> steps[i].target < |w.objects|)
      && (forall i, j :: 0 <= i < |steps| && 0 <= j < |steps| && i != j && steps[i].from.None? ==>
            steps[i].target != steps[j].target)
    decreases |specs|
  {
    if specs == [] {
    } else {
      var action := ActionOf(specs[0]).value;
      var (w', first) := ParseAction(w, action);
      assert Grounded(w');
      InlineStepsAreNew(w', specs[1..]);
      NamedStepsAreOld(w, w', specs[1..]);
    }
  }

  lemma NamedStepsAreOld(w: World, w': World, specs: seq<StepSpec>)
    requires Grounded(w) && w'.plugins == w.plugins && ParseSteps(w', specs).1.Ok?
    ensures
      var steps := ParseSteps(w', specs).1.value;
      forall i :: 0 <= i < |steps| && steps[i].from.Some? ==> steps[i].target < |w.objects|
  {
    ParseStepsNamed(w', specs);
  }

  lemma {:induction false} NamesAreWanted(w: World, names: seq<Option<Name>>)
    ensures ParseNames(w, names).Ok? <==> forall i :: 0 <= i < |names| ==> names[i].Some? && names[i].value in w.plugins
    ensures ParseNames(w, names).Ok? ==> Origins(ParseNames(w, names).value) == names
    decreases |names|
  {
    if names == [] {
    } else {
      NamesAreWanted(w, names[1..]);
      assert forall i :: 0 < i < |names| ==> names[i] == names[1..][i - 1];
    }
  }

  lemma {:induction false} NamedStepsAreMentioned(w: World, cs: seq<PluginConfig>, j: nat, i: nat, m: Name)
    requires Grounded(w) && IsRebuilt(w, cs, j)
    requires i < |StepsOf(w, cs, j)| && StepsOf(w, cs, j)[i].from == Some(m)
    ensures Mentions(cs[j], m)
    decreases |cs|
  {
    var w' := Rebuild(w, cs[0]).world;
    RebuildRegisters(w, cs[0]);
    RebuildGrounded(w, cs[0]);
    ObjectsStay(w', cs[1..]);
    if j == 0 {
      match cs[0].kind.args
      case StepList(specs) =>
        ParseStepsGrounded(w, specs);
        StepsMention(w, specs, i, m);
      case NameList(names) => NamesMention(w, names, i, m);
    } else {
      NamedStepsAreMentioned(w', cs[1..], j - 1, i, m);
    }
  }

  lemma {:induction false} MentionIsWanted(known: set<Name>, specs: seq<StepSpec>, k: nat, m: Name)
    requires k < |specs| && SpecMentions(specs[k], m) && ActionOf(specs[k]).Some? && m in known
    ensures Some(m) in Wanted(known, specs)
    decreases k
  {
    if k == 0 {
    } else {
      MentionIsWanted(known, specs[1..], k - 1, m);
    }
  }

  /** The steps that pass 1 gives a configuration, in the world it is rebuilt in. */
  lemma RebuiltSteps(w: World, c: PluginConfig, m: Name)
    requires Grounded(w) && c.kind.SequenceOf? && Rebuild(w, c).error.None? && Mentions(c, m) && m in w.plugins
    ensures
      var end := Rebuild(w, c).world;
      && c.name in end.plugins && end.plugins[c.name] < |end.objects| && end.objects[end.plugins[c.name]].Sequence?
      && Some(m) in Origins(end.objects[end.plugins[c.name]].steps)
  {
    match c.kind.args
    case StepList(specs) =>
      var k :| 0 <= k < |specs| && SpecMentions(specs[k], m);
      StepsParseIff(w, specs);
      StepsAreWanted(w, specs);
      MentionIsWanted(w.plugins.Keys, specs, k, m);
    case NameList(names) =>
      NamesAreWanted(w, names);
  }

  /** A reference to a registered name becomes a step of the rebuilt sequence. */
  lemma {:induction false} MentionIsStep(w: World, cs: seq<PluginConfig>, j: nat, m: Name) returns (i: nat)
    requires Grounded(w) && IsRebuilt(w, cs, j) && Mentions(cs[j], m) && m in w.plugins
    ensures i < |StepsOf(w, cs, j)| && StepsOf(w, cs, j)[i].from == Some(m)
    decreases |cs|
  {
    var w' := Rebuild(w, cs[0]).world;
    RebuildRegisters(w, cs[0]);
    RebuildGrounded(w, cs[0]);
    if j == 0 {
      RebuiltSteps(w, cs[0], m);
      ObjectsStay(w', cs[1..]);
      var steps := StepsOf(w, cs, 0);
      assert Some(m) in Origins(steps);
      i :| 0 <= i < |steps| && Origins(steps)[i] == Some(m);
    } else {
      i := MentionIsStep(w', cs[1..], j - 1, m);
    }
  }

  /** A sequence that names itself or a sequence listed later, both reached by pass 1, has a step to an
      object other than the one registered in the end. */
  lemma ForwardReferenceIsStale(cs: seq<PluginConfig>, j: nat, k: nat) returns (i: nat)
    requires
      var built := BuildAll(NOTHING, cs);
      j <= k && IsRebuilt(built, cs, j) && IsRebuilt(built, cs, k) && Mentions(cs[j], cs[k].name)
    ensures
      var built := BuildAll(NOTHING, cs);
      && i < |StepsOf(built, cs, j)| && StepsOf(built, cs, j)[i].from == Some(cs[k].name)
      && cs[k].name in Loaded(cs).plugins && StepsOf(built, cs, j)[i].target < Loaded(cs).plugins[cs[k].name]
  {
    var built := BuildAll(NOTHING, cs);
    BuiltSequencesAreKnown(NOTHING, cs);
    i := MentionIsStep(built, cs, j, cs[k].name);
    StepIsFinalIff(built, cs, j, i, cs[k].name);
    assert SequenceIn(cs, j, Completed(built, cs), cs[k].name);
  }

  /** When every sequence stands after the sequences it names, each named step of each rebuilt sequence
      leads to the object registered in the end, and if it names a sequence, to a rebuilt one: no
      placeholder is left behind, even if pass 1 fails later. */
  lemma ListedInOrderIsFinal(cs: seq<PluginConfig>, j: nat, i: nat, m: Name)
    requires IsRebuilt(BuildAll(NOTHING, cs), cs, j)
    requires forall a, b ::
      0 <= a < |cs| && 0 <= b < |cs| && cs[b].kind.SequenceOf? && Mentions(cs[a], cs[b].name) ==> b < a
    requires i < |StepsOf(BuildAll(NOTHING, cs), cs, j)| && StepsOf(BuildAll(NOTHING, cs), cs, j)[i].from == Some(m)
    ensures
      var step := StepsOf(BuildAll(NOTHING, cs), cs, j)[i];
      && m in Loaded(cs).plugins && Loaded(cs).plugins[m] == step.target
      && (SequenceIn(cs, 0, |cs|, m) ==> step.target >= |BuildAll(NOTHING, cs).objects|)
  {
    var built := BuildAll(NOTHING, cs);
    StepIsFinalIff(built, cs, j, i, m);
    NamedStepsAreMentioned(built, cs, j, i, m);
    if SequenceIn(cs, 0, |cs|, m) {
      var b :| 0 <= b < |cs| && cs[b].kind.SequenceOf? && cs[b].name == m;
      assert b < j;
      BuiltSequencesAreKnown(NOTHING, cs);
      RegistryMoves(built, cs, m);
    }
  }
}
