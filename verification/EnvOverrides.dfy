/** Environment overrides of the configuration (`apply_env_overrides_from_snapshot` in
    src/config/loader.rs). The snapshot is a hash map, so its entries arrive in any order. */
module EnvOverrides {
  import opened Common
  import opened Reordering
  import opened Text
  import opened YamlTree

  // ------------------------------------------------------------------ keys

  datatype Field =
    | LogLevel | LogFormat | LogFile | LogConsole
    | AdminEnabled | AdminAddr | MetricsEnabled | MetricsAddr

  /** A variable's name after the fixed names and the plugin pattern have been recognised. */
  datatype EnvKey =
    | Setting(field: Field)
    | PluginArg(tag: string, keyPath: string)
    | Unrelated(name: string)

  /** `yaml` is what the value text parses to (or the text itself as a scalar when it does not parse). */
  datatype Entry = Entry(key: EnvKey, text: string, yaml: Value)

  function Normalize(s: string): (r: string)
    ensures |r| == |s| && '_' !in r
    ensures forall i :: 0 <= i < |r| ==> !('A' <= r[i] <= 'Z')
  {
    seq(|s|, i requires 0 <= i < |s| => if s[i] == '_' then '-' else LowerChar(s[i]))
  }

  /** Equal but for case and for writing a hyphen as an underscore. */
  predicate Alike(x: char, y: char) {
    LowerChar(x) == LowerChar(y) || (x in {'_', '-'} && y in {'_', '-'})
  }

  /** A tag and a plugin name are identified exactly if they are alike character by character, and
      normalising again changes nothing. */
  lemma NormalizedAlikeIff(s: string, t: string)
    ensures Normalize(s) == Normalize(t) <==> |s| == |t| && forall i :: 0 <= i < |s| ==> Alike(s[i], t[i])
    ensures Normalize(Normalize(s)) == Normalize(s)
  {
    var a, b := Normalize(s), Normalize(t);
    forall i | 0 <= i < |s| && |s| == |t|
      ensures a[i] == b[i] <==> Alike(s[i], t[i])
    {
    }
    assert a == b ==> forall i :: 0 <= i < |a| ==> a[i] == b[i];
  }

  const USIZE_MAX: int := 0xFFFF_FFFF_FFFF_FFFF

  predicate Digits(s: string) {
    forall i :: 0 <= i < |s| ==> '0' <= s[i] <= '9'
  }

  function Decimal(s: string): nat
    requires Digits(s)
  {
    if s == [] then 0 else 10 * Decimal(s[..|s| - 1]) + (s[|s| - 1] as int - '0' as int)
  }

  /** `str::parse::<usize>()`: digits with an optional plus sign, within the machine's range. */
  function ParseIndex(s: string): Option<nat> {
    var digits := if s != [] && s[0] == '+' then s[1..] else s;
    if digits != [] && Digits(digits) && Decimal(digits) <= USIZE_MAX then Some(Decimal(digits)) else None
  }

  /** The usual decimal text of a number. */
  function DecimalText(n: nat): (s: string)
    ensures s != [] && Digits(s)
  {
    var digit := [('0' as int + n % 10) as char];
    if n < 10 then digit else DecimalText(n / 10) + digit
  }

  lemma {:induction false} DecimalOfText(n: nat)
    ensures Decimal(DecimalText(n)) == n
  {
    var s := DecimalText(n);
    assert s[|s| - 1] as int - '0' as int == n % 10;
    if n < 10 {
      assert s[..|s| - 1] == [];
    } else {
      DecimalOfText(n / 10);
      assert s[..|s| - 1] == DecimalText(n / 10);
    }
  }

  /** The decimal text of every index within the machine's range is that index. */
  lemma IndexIsParsed(n: nat)
    ensures n <= USIZE_MAX ==> ParseIndex(DecimalText(n)) == Some(n) && ParseSegment(DecimalText(n)) == Index(n)
    ensures n > USIZE_MAX ==> ParseIndex(DecimalText(n)) == None
  {
    DecimalOfText(n);
    assert DecimalText(n)[0] != '+';
  }

  /** A part with any other character is a key. */
  lemma KeyIsParsed(part: string, i: nat)
    requires i < |part| && !('0' <= part[i] <= '9') && !(i == 0 && part[0] == '+')
    ensures ParseSegment(part) == Key(Normalize(part))
  {
    if part[0] == '+' { assert part[1..][i - 1] == part[i]; }
  }

  function ParseSegment(part: string): Segment {
    match ParseIndex(part)
    case Some(i) => Index(i)
    case None => Key(Normalize(part))
  }

  function ParseKeyPath(raw: string): (path: Path)
    ensures path != []
  {
    var parts := Split(raw, '_');
    seq(|parts|, i requires 0 <= i < |parts| => ParseSegment(parts[i]))
  }

  /** Parts without an underscore, joined by underscores, are the segments of the path, in order. */
  lemma KeyPathIsParsed(parts: seq<string>)
    requires parts != [] && forall p :: p in parts ==> '_' !in p
    ensures
      var path := ParseKeyPath(Join(parts, '_'));
      |path| == |parts| && forall i :: 0 <= i < |parts| ==> path[i] == ParseSegment(parts[i])
  {
    SplitJoin(parts, '_');
  }

  // ---------------------------------------------------------------- state

  datatype FileLog = FileLog(enabled: bool, path: string, rotation: string, compress: bool)

  const DEFAULT_ROTATION: string := "never"

  datatype Endpoint = Endpoint(enabled: bool, addr: string)

  datatype Log = Log(level: string, format: string, file: Option<FileLog>, console: bool)

  /** `name` is the plugin's effective name. */
  datatype Plugin = Plugin(name: string, args: Value)

  datatype Settings = Settings(log: Log, admin: Endpoint, monitoring: Endpoint, plugins: seq<Plugin>)

  function Truthy(s: string): bool {
    var l := Lower(s);
    l == "true" || l == "1" || l == "yes"
  }

  function Names(plugins: seq<Plugin>): (r: seq<string>)
    ensures |r| == |plugins| && forall i :: 0 <= i < |r| ==> r[i] == plugins[i].name
  {
    seq(|plugins|, i requires 0 <= i < |plugins| => plugins[i].name)
  }

  /** Index of the first name that normalises to `tag`, or the number of names. */
  function Find(names: seq<string>, tag: string): (i: nat)
    ensures i <= |names|
    ensures i < |names| ==> Normalize(names[i]) == tag
    ensures forall j :: 0 <= j < i ==> Normalize(names[j]) != tag
  {
    if names == [] then 0
    else if Normalize(names[0]) == tag then 0
    else 1 + Find(names[1..], tag)
  }

  function AsMapping(args: Value): Value {
    if args.Mapping? then args else Mapping(map[])
  }

  /** Arguments that are not a mapping are reset before the write. */
  function WriteArgs(args: Value, path: Path, v: Value): Value {
    Put(AsMapping(args), path, v)
  }

  function ApplySetting(c: Settings, f: Field, text: string): Settings {
    match f
    case LogLevel => if text == "" then c else c.(log := c.log.(level := text))
    case LogFormat => if text == "" then c else c.(log := c.log.(format := text))
    case LogFile =>
      if text == "" then c
      else if c.log.file.Some? then
        c.(log := c.log.(file := Some(c.log.file.value.(path := text, enabled := true))))
      else
        c.(log := c.log.(file := Some(FileLog(true, text, DEFAULT_ROTATION, false))))
    case LogConsole => if text == "" then c else c.(log := c.log.(console := Truthy(text)))
    case AdminEnabled => c.(admin := c.admin.(enabled := Truthy(text)))
    case AdminAddr => c.(admin := c.admin.(addr := text))
    case MetricsEnabled => c.(monitoring := c.monitoring.(enabled := Truthy(text)))
    case MetricsAddr => c.(monitoring := c.monitoring.(addr := text))
  }

  function WritePlugin(plugins: seq<Plugin>, tag: string, path: Path, v: Value): seq<Plugin> {
    var i := Find(Names(plugins), tag);
    if i == |plugins| then plugins
    else plugins[i := plugins[i].(args := WriteArgs(plugins[i].args, path, v))]
  }

  function Apply(c: Settings, e: Entry): Settings {
    match e.key
    case Setting(f) => ApplySetting(c, f, e.text)
    case PluginArg(tag, raw) =>
      c.(plugins := WritePlugin(c.plugins, Normalize(tag), ParseKeyPath(raw), e.yaml))
    case Unrelated(_) => c
  }

  function ApplyAll(c: Settings, entries: seq<Entry>): Settings
    decreases |entries|
  {
    if entries == [] then c else ApplyAll(Apply(c, entries[0]), entries[1..])
  }

  // ------------------------------------------------------- reading a setting

  datatype Reading = Word(text: string) | Switch(on: bool) | LogTarget(file: Option<FileLog>)

  function Read(c: Settings, f: Field): Reading {
    match f
    case LogLevel => Word(c.log.level)
    case LogFormat => Word(c.log.format)
    case LogFile => LogTarget(c.log.file)
    case LogConsole => Switch(c.log.console)
    case AdminEnabled => Switch(c.admin.enabled)
    case AdminAddr => Word(c.admin.addr)
    case MetricsEnabled => Switch(c.monitoring.enabled)
    case MetricsAddr => Word(c.monitoring.addr)
  }

  /** Configurations are known by their readings and their plugins. */
  lemma ReadingsDetermine(c: Settings, d: Settings)
    requires c.plugins == d.plugins && forall f :: Read(c, f) == Read(d, f)
    ensures c == d
  {
    assert Read(c, LogLevel) == Read(d, LogLevel) && Read(c, LogFormat) == Read(d, LogFormat);
    assert Read(c, LogFile) == Read(d, LogFile) && Read(c, LogConsole) == Read(d, LogConsole);
    assert Read(c, AdminEnabled) == Read(d, AdminEnabled) && Read(c, AdminAddr) == Read(d, AdminAddr);
    assert Read(c, MetricsEnabled) == Read(d, MetricsEnabled) && Read(c, MetricsAddr) == Read(d, MetricsAddr);
  }

  /** A variable of the log section that is empty counts as unset. */
  predicate Ignored(f: Field, text: string) {
    text == "" && (f.LogLevel? || f.LogFormat? || f.LogFile? || f.LogConsole?)
  }

  /** A fixed variable changes the reading of its own setting and of nothing else: words become the text,
      switches its truth, and a log target is enabled at the text and keeps its rotation and compression. */
  lemma SettingChangesItsOwn(c: Settings, f: Field, text: string, g: Field)
    ensures ApplySetting(c, f, text).plugins == c.plugins
    ensures g != f || Ignored(f, text) ==> Read(ApplySetting(c, f, text), g) == Read(c, g)
    ensures !Ignored(f, text) ==>
      match Read(ApplySetting(c, f, text), f)
      case Word(t) => t == text
      case Switch(on) => on <==> Lower(text) in {"true", "1", "yes"}
      case LogTarget(file) =>
        && file.Some? && file.value.enabled && file.value.path == text
        && file.value.rotation == (if c.log.file.Some? then c.log.file.value.rotation else DEFAULT_ROTATION)
        && file.value.compress == (c.log.file.Some? && c.log.file.value.compress)
  {
  }

  // ------------------------------------------------------------- the loader

  class Config {
    var log: Log
    var admin: Endpoint
    var monitoring: Endpoint
    var plugins: seq<Plugin>

    constructor (c: Settings)
      ensures View() == c
    {
      log, admin, monitoring, plugins := c.log, c.admin, c.monitoring, c.plugins;
    }

    ghost function View(): Settings
      reads this
    {
      Settings(log, admin, monitoring, plugins)
    }

    /** One pass over the snapshot in the order the hash map yields it. */
    method ApplyOverrides(snapshot: seq<Entry>)
      modifies this
      ensures View() == ApplyAll(old(View()), snapshot)
    {
      var n := 0;
      while n < |snapshot|
        invariant n <= |snapshot|
        invariant ApplyAll(View(), snapshot[n..]) == ApplyAll(old(View()), snapshot)
      {
        var e := snapshot[n];
        assert snapshot[n..][1..] == snapshot[n + 1..];
        ghost var before := View();
        match e.key {
          case Setting(f) => ApplyToSetting(f, e.text);
          case PluginArg(tag, raw) => ApplyToPlugin(Normalize(tag), ParseKeyPath(raw), e.yaml);
          case Unrelated(_) =>
        }
        assert View() == Apply(before, e);
        n := n + 1;
      }
    }

    method ApplyToSetting(f: Field, text: string)
      modifies this
      ensures View() == ApplySetting(old(View()), f, text)
    {
      match f
      case LogLevel => if text != "" { log := log.(level := text); }
      case LogFormat => if text != "" { log := log.(format := text); }
      case LogFile =>
        if text != "" {
          if log.file.Some? {
            log := log.(file := Some(log.file.value.(path := text, enabled := true)));
          } else {
            log := log.(file := Some(FileLog(true, text, DEFAULT_ROTATION, false)));
          }
        }
      case LogConsole => if text != "" { log := log.(console := Truthy(text)); }
      case AdminEnabled => admin := admin.(enabled := Truthy(text));
      case AdminAddr => admin := admin.(addr := text);
      case MetricsEnabled => monitoring := monitoring.(enabled := Truthy(text));
      case MetricsAddr => monitoring := monitoring.(addr := text);
    }

    method ApplyToPlugin(tag: string, path: Path, v: Value)
      modifies this`plugins
      ensures plugins == WritePlugin(old(plugins), tag, path, v)
    {
      var i := Find(Names(plugins), tag);
      if i < |plugins| {
        var args := plugins[i].args;
        if !args.Mapping? {
          args := Mapping(map[]);
        }
        args := SetPath(args, path, v);
        plugins := plugins[i := plugins[i].(args := args)];
      }
    }
  }

  /** An override of an argument is read back at its path, in the first plugin of that tag; nothing else of
      that plugin's name and no other plugin changes. */
  lemma OverrideIsReadBack(plugins: seq<Plugin>, tag: string, path: Path, v: Value, i: nat)
    requires i < |plugins| && Normalize(plugins[i].name) == tag
    requires forall j :: 0 <= j < i ==> Normalize(plugins[j].name) != tag
    ensures
      var after := WritePlugin(plugins, tag, path, v);
      && |after| == |plugins| && after[i].name == plugins[i].name && Get(after[i].args, path) == Some(v)
      && forall j :: 0 <= j < |plugins| && j != i ==> after[j] == plugins[j]
  {
    var k := Find(Names(plugins), tag);
    assert Names(plugins)[i] == plugins[i].name;
    assert k == i;
    PutGet(AsMapping(plugins[i].args), path, v);
  }

  /** The same for an entry of the snapshot: the first plugin whose name is the variable's tag, up to case and
      hyphens, holds the value at the variable's path, and no setting changes. */
  lemma EntryIsReadBack(c: Settings, e: Entry, i: nat)
    requires e.key.PluginArg? && i < |c.plugins| && Normalize(c.plugins[i].name) == Normalize(e.key.tag)
    requires forall j :: 0 <= j < i ==> Normalize(c.plugins[j].name) != Normalize(e.key.tag)
    ensures
      var after := Apply(c, e);
      && |after.plugins| == |c.plugins| && after.(plugins := c.plugins) == c
      && Get(after.plugins[i].args, ParseKeyPath(e.key.keyPath)) == Some(e.yaml)
      && forall j :: 0 <= j < |c.plugins| && j != i ==> after.plugins[j] == c.plugins[j]
  {
    OverrideIsReadBack(c.plugins, Normalize(e.key.tag), ParseKeyPath(e.key.keyPath), e.yaml, i);
  }

  // ----------------------------------------------- when two entries commute

  /** Two texts for one setting that leave the same value whichever comes last. */
  predicate SameEffect(f: Field, a: string, b: string) {
    match f
    case LogLevel | LogFormat | LogFile => a == "" || b == "" || a == b
    case LogConsole => a == "" || b == "" || Truthy(a) == Truthy(b)
    case AdminEnabled | MetricsEnabled => Truthy(a) == Truthy(b)
    case AdminAddr | MetricsAddr => a == b
  }

  /** Two argument writes to one plugin. An index-first path turns the arguments into a sequence,
      which the next write throws away. */
  predicate ArgsIndependent(p: Path, v: Value, q: Path, w: Value)
    requires p != [] && q != []
  {
    if p[0].Key? && q[0].Key? then Independent(p, v, q, w)
    else p[0].Index? && q[0].Index? && Put(Null, p, v) == Put(Null, q, w)
  }

  predicate Unordered(names: seq<string>, e: Entry, f: Entry) {
    match (e.key, f.key)
    case (Setting(a), Setting(b)) => a != b || SameEffect(a, e.text, f.text)
    case (PluginArg(s, p), PluginArg(t, q)) =>
      WritesUnordered(names, Normalize(s), ParseKeyPath(p), e.yaml, Normalize(t), ParseKeyPath(q), f.yaml)
    case _ => true
  }

  predicate WritesUnordered(names: seq<string>, s: string, p: Path, v: Value, t: string, q: Path, w: Value)
    requires p != [] && q != []
  {
    s != t || Find(names, s) == |names| || ArgsIndependent(p, v, q, w)
  }

  lemma WriteKeepsNames(plugins: seq<Plugin>, tag: string, path: Path, v: Value)
    ensures Names(WritePlugin(plugins, tag, path, v)) == Names(plugins)
  {
  }

  lemma ApplyKeepsNames(c: Settings, e: Entry)
    ensures Names(Apply(c, e).plugins) == Names(c.plugins)
  {
  }

  lemma PutOnBlank(t: Value, path: Path, v: Value)
    requires path != []
    requires path[0].Key? ==> !t.Mapping? || t == Mapping(map[])
    requires path[0].Index? ==> !t.Sequence?
    ensures Put(t, path, v) == Put(Null, path, v)
  {
    assert path[0].Key? ==> Entries(t) == map[];
  }

  lemma IndexWritesIff(args: Value, p: Path, v: Value, q: Path, w: Value)
    requires p != [] && q != [] && p[0].Index? && q[0].Index?
    ensures WriteArgs(WriteArgs(args, p, v), q, w) == WriteArgs(WriteArgs(args, q, w), p, v)
       <==> Put(Null, p, v) == Put(Null, q, w)
  {
    LastIndexWriteWins(args, p, v, q, w);
    LastIndexWriteWins(args, q, w, p, v);
  }

  /** An index-first write leaves a sequence, which the next write throws away. */
  lemma LastIndexWriteWins(args: Value, p: Path, v: Value, q: Path, w: Value)
    requires p != [] && q != [] && p[0].Index? && q[0].Index?
    ensures WriteArgs(WriteArgs(args, p, v), q, w) == Put(Null, q, w)
  {
    assert WriteArgs(args, p, v).Sequence?;
    PutOnBlank(Mapping(map[]), q, w);
  }

  lemma ArgWritesCommuteIff(args: Value, p: Path, v: Value, q: Path, w: Value)
    requires p != [] && q != []
    ensures WriteArgs(WriteArgs(args, p, v), q, w) == WriteArgs(WriteArgs(args, q, w), p, v)
       <==> ArgsIndependent(p, v, q, w)
  {
    if p[0].Key? && q[0].Key? {
      KeyWrites(args, p, v, q, w);
      KeyWrites(args, q, w, p, v);
      PutsCommuteIff(AsMapping(args), p, v, q, w);
    } else if p[0].Index? && q[0].Index? {
      IndexWritesIff(args, p, v, q, w);
    } else {
      assert WriteArgs(WriteArgs(args, p, v), q, w).Mapping? == q[0].Key?;
      assert WriteArgs(WriteArgs(args, q, w), p, v).Mapping? == p[0].Key?;
    }
  }

  lemma KeyWrites(args: Value, p: Path, v: Value, q: Path, w: Value)
    requires p != [] && q != [] && p[0].Key?
    ensures WriteArgs(WriteArgs(args, p, v), q, w) == Put(Put(AsMapping(args), p, v), q, w)
  {
    assert WriteArgs(args, p, v).Mapping?;
  }

  lemma SamePluginCommuteIff(c: seq<Plugin>, s: string, p: Path, v: Value, q: Path, w: Value)
    requires p != [] && q != []
    ensures WritePlugin(WritePlugin(c, s, p, v), s, q, w) == WritePlugin(WritePlugin(c, s, q, w), s, p, v)
       <==> WritesUnordered(Names(c), s, p, v, s, q, w)
  {
    WriteKeepsNames(c, s, p, v);
    WriteKeepsNames(c, s, q, w);
    var i := Find(Names(c), s);
    if i < |c| {
      ArgWritesCommuteIff(c[i].args, p, v, q, w);
      var x, y := WriteArgs(WriteArgs(c[i].args, p, v), q, w), WriteArgs(WriteArgs(c[i].args, q, w), p, v);
      var pq := WritePlugin(WritePlugin(c, s, p, v), s, q, w);
      var qp := WritePlugin(WritePlugin(c, s, q, w), s, p, v);
      assert pq == c[i := c[i].(args := x)] && qp == c[i := c[i].(args := y)];
      assert pq[i].args == x && qp[i].args == y;
    }
  }

  lemma TwoPluginsCommute(c: seq<Plugin>, s: string, p: Path, v: Value, t: string, q: Path, w: Value)
    requires s != t
    ensures WritePlugin(WritePlugin(c, s, p, v), t, q, w) == WritePlugin(WritePlugin(c, t, q, w), s, p, v)
  {
    WriteKeepsNames(c, s, p, v);
    WriteKeepsNames(c, t, q, w);
    var i, j := Find(Names(c), s), Find(Names(c), t);
    if i < |c| && j < |c| {
      assert i != j;
      var x := c[i].(args := WriteArgs(c[i].args, p, v));
      var y := c[j].(args := WriteArgs(c[j].args, q, w));
      assert c[i := x][j := y] == c[j := y][i := x];
    }
  }

  lemma PluginWritesCommuteIff(c: seq<Plugin>, s: string, p: Path, v: Value, t: string, q: Path, w: Value)
    requires p != [] && q != []
    ensures WritePlugin(WritePlugin(c, s, p, v), t, q, w) == WritePlugin(WritePlugin(c, t, q, w), s, p, v)
       <==> WritesUnordered(Names(c), s, p, v, t, q, w)
  {
    if s == t {
      SamePluginCommuteIff(c, s, p, v, q, w);
    } else {
      TwoPluginsCommute(c, s, p, v, t, q, w);
    }
  }

  /** Whether two entries may be swapped is decided by the entries and the plugin names alone, exactly. */
  lemma SwapIff(c: Settings, e: Entry, f: Entry)
    ensures Apply(Apply(c, e), f) == Apply(Apply(c, f), e) <==> Unordered(Names(c.plugins), e, f)
  {
    if e.key.PluginArg? && f.key.PluginArg? {
      var s, p := Normalize(e.key.tag), ParseKeyPath(e.key.keyPath);
      var t, q := Normalize(f.key.tag), ParseKeyPath(f.key.keyPath);
      PluginWritesCommuteIff(c.plugins, s, p, e.yaml, t, q, f.yaml);
      var pq := WritePlugin(WritePlugin(c.plugins, s, p, e.yaml), t, q, f.yaml);
      var qp := WritePlugin(WritePlugin(c.plugins, t, q, f.yaml), s, p, e.yaml);
      assert Apply(Apply(c, e), f) == c.(plugins := pq);
      assert Apply(Apply(c, f), e) == c.(plugins := qp);
      assert c.(plugins := pq).plugins == pq && c.(plugins := qp).plugins == qp;
    } else if e.key.Setting? && f.key.Setting? {
      SettingsSwapIff(c, e.key.field, e.text, f.key.field, f.text);
    } else if e.key.Setting? && f.key.PluginArg? {
      SettingAndWriteSwap(c, e.key.field, e.text, Normalize(f.key.tag), ParseKeyPath(f.key.keyPath), f.yaml);
    } else if f.key.Setting? && e.key.PluginArg? {
      SettingAndWriteSwap(c, f.key.field, f.text, Normalize(e.key.tag), ParseKeyPath(e.key.keyPath), e.yaml);
    }
  }

  lemma SettingAndWriteSwap(c: Settings, f: Field, text: string, t: string, q: Path, w: Value)
    ensures ApplySetting(c, f, text).plugins == c.plugins
    ensures ApplySetting(c.(plugins := WritePlugin(c.plugins, t, q, w)), f, text)
         == ApplySetting(c, f, text).(plugins := WritePlugin(c.plugins, t, q, w))
  {
  }

  lemma SettingsSwapIff(c: Settings, a: Field, x: string, b: Field, y: string)
    ensures ApplySetting(ApplySetting(c, a, x), b, y) == ApplySetting(ApplySetting(c, b, y), a, x)
       <==> (a != b || SameEffect(a, x, y))
  {
  }

  // -------------------------------------------------------- every order agrees

  lemma {:induction false} ApplyAllIsFold(c: Settings, entries: seq<Entry>)
    ensures ApplyAll(c, entries) == Fold(Apply, c, entries)
    decreases |entries|
  {
    if entries == [] {
    } else {
      ApplyAllIsFold(Apply(c, entries[0]), entries[1..]);
    }
  }

  /** The result of an override pass is the same for every order in which the hash map yields its
      entries, when any two of them may be swapped. */
  lemma {:induction false} OrderIrrelevant(c: Settings, xs: seq<Entry>, ys: seq<Entry>)
    requires multiset(xs) == multiset(ys)
    requires forall i, j :: 0 <= i < |ys| && 0 <= j < |ys| && i != j ==> Unordered(Names(c.plugins), ys[i], ys[j])
    ensures ApplyAll(c, xs) == ApplyAll(c, ys)
  {
    var names := Names(c.plugins);
    var inv := (s: Settings) => Names(s.plugins) == names;
    var swap := (e: Entry, f: Entry) => Unordered(names, e, f);
    forall s: Settings, e: Entry | inv(s)
      ensures inv(Apply(s, e))
    {
      ApplyKeepsNames(s, e);
    }
    forall s: Settings, e: Entry, f: Entry | inv(s) && swap(e, f)
      ensures Apply(Apply(s, e), f) == Apply(Apply(s, f), e)
    {
      SwapIff(s, e, f);
    }
    OrderFree(Apply, inv, swap, c, xs, ys);
    ApplyAllIsFold(c, xs);
    ApplyAllIsFold(c, ys);
  }

  lemma {:induction false} ApplyAllAppend(c: Settings, xs: seq<Entry>, ys: seq<Entry>)
    ensures ApplyAll(c, xs + ys) == ApplyAll(ApplyAll(c, xs), ys)
    ensures Names(ApplyAll(c, xs).plugins) == Names(c.plugins)
    decreases |xs|
  {
    if xs == [] {
      assert xs + ys == ys;
    } else {
      ApplyKeepsNames(c, xs[0]);
      ApplyAllAppend(Apply(c, xs[0]), xs[1..], ys);
      assert (xs + ys)[1..] == xs[1..] + ys;
    }
  }

  lemma {:induction false} PairLast(ys: seq<Entry>, i: nat, j: nat) returns (rest: seq<Entry>)
    requires i < j < |ys|
    ensures multiset(rest + [ys[i], ys[j]]) == multiset(ys) == multiset(rest + [ys[j], ys[i]])
  {
    rest := ys[..i] + ys[i + 1..j] + ys[j + 1..];
    assert ys == ys[..i] + [ys[i]] + ys[i + 1..j] + [ys[j]] + ys[j + 1..];
    assert multiset(ys) == multiset(rest) + multiset{ys[i]} + multiset{ys[j]};
  }

  /** Two entries that may not be swapped give two different results: apply the others first. */
  lemma {:induction false} OrderedPairTells(c: Settings, ys: seq<Entry>, i: nat, j: nat) returns (xs: seq<Entry>)
    requires i < j < |ys| && !Unordered(Names(c.plugins), ys[i], ys[j])
    ensures multiset(xs) == multiset(ys) && ApplyAll(c, xs) != ApplyAll(c, ys)
  {
    var rest := PairLast(ys, i, j);
    var s := ApplyAll(c, rest);
    var one, other := rest + [ys[i], ys[j]], rest + [ys[j], ys[i]];
    ApplyAllAppend(c, rest, [ys[i], ys[j]]);
    ApplyAllAppend(c, rest, [ys[j], ys[i]]);
    InTwoSteps(s, ys[i], ys[j]);
    InTwoSteps(s, ys[j], ys[i]);
    SwapIff(s, ys[i], ys[j]);
    xs := if ApplyAll(c, one) != ApplyAll(c, ys) then one else other;
  }

  /** Whether two entries may be swapped does not depend on which is named first. */
  lemma UnorderedIsSymmetric(c: Settings, e: Entry, f: Entry)
    requires Unordered(Names(c.plugins), e, f)
    ensures Unordered(Names(c.plugins), f, e)
  {
    SwapIff(c, e, f);
    SwapIff(c, f, e);
  }

  /** The hash map's order never matters exactly if any two entries of the snapshot may be swapped, which
      is decided by the entries and the plugin names. */
  lemma {:induction false} OrderIrrelevantIff(c: Settings, ys: seq<Entry>)
    ensures (forall xs: seq<Entry> :: multiset(xs) == multiset(ys) ==> ApplyAll(c, xs) == ApplyAll(c, ys))
       <==> (forall i, j :: 0 <= i < j < |ys| ==> Unordered(Names(c.plugins), ys[i], ys[j]))
  {
    if forall i, j :: 0 <= i < j < |ys| ==> Unordered(Names(c.plugins), ys[i], ys[j]) {
      forall i, j | 0 <= i < |ys| && 0 <= j < |ys| && i != j
        ensures Unordered(Names(c.plugins), ys[i], ys[j])
      {
        if j < i { UnorderedIsSymmetric(c, ys[j], ys[i]); }
      }
      forall xs: seq<Entry> | multiset(xs) == multiset(ys)
        ensures ApplyAll(c, xs) == ApplyAll(c, ys)
      {
        OrderIrrelevant(c, xs, ys);
      }
    } else {
      var i, j :| 0 <= i < j < |ys| && !Unordered(Names(c.plugins), ys[i], ys[j]);
      var xs := OrderedPairTells(c, ys, i, j);
    }
  }

  /** Entries of one hash map have different names. */
  ghost predicate DistinctKeys(entries: seq<Entry>) {
    forall i, j :: 0 <= i < |entries| && 0 <= j < |entries| && i != j ==> entries[i].key != entries[j].key
  }

  /** Two argument overrides of one plugin start at keys and part at segments of one kind. */
  ghost predicate ArgsPart(e: Entry, f: Entry) {
    e.key.PluginArg? && f.key.PluginArg? && Normalize(e.key.tag) == Normalize(f.key.tag) ==>
      var p, q := ParseKeyPath(e.key.keyPath), ParseKeyPath(f.key.keyPath);
      p[0].Key? && q[0].Key? && PartSameKind(p, q)
  }

  lemma PartingIsUnordered(names: seq<string>, e: Entry, f: Entry)
    requires e.key != f.key && ArgsPart(e, f)
    ensures Unordered(names, e, f)
  {
    if e.key.PluginArg? && f.key.PluginArg? && Normalize(e.key.tag) == Normalize(f.key.tag) {
      PartSameKindIsIndependent(ParseKeyPath(e.key.keyPath), e.yaml, ParseKeyPath(f.key.keyPath), f.yaml);
    }
  }

  /** The documented uses: any snapshot whose argument paths start with a key and part pairwise at
      segments of the same kind is applied alike in every order. */
  lemma {:induction false} PartingSnapshotsAreOrderFree(c: Settings, xs: seq<Entry>, ys: seq<Entry>)
    requires multiset(xs) == multiset(ys)
    requires DistinctKeys(ys)
    requires forall i, j :: 0 <= i < |ys| && 0 <= j < |ys| && i != j ==> ArgsPart(ys[i], ys[j])
    ensures ApplyAll(c, xs) == ApplyAll(c, ys)
  {
    forall i, j | 0 <= i < |ys| && 0 <= j < |ys| && i != j
      ensures Unordered(Names(c.plugins), ys[i], ys[j])
    {
      PartingIsUnordered(Names(c.plugins), ys[i], ys[j]);
    }
    OrderIrrelevant(c, xs, ys);
  }

  lemma NotIndependent(v: Value, w: Value)
    requires v != w
    ensures !Independent([Key("jobs"), Index(0)], v, [Key("jobs"), Index(0)], w)
  {
    assert [Key("jobs"), Index(0)][1..] == [Index(0)] && [Index(0)][1..] == [];
    assert !Independent([Index(0)], v, [Index(0)], w);
  }

  lemma TwoPartPath(a: string, b: string)
    requires '_' !in a && '_' !in b
    ensures ParseKeyPath(a + "_" + b) == [ParseSegment(a), ParseSegment(b)]
  {
    SplitJoin([a, b], '_');
    assert [a, b][1..] == [b];
    assert Join([a, b], '_') == a + "_" + b;
  }

  lemma CollidingPaths()
    ensures ParseKeyPath("JOBS_0") == ParseKeyPath("JOBS_00") == [Key("jobs"), Index(0)]
  {
    TwoPartPath("JOBS", "0");
    TwoPartPath("JOBS", "00");
    assert "JOBS" + "_" + "0" == "JOBS_0" && "JOBS" + "_" + "00" == "JOBS_00";
    assert "00"[..1] == "0";
    assert ParseIndex("0") == ParseIndex("00") == Some(0);
    assert Normalize("JOBS") == "jobs";
    assert "JOBS"[0] == 'J';
  }

  /** Variables with different names can still collide: `JOBS_0` and `JOBS_00` are one path, and then
      the hash map's order decides which value survives. */
  lemma {:induction false} DifferentNamesCanCollide(c: Settings)
    requires c.plugins != [] && c.plugins[0].name == "x"
    ensures
      var e := Entry(PluginArg("X", "JOBS_0"), "1", Scalar("1"));
      var f := Entry(PluginArg("X", "JOBS_00"), "2", Scalar("2"));
      e.key != f.key && ApplyAll(c, [e, f]) != ApplyAll(c, [f, e])
  {
    var e := Entry(PluginArg("X", "JOBS_0"), "1", Scalar("1"));
    var f := Entry(PluginArg("X", "JOBS_00"), "2", Scalar("2"));
    PathsCollide(c, e, f);
    InTwoSteps(c, e, f);
    InTwoSteps(c, f, e);
  }

  lemma {:induction false} PathsCollide(c: Settings, e: Entry, f: Entry)
    requires c.plugins != [] && c.plugins[0].name == "x"
    requires e == Entry(PluginArg("X", "JOBS_0"), "1", Scalar("1"))
    requires f == Entry(PluginArg("X", "JOBS_00"), "2", Scalar("2"))
    ensures Apply(Apply(c, e), f) != Apply(Apply(c, f), e)
  {
    CollidingPaths();
    NotIndependent(e.yaml, f.yaml);
    TagIsX();
    OnePathCollides(c, e, f);
  }

  lemma TagIsX()
    ensures Normalize("X") == "x" == Normalize("x")
  {
  }

  /** Two entries for one path of one plugin, with values that are not independent. */
  lemma {:induction false} OnePathCollides(c: Settings, e: Entry, f: Entry)
    requires e.key.PluginArg? && f.key.PluginArg? && e.key.tag == f.key.tag && c.plugins != []
    requires Normalize(c.plugins[0].name) == Normalize(e.key.tag)
    requires ParseKeyPath(e.key.keyPath) == ParseKeyPath(f.key.keyPath) && ParseKeyPath(e.key.keyPath)[0].Key?
    requires !Independent(ParseKeyPath(e.key.keyPath), e.yaml, ParseKeyPath(f.key.keyPath), f.yaml)
    ensures Apply(Apply(c, e), f) != Apply(Apply(c, f), e)
  {
    assert Names(c.plugins)[0] == c.plugins[0].name;
    assert Find(Names(c.plugins), Normalize(e.key.tag)) == 0;
    SwapIff(c, e, f);
  }

  lemma InTwoSteps(c: Settings, e: Entry, f: Entry)
    ensures ApplyAll(c, [e, f]) == Apply(Apply(c, e), f)
  {
    assert [e, f][1..] == [f] && [f][1..] == [];
    assert ApplyAll(c, [e, f]) == ApplyAll(Apply(c, e), [f]);
    assert ApplyAll(Apply(c, e), [f]) == ApplyAll(Apply(Apply(c, e), f), []);
  }
}
