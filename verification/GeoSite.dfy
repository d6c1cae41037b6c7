/** Domain categories (src/plugins/geosite.rs): patterns are stored as text and compared as text; what they
    mean is a condition on lists of labels. Case folding is the ASCII one. */
module GeoSite {
  import opened Common
  import opened Text
  import opened Reordering

  datatype DomainSet = DomainSet(exact: set<string>, suffixes: set<string>)

  type Categories = map<string, DomainSet>

  predicate EndsWith(s: string, t: string) {
    |t| <= |s| && s[|s| - |t|..] == t
  }

  /** The test made on text. */
  predicate TextMatches(suffix: string, domain: string) {
    domain == suffix || EndsWith(domain, "." + suffix)
  }

  predicate Matches(ds: DomainSet, domain: string) {
    Lower(domain) in ds.exact || exists s :: s in ds.suffixes && TextMatches(s, Lower(domain))
  }

  method CheckDomain(ds: DomainSet, domain: string) returns (found: bool)
    ensures found == Matches(ds, domain)
  {
    var lower := Lower(domain);
    if lower in ds.exact { return true; }
    var rest := ds.suffixes;
    while rest != {}
      invariant rest <= ds.suffixes
      invariant forall s :: s in ds.suffixes - rest ==> !TextMatches(s, lower)
      decreases |rest|
    {
      var s :| s in rest;
      if TextMatches(s, lower) { return true; }
      rest := rest - {s};
    }
    return false;
  }

  function AddExact(ds: DomainSet, domain: string): DomainSet {
    ds.(exact := ds.exact + {Lower(domain)})
  }

  function WithoutDot(s: string): string {
    if "." <= s then s[1..] else s
  }

  function AddSuffix(ds: DomainSet, suffix: string): DomainSet {
    ds.(suffixes := ds.suffixes + {WithoutDot(Lower(suffix))})
  }

  function AddPattern(ds: DomainSet, pattern: string): DomainSet {
    if "*." <= pattern then AddSuffix(ds, pattern[2..])
    else if "." <= pattern then AddSuffix(ds, pattern[1..])
    else AddExact(ds, pattern)
  }

  // ------------------------------------------------------------------- labels

  function Labels(s: string): seq<string> {
    Split(s, '.')
  }

  predicate SuffixOf<T(==)>(xs: seq<T>, ys: seq<T>) {
    |xs| <= |ys| && ys[|ys| - |xs|..] == xs
  }

  lemma LabelsAreUnique(a: string, b: string)
    requires Labels(a) == Labels(b)
    ensures a == b
  {
    JoinSplit(a, '.');
    JoinSplit(b, '.');
  }

  /** Label lists that continue have the text, a dot, and the rest. */
  lemma LabelsSplitText(xs: seq<string>, suffix: string, s: string)
    requires xs != [] && Labels(s) == xs + Labels(suffix)
    ensures s == Join(xs, '.') + "." + suffix
  {
    var front := Join(xs, '.');
    forall p | p in xs
      ensures '.' !in p
    {
      assert p in Labels(s);
    }
    SplitJoin(xs, '.');
    SplitAppend(front, suffix, '.');
    LabelsAreUnique(s, front + "." + suffix);
  }

  lemma TextGivesLabels(suffix: string, domain: string)
    requires EndsWith(domain, "." + suffix)
    ensures SuffixOf(Labels(suffix), Labels(domain))
  {
    var front := domain[..|domain| - |suffix| - 1];
    assert domain == front + ("." + suffix) == front + "." + suffix;
    SplitAppend(front, suffix, '.');
    assert |Labels(domain)| - |Labels(suffix)| == |Labels(front)|;
  }

  lemma LabelsGiveText(suffix: string, domain: string)
    requires SuffixOf(Labels(suffix), Labels(domain))
    ensures TextMatches(suffix, domain)
  {
    var xs := Labels(domain)[..|Labels(domain)| - |Labels(suffix)|];
    assert Labels(domain) == xs + Labels(suffix);
    if xs == [] {
      LabelsAreUnique(domain, suffix);
    } else {
      LabelsSplitText(xs, suffix, domain);
      assert Join(xs, '.') + "." + suffix == Join(xs, '.') + ("." + suffix);
    }
  }

  /** The dot-boundary test on text is the suffix test on labels, for all strings. */
  lemma TextMatchesIff(suffix: string, domain: string)
    ensures TextMatches(suffix, domain) <==> SuffixOf(Labels(suffix), Labels(domain))
  {
    if EndsWith(domain, "." + suffix) {
      TextGivesLabels(suffix, domain);
    }
    if SuffixOf(Labels(suffix), Labels(domain)) {
      LabelsGiveText(suffix, domain);
    }
  }

  // ----------------------------------------------------- what a pattern means

  function Unrooted(labels: seq<string>): seq<string> {
    if |labels| >= 2 && labels[0] == "" then labels[1..] else labels
  }

  /** `*.x.y` and `.x.y` stand for x.y and everything below it; any other pattern for itself. */
  predicate Means(pattern: string, domain: string) {
    var p, d := Labels(Lower(pattern)), Labels(Lower(domain));
    if |p| >= 2 && (p[0] == "*" || p[0] == "") then SuffixOf(Unrooted(p[1..]), d) else p == d
  }

  lemma HeadLabel(head: string, s: string)
    requires '.' !in head
    ensures head + "." <= s <==> |Labels(s)| >= 2 && Labels(s)[0] == head
    ensures head + "." <= s ==> Labels(s[|head| + 1..]) == Labels(s)[1..]
  {
    SplitJoin([head], '.');
    if head + "." <= s {
      var rest := s[|head| + 1..];
      assert s == head + "." + rest;
      SplitAppend(head, rest, '.');
    }
    if |Labels(s)| >= 2 && Labels(s)[0] == head {
      var tail := Labels(s)[1..];
      assert forall p :: p in tail ==> p in Labels(s);
      SplitJoin(tail, '.');
      assert Labels(s) == [head] + Labels(Join(tail, '.'));
      LabelsSplitText([head], Join(tail, '.'), s);
    }
  }

  lemma UnrootedLabels(s: string)
    ensures Labels(WithoutDot(s)) == Unrooted(Labels(s))
  {
    HeadLabel("", s);
    assert "" + "." == ".";
  }

  lemma LowerTail(s: string, n: nat)
    requires n <= |s|
    ensures Lower(s[n..]) == Lower(s)[n..]
  {
  }

  lemma LowerDots(s: string)
    ensures "*." <= s <==> "*." <= Lower(s)
    ensures "." <= s <==> "." <= Lower(s)
  {
  }

  /** Adding a pattern adds the domains it means, and no others. */
  lemma AddPatternMeans(ds: DomainSet, pattern: string, domain: string)
    ensures Matches(AddPattern(ds, pattern), domain) <==> Matches(ds, domain) || Means(pattern, domain)
  {
    var p, d := Lower(pattern), Lower(domain);
    LowerDots(pattern);
    HeadLabel("*", p);
    HeadLabel("", p);
    assert "*" + "." == "*." && "" + "." == ".";
    if "*." <= pattern {
      LowerTail(pattern, 2);
      SuffixAdded(ds, p[2..], domain);
    } else if "." <= pattern {
      LowerTail(pattern, 1);
      SuffixAdded(ds, p[1..], domain);
    } else {
      if Labels(p) == Labels(d) { LabelsAreUnique(p, d); }
    }
  }

  lemma SuffixAdded(ds: DomainSet, lowered: string, domain: string)
    ensures Matches(ds.(suffixes := ds.suffixes + {WithoutDot(lowered)}), domain)
       <==> Matches(ds, domain) || SuffixOf(Unrooted(Labels(lowered)), Labels(Lower(domain)))
  {
    var s := WithoutDot(lowered);
    UnrootedLabels(lowered);
    TextMatchesIff(s, Lower(domain));
  }

  // ------------------------------------------------------------- lines of text

  /** One usable line. */
  datatype Line = Line(category: string, pattern: string)

  predicate Space(c: char) {
    var n := c as int;
    9 <= n <= 13 || n == 32 || n == 0x85 || n == 0xA0 || n == 0x1680 || 0x2000 <= n <= 0x200A
    || n == 0x2028 || n == 0x2029 || n == 0x202F || n == 0x205F || n == 0x3000
  }

  function TrimStart(s: string): string {
    if s != [] && Space(s[0]) then TrimStart(s[1..]) else s
  }

  function TrimEnd(s: string): string {
    if s != [] && Space(s[|s| - 1]) then TrimEnd(s[..|s| - 1]) else s
  }

  /** `split_whitespace`: maximal runs of other characters. */
  function Words(s: string): seq<string> {
    if s == [] then []
    else if Space(s[0]) then Words(s[1..])
    else
      var rest := Words(s[1..]);
      if |s| >= 2 && !Space(s[1]) && rest != [] then [[s[0]] + rest[0]] + rest[1..] else [[s[0]]] + rest
  }

  /** Blank lines, comments and lines of a single word are skipped. */
  function Parse(text: string): Option<Line> {
    var line := TrimEnd(TrimStart(text));
    if line == [] || line[0] == '#' then None
    else
      var words := Words(line);
      if |words| < 2 then None else Some(Line(words[0], words[1]))
  }

  predicate Blank(s: string) {
    forall i :: 0 <= i < |s| ==> Space(s[i])
  }

  predicate Word(s: string) {
    s != [] && forall i :: 0 <= i < |s| ==> !Space(s[i])
  }

  lemma {:induction false} WordsSkipBlank(gap: string, rest: string)
    requires Blank(gap)
    ensures Words(gap + rest) == Words(rest)
  {
    if gap == [] {
      assert gap + rest == rest;
    } else {
      assert (gap + rest)[1..] == gap[1..] + rest;
      WordsSkipBlank(gap[1..], rest);
    }
  }

  lemma {:induction false} WordsTakeWord(w: string, rest: string)
    requires Word(w) && (rest == [] || Space(rest[0]))
    ensures Words(w + rest) == [w] + Words(rest)
  {
    var s := w + rest;
    assert s[1..] == w[1..] + rest;
    if |w| == 1 {
      assert s[1..] == rest && [s[0]] == w;
    } else {
      WordsTakeWord(w[1..], rest);
      assert [s[0]] + w[1..] == w;
      assert ([w[1..]] + Words(rest))[1..] == Words(rest);
    }
  }

  lemma {:induction false} TrimStartKeepsWords(s: string)
    ensures Words(TrimStart(s)) == Words(s)
    ensures TrimStart(s) != [] ==> !Space(TrimStart(s)[0])
  {
    if s != [] && Space(s[0]) { TrimStartKeepsWords(s[1..]); }
  }

  lemma {:induction false} LastBlankKeepsWords(s: string)
    requires s != [] && Space(s[|s| - 1])
    ensures Words(s[..|s| - 1]) == Words(s)
  {
    if |s| > 1 {
      LastBlankKeepsWords(s[1..]);
      assert s[1..][..|s| - 2] == s[..|s| - 1][1..];
    }
  }

  lemma {:induction false} TrimEndKeepsWords(s: string)
    ensures Words(TrimEnd(s)) == Words(s) && TrimEnd(s) <= s
  {
    if s == [] || !Space(s[|s| - 1]) {
    } else {
      TrimEndKeepsWords(s[..|s| - 1]);
      LastBlankKeepsWords(s);
    }
  }

  lemma {:induction false} FirstWordStarts(s: string)
    requires s != [] && !Space(s[0])
    ensures Words(s) != [] && Words(s)[0] != [] && Words(s)[0][0] == s[0]
  {
  }

  /** For every text: a line is used exactly if it has two words and the first does not begin with `#`. */
  lemma {:induction false} ParseIff(text: string)
    ensures Parse(text).Some? <==> |Words(text)| >= 2 && Words(text)[0] != [] && Words(text)[0][0] != '#'
    ensures Parse(text).Some? ==> Parse(text).value == Line(Words(text)[0], Words(text)[1])
  {
    var started := TrimStart(text);
    var line := TrimEnd(started);
    TrimStartKeepsWords(text);
    TrimEndKeepsWords(started);
    if line != [] {
      FirstWordStarts(line);
    }
  }

  lemma TwoWords(category: string, gap: string, pattern: string, left: string)
    requires Blank(gap) && gap != [] && Word(category) && Word(pattern) && (left == [] || Space(left[0]))
    ensures Words(category + (gap + (pattern + left))) == [category, pattern] + Words(left)
  {
    WordsTakeWord(category, gap + (pattern + left));
    WordsSkipBlank(gap, pattern + left);
    WordsTakeWord(pattern, left);
    Assoc([category], [pattern], Words(left));
    assert [category] + [pattern] == [category, pattern];
  }

  /** A line `<category> <pattern>`, however indented and spaced and whatever follows, is read as such. */
  lemma {:induction false} LineIsRead(lead: string, category: string, gap: string, pattern: string, more: string)
    requires Blank(lead) && Blank(gap) && gap != [] && Word(category) && Word(pattern)
    requires category[0] != '#' && (more == [] || Space(more[0]))
    ensures Parse(lead + (category + (gap + (pattern + more)))) == Some(Line(category, pattern))
  {
    ParseIff(lead + (category + (gap + (pattern + more))));
    WordsSkipBlank(lead, category + (gap + (pattern + more)));
    TwoWords(category, gap, pattern, more);
  }

  function Parsed(texts: seq<string>): seq<Line>
    decreases |texts|
  {
    if texts == [] then []
    else
      var last := |texts| - 1;
      var before := Parsed(texts[..last]);
      match Parse(texts[last]) case None => before case Some(line) => before + [line]
  }

  function Add(cs: Categories, line: Line): Categories {
    var c := Lower(line.category);
    var ds := if c in cs then cs[c] else DomainSet({}, {});
    cs[c := AddPattern(ds, line.pattern)]
  }

  function AddAll(cs: Categories, lines: seq<Line>): Categories
    decreases |lines|
  {
    if lines == [] then cs else Add(AddAll(cs, lines[..|lines| - 1]), lines[|lines| - 1])
  }

  lemma AddAllPush(cs: Categories, lines: seq<Line>, line: Line)
    ensures AddAll(cs, lines + [line]) == Add(AddAll(cs, lines), line)
  {
    assert (lines + [line])[..|lines|] == lines;
  }

  lemma ParsedPush(texts: seq<string>, i: nat)
    requires i < |texts|
    ensures Parsed(texts[..i + 1]) == match Parse(texts[i])
      case None => Parsed(texts[..i])
      case Some(line) => Parsed(texts[..i]) + [line]
  {
    assert texts[..i + 1][..i] == texts[..i];
  }

  class Plugin {
    var categories: Categories

    constructor ()
      ensures categories == map[]
    {
      categories := map[];
    }

    method AddDomain(category: string, domain: string)
      modifies this
      ensures categories == Add(old(categories), Line(category, domain))
    {
      var c := Lower(category);
      if c !in categories {
        categories := categories[c := DomainSet({}, {})];
      }
      categories := categories[c := AddPattern(categories[c], domain)];
    }

    /** `str::lines` splits at line feeds; a carriage return before one is trimmed with the spaces. */
    method LoadFromString(content: string)
      modifies this
      ensures categories == AddAll(old(categories), Parsed(Split(content, '\n')))
    {
      var texts := Split(content, '\n');
      for i := 0 to |texts|
        invariant categories == AddAll(old(categories), Parsed(texts[..i]))
      {
        ParsedPush(texts, i);
        var line := TrimEnd(TrimStart(texts[i]));
        if line == [] || line[0] == '#' { continue; }
        var words := Words(line);
        if |words| < 2 { continue; }
        AddAllPush(old(categories), Parsed(texts[..i]), Line(words[0], words[1]));
        AddDomain(words[0], words[1]);
      }
      assert texts[..|texts|] == texts;
    }

    /** `order` is the order in which the map lists its keys. */
    method Lookup(domain: string, order: seq<string>) returns (r: Option<string>)
      requires forall c :: c in order <==> c in categories
      ensures r.None? <==> forall c :: c in categories ==> !Matches(categories[c], domain)
      ensures r.Some? ==> r.value in categories && Matches(categories[r.value], domain)
    {
      for i := 0 to |order|
        invariant forall k :: 0 <= k < i ==> order[k] in categories && !Matches(categories[order[k]], domain)
      {
        assert order[i] in order;
        var found := CheckDomain(categories[order[i]], domain);
        if found { return Some(order[i]); }
      }
      return None;
    }
  }

  // --------------------------------------------------------- the loaded table

  /** The line puts the domain into category `c`. */
  predicate Assigns(line: Line, c: string, domain: string) {
    Lower(line.category) == c && Means(line.pattern, domain)
  }

  predicate InCategory(cs: Categories, c: string, domain: string) {
    c in cs && Matches(cs[c], domain)
  }

  lemma AddAssigns(cs: Categories, line: Line, c: string, domain: string)
    ensures InCategory(Add(cs, line), c, domain) <==> InCategory(cs, c, domain) || Assigns(line, c, domain)
  {
    if Lower(line.category) == c {
      var ds := if c in cs then cs[c] else DomainSet({}, {});
      AddPatternMeans(ds, line.pattern, domain);
    }
  }

  /** A category holds a domain exactly if it did before or some loaded line says so. */
  lemma {:induction false} LoadedIff(cs: Categories, lines: seq<Line>, c: string, domain: string)
    ensures InCategory(AddAll(cs, lines), c, domain) <==>
      InCategory(cs, c, domain) || exists k :: 0 <= k < |lines| && Assigns(lines[k], c, domain)
    decreases |lines|
  {
    if lines == [] {
    } else {
      var last := |lines| - 1;
      var before := lines[..last];
      LoadedIff(cs, before, c, domain);
      AddAssigns(AddAll(cs, before), lines[last], c, domain);
      assert forall k :: 0 <= k < last ==> lines[k] == before[k];
    }
  }

  /** Looking up in a freshly loaded table finds a category exactly if some line means the domain; the
      answer is one of the categories that a line gives it, and the only one if there is only one. */
  lemma {:induction false} LookupIff(lines: seq<Line>, domain: string, r: Option<string>)
    requires
      var cs := AddAll(map[], lines);
      && (r.None? <==> forall c :: c in cs ==> !Matches(cs[c], domain))
      && (r.Some? ==> r.value in cs && Matches(cs[r.value], domain))
    ensures r.Some? <==> exists k :: 0 <= k < |lines| && Means(lines[k].pattern, domain)
    ensures r.Some? ==> exists k :: 0 <= k < |lines| && Assigns(lines[k], r.value, domain)
    ensures forall c, k ::
      0 <= k < |lines| && Assigns(lines[k], c, domain)
      && (forall j :: 0 <= j < |lines| && Means(lines[j].pattern, domain) ==> Lower(lines[j].category) == c)
      ==> r == Some(c)
  {
    var cs := AddAll(map[], lines);
    if r.Some? {
      LoadedIff(map[], lines, r.value, domain);
      assert InCategory(cs, r.value, domain);
    }
    forall k | 0 <= k < |lines| && Means(lines[k].pattern, domain)
      ensures r.Some?
    {
      var c := Lower(lines[k].category);
      LoadedIff(map[], lines, c, domain);
      assert Assigns(lines[k], c, domain);
    }
  }

  // ----------------------------------------------------------- order of lines

  lemma PatternsSwap(ds: DomainSet, p: string, q: string)
    ensures AddPattern(AddPattern(ds, p), q) == AddPattern(AddPattern(ds, q), p)
  {
  }

  lemma AddSwaps(cs: Categories, a: Line, b: Line)
    ensures Add(Add(cs, a), b) == Add(Add(cs, b), a)
  {
    var c := Lower(a.category);
    if c == Lower(b.category) {
      PatternsSwap(if c in cs then cs[c] else DomainSet({}, {}), a.pattern, b.pattern);
    }
  }

  lemma FoldHead(cs: Categories, line: Line, more: seq<Line>)
    ensures Fold(Add, cs, [line] + more) == Fold(Add, Add(cs, line), more)
  {
    assert ([line] + more)[1..] == more;
  }

  lemma {:induction false} AddAllIsFold(cs: Categories, lines: seq<Line>, more: seq<Line>)
    ensures Fold(Add, AddAll(cs, lines), more) == AddAll(cs, lines + more)
    decreases |more|
  {
    if more == [] {
      assert lines + more == lines;
    } else {
      var first, rest := more[0], more[1..];
      assert more == [first] + rest;
      FoldHead(AddAll(cs, lines), first, rest);
      AddAllPush(cs, lines, first);
      AddAllIsFold(cs, lines + [first], rest);
      Assoc(lines, [first], rest);
    }
  }

  /** The order of the lines does not matter: any permutation loads the same table. */
  lemma {:induction false} LoadOrderIsFree(cs: Categories, lines: seq<Line>, other: seq<Line>)
    requires multiset(lines) == multiset(other)
    ensures AddAll(cs, lines) == AddAll(cs, other)
  {
    var any := (c: Categories) => true;
    var both := (a: Line, b: Line) => true;
    forall s, e, f
      ensures Add(Add(s, e), f) == Add(Add(s, f), e)
    {
      AddSwaps(s, e, f);
    }
    assert Swappable(Add, any, both);
    assert AllSwap(both, other);
    OrderFree(Add, any, both, cs, lines, other);
    AddAllIsFold(cs, [], lines);
    AddAllIsFold(cs, [], other);
    assert [] + lines == lines && [] + other == other;
  }
}
