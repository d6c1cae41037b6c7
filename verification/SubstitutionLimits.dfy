/** Exactly which configuration texts the loop of global replacements (`substitute_env_vars` in
    src/config/loader.rs) treats as one substitution in every environment: those with at most one token. */
module SubstitutionLimits {
  import opened Common
  import opened EnvSubstitution

  // ------------------------------------------------------ one token: they agree

  lemma PrefixIsMatched(t: Token, s: string)
    requires t <= s
    ensures MatchLength(s) == |t| && s[..|t|] == t
  {
    assert s[..|t|] == t;
    MatchIsUnique(s, |t|);
  }

  lemma TokensOfCons(p: Piece, ps: seq<Piece>)
    ensures Tokens([p] + ps) == (if p.Tok? then [p.text] else []) + Tokens(ps)
  {
    assert ([p] + ps)[1..] == ps;
  }

  lemma PiecesHead(s: string)
    requires s != []
    ensures
      var n := MatchLength(s);
      Pieces(s) == if n > 0 then [Tok(s[..n])] + Pieces(s[n..]) else [Lit(s[0])] + Pieces(s[1..])
  {
  }

  lemma SubstituteLit(env: Env, c: char, ps: seq<Piece>)
    requires Substitute(env, ps).Ok?
    ensures Substitute(env, [Lit(c)] + ps) == Ok([c] + Substitute(env, ps).value)
  {
    assert ([Lit(c)] + ps)[1..] == ps;
  }

  lemma SkipOne(s: string, t: Token, z: string)
    requires s != [] && !(t <= s)
    ensures ReplaceAll(s, t, z) == [s[0]] + ReplaceAll(s[1..], t, z)
  {
  }

  predicate Only(ts: seq<Token>, t: Token) {
    ts == [] || (ts[0] == t && Only(ts[1..], t))
  }

  lemma OnlyRest(p: Piece, ps: seq<Piece>, t: Token)
    requires Only(Tokens([p] + ps), t)
    ensures Only(Tokens(ps), t) && (p.Tok? ==> p.text == t)
  {
    TokensOfCons(p, ps);
    var ts := Tokens([p] + ps);
    assert p.Tok? ==> ts[1..] == Tokens(ps);
    assert p.Lit? ==> ts == Tokens(ps);
  }

  function Plain(ps: seq<Piece>): string {
    Render(map[], ps, {})
  }

  /** The token occurs at no literal of the text. */
  ghost predicate OnlyAtTokens(ps: seq<Piece>, t: Token) {
    ps == [] || ((ps[0].Lit? ==> !(t <= Plain(ps))) && OnlyAtTokens(ps[1..], t))
  }

  lemma OnlyAtTokensCons(p: Piece, rest: seq<Piece>, t: Token)
    requires OnlyAtTokens(rest, t) && (p.Lit? ==> !(t <= Plain([p] + rest)))
    ensures OnlyAtTokens([p] + rest, t)
  {
    assert ([p] + rest)[1..] == rest;
  }

  lemma {:induction false} MatchesAreCut(s: string, t: Token)
    ensures OnlyAtTokens(Pieces(s), t)
    decreases |s|
  {
    if s == [] {
    } else {
      var n := MatchLength(s);
      PiecesHead(s);
      RenderStart(map[], s);
      if n > 0 {
        MatchesAreCut(s[n..], t);
        OnlyAtTokensCons(Tok(s[..n]), Pieces(s[n..]), t);
      } else {
        MatchesAreCut(s[1..], t);
        if t <= s { PrefixIsMatched(t, s); }
        OnlyAtTokensCons(Lit(s[0]), Pieces(s[1..]), t);
      }
    }
  }

  lemma PlainCons(p: Piece, rest: seq<Piece>)
    ensures Plain([p] + rest) == (match p case Lit(c) => [c] case Tok(x) => x) + Plain(rest)
  {
    RenderCons(map[], p, rest, {});
  }

  lemma LiteralIsKept(env: Env, c: char, rest: seq<Piece>, t: Token, z: string)
    requires !(t <= Plain([Lit(c)] + rest)) && Substitute(env, rest) == Ok(ReplaceAll(Plain(rest), t, z))
    ensures Substitute(env, [Lit(c)] + rest) == Ok(ReplaceAll(Plain([Lit(c)] + rest), t, z))
  {
    PlainCons(Lit(c), rest);
    SubstituteLit(env, c, rest);
    var s := Plain([Lit(c)] + rest);
    assert s[0] == c && s[1..] == Plain(rest);
    SkipOne(s, t, z);
  }

  lemma TokenIsReplaced(env: Env, t: Token, rest: seq<Piece>, z: string)
    requires Lookup(env, t) == Some(z) && Substitute(env, rest) == Ok(ReplaceAll(Plain(rest), t, z))
    ensures Substitute(env, [Tok(t)] + rest) == Ok(ReplaceAll(Plain([Tok(t)] + rest), t, z))
  {
    PlainCons(Tok(t), rest);
    SubstituteTok(env, t, rest);
    ReplaceWhole(t, Plain(rest), z);
  }

  /** Where all tokens are spelled alike, one global replacement is the substitution. */
  lemma {:induction false} OneSpelling(env: Env, ps: seq<Piece>, t: Token)
    requires Only(Tokens(ps), t) && OnlyAtTokens(ps, t) && Lookup(env, t).Some?
    ensures Substitute(env, ps) == Ok(ReplaceAll(Plain(ps), t, Value(env, t)))
    decreases |ps|
  {
    if ps == [] {
    } else {
      var p, rest := ps[0], ps[1..];
      assert ps == [p] + rest;
      OnlyRest(p, rest, t);
      OneSpelling(env, rest, t);
      match p
      case Lit(c) => LiteralIsKept(env, c, rest, t, Value(env, t));
      case Tok(x) => TokenIsReplaced(env, t, rest, Value(env, t));
    }
  }

  /** The same for a text. */
  lemma {:induction false} OneSpellingOfText(env: Env, s: string, t: Token)
    requires Only(Tokens(Pieces(s)), t) && Lookup(env, t).Some?
    ensures Substitute(env, Pieces(s)) == Ok(ReplaceAll(s, t, Value(env, t)))
  {
    MatchesAreCut(s, t);
    OneSpelling(env, Pieces(s), t);
    RenderStart(map[], s);
  }

  lemma {:induction false} NoTokens(ps: seq<Piece>)
    requires Tokens(ps) == []
    ensures forall p :: p in ps ==> p.Lit?
  {
    if ps == [] {
    } else {
      NoTokens(ps[1..]);
    }
  }

  lemma {:induction false} AtMostOneAgrees(env: Env, content: string)
    requires |Tokens(Pieces(content))| <= 1
    ensures ReplaceEach(env, Tokens(Pieces(content)), content) == Substitute(env, Pieces(content))
  {
    var ps := Pieces(content);
    if !AllResolved(env, ps) {
      SameError(env, ps, content);
    } else if Tokens(ps) == [] {
      NoTokens(ps);
      SubstituteRenders(env, ps, {});
      RenderStart(env, content);
    } else {
      var t := Tokens(ps)[0];
      assert t in Tokens(ps) && Tokens(ps) == [t];
      OneSpellingOfText(env, content, t);
      ReplaceEachTok(env, t, [], content);
      assert [t] + [] == [t];
    }
  }

  // --------------------------------------------------------- counting closings

  function Closings(s: string): nat {
    if s == [] then 0 else (if s[0] == '}' then 1 else 0) + Closings(s[1..])
  }

  lemma {:induction false} ClosingsAppend(a: string, b: string)
    ensures Closings(a + b) == Closings(a) + Closings(b)
  {
    if a == [] {
      assert a + b == b;
    } else {
      assert (a + b)[1..] == a[1..] + b;
      ClosingsAppend(a[1..], b);
    }
  }

  lemma {:induction false} NoClosings(s: string)
    requires NoClose(s, |s|)
    ensures Closings(s) == 0
  {
    if s == [] {
    } else {
      NoClosings(s[1..]);
    }
  }

  lemma TokenClosesOnce(t: Token)
    ensures Closings(t) == 1
  {
    var front := t[..|t| - 1];
    assert t == front + "}";
    ClosingsAppend(front, "}");
    NoClosings(front);
    assert Closings("}") == 1 + Closings("}"[1..]);
  }

  function Repeat(t: string, m: nat): string {
    if m == 0 then [] else t + Repeat(t, m - 1)
  }

  lemma {:induction false} RepeatCloses(t: Token, m: nat)
    ensures Closings(Repeat(t, m)) == m
  {
    if m == 0 {
    } else {
      RepeatCloses(t, m - 1);
      TokenClosesOnce(t);
      ClosingsAppend(t, Repeat(t, m - 1));
    }
  }

  /** How many replacements a global replacement makes. */
  function Hits(s: string, t: Token): nat
    decreases |s|
  {
    if s == [] then 0 else if t <= s then 1 + Hits(s[|t|..], t) else Hits(s[1..], t)
  }

  lemma {:induction false} ReplaceCloses(s: string, t: Token, z: string, m: nat)
    requires Closings(z) == m + 1
    ensures Closings(ReplaceAll(s, t, z)) == Closings(s) + Hits(s, t) * m
    decreases |s|
  {
    if s == [] {
    } else {
      if t <= s {
        var rest := s[|t|..];
        ReplaceCloses(rest, t, z, m);
        TokenClosesOnce(t);
        assert s == t + rest;
        ClosingsAppend(t, rest);
        ClosingsAppend(z, ReplaceAll(rest, t, z));
        assert (1 + Hits(rest, t)) * m == m + Hits(rest, t) * m;
      } else {
        ReplaceCloses(s[1..], t, z, m);
        assert s == [s[0]] + s[1..];
        ClosingsAppend([s[0]], s[1..]);
        ClosingsAppend([s[0]], ReplaceAll(s[1..], t, z));
      }
    }
  }

  // ------------------------------------------------------- counting occurrences

  /** A token cannot overlap an occurrence of itself that starts later. */
  lemma NoOverlap(u: string, t: Token, rest: string)
    requires t <= u + t + rest && u != []
    ensures |t| <= |u|
  {
  }

  /** A global replacement meets every occurrence. */
  lemma {:induction false} OccurrenceIsHit(u: string, t: Token, rest: string)
    ensures Hits(u + t + rest, t) >= 1 + Hits(rest, t)
    decreases |u|
  {
    var s := u + t + rest;
    if u == [] {
      assert s == t + rest && s[|t|..] == rest;
    } else if t <= s {
      NoOverlap(u, t, rest);
      assert s[|t|..] == u[|t|..] + t + rest;
      OccurrenceIsHit(u[|t|..], t, rest);
    } else {
      assert s[1..] == u[1..] + t + rest;
      OccurrenceIsHit(u[1..], t, rest);
    }
  }

  lemma OneMoreHit(u: string, t: Token, copies: string, rest: string)
    ensures Hits(u + (t + copies) + rest, t) >= 1 + Hits(copies + rest, t)
  {
    Assoc(u, t, copies);
    Assoc(u + t, copies, rest);
    OccurrenceIsHit(u, t, copies + rest);
  }

  lemma {:induction false} RepeatIsHit(u: string, t: Token, m: nat, rest: string)
    ensures Hits(u + Repeat(t, m) + rest, t) >= m
    decreases m
  {
    if m == 0 {
    } else {
      var copies := Repeat(t, m - 1);
      RepeatIsHit([], t, m - 1, rest);
      assert [] + copies == copies;
      OneMoreHit(u, t, copies, rest);
    }
  }

  ghost predicate Contains(s: string, z: string) {
    exists u, v :: s == u + z + v
  }

  lemma ContainsAfter(c: char, s: string, z: string)
    requires Contains(s, z)
    ensures Contains([c] + s, z)
  {
    var u, v :| s == u + z + v;
    InFront(c, u, z, v);
    assert [c] + s == ([c] + u) + z + v;
  }

  lemma ContainsFirst(z: string, rest: string)
    ensures Contains(z + rest, z)
  {
    assert z + rest == [] + z + rest;
  }

  /** A global replacement that does anything leaves its value in the text. */
  lemma {:induction false} ReplacedOrSame(s: string, t: Token, z: string)
    ensures if Hits(s, t) == 0 then ReplaceAll(s, t, z) == s else Contains(ReplaceAll(s, t, z), z)
    decreases |s|
  {
    if s == [] {
    } else if t <= s {
      ContainsFirst(z, ReplaceAll(s[|t|..], t, z));
    } else {
      ReplacedOrSame(s[1..], t, z);
      SkipOne(s, t, z);
      if Hits(s[1..], t) > 0 { ContainsAfter(s[0], ReplaceAll(s[1..], t, z), z); }
    }
  }

  // ------------------------------------------------- two tokens: they can differ

  lemma {:induction false} FirstTokenOccurs(ps: seq<Piece>) returns (u: string, v: string)
    requires Tokens(ps) != []
    ensures Render(map[], ps, {}) == u + Tokens(ps)[0] + v
    decreases |ps|
  {
    var rest := ps[1..];
    assert ps == [ps[0]] + rest;
    TokensOfCons(ps[0], rest);
    match ps[0]
    case Tok(t) =>
      u, v := [], Render(map[], rest, {});
      assert [] + t == t;
    case Lit(c) =>
      var x, y := FirstTokenOccurs(rest);
      u, v := [c] + x, y;
      InFront(c, x, Tokens(rest)[0], y);
  }

  lemma InFront(c: char, x: string, t: string, y: string)
    ensures [c] + (x + t + y) == ([c] + x) + t + y
  {
    Assoc([c], x + t, y);
    Assoc([c], x, t);
  }

  /** Every token has the value: the last token, m + 1 times over. */
  ghost predicate AllBecome(env: Env, toks: seq<Token>, z: string) {
    forall i :: 0 <= i < |toks| ==> Lookup(env, toks[i]) == Some(z)
  }

  lemma Times(a: nat, b: nat, m: nat)
    requires a <= b
    ensures a * m <= b * m
  {
  }

  lemma LastMultiplies(s: string, t: Token, z: string, m: nat)
    requires z == Repeat(t, m + 1) && Contains(s, z)
    ensures Closings(ReplaceAll(s, t, z)) >= Closings(s) + (m + 1) * m
  {
    var u, v :| s == u + z + v;
    RepeatIsHit(u, t, m + 1, v);
    RepeatCloses(t, m + 1);
    ReplaceCloses(s, t, z, m);
    Times(m + 1, Hits(s, t), m);
  }

  lemma NeverFewer(s: string, t: Token, z: string, m: nat)
    requires Closings(z) == m + 1 && (Contains(s, z) || Hits(s, t) > 0)
    ensures Closings(ReplaceAll(s, t, z)) >= Closings(s) && Contains(ReplaceAll(s, t, z), z)
  {
    ReplacedOrSame(s, t, z);
    ReplaceCloses(s, t, z, m);
    Times(0, Hits(s, t), m);
  }

  /** Once the value is in the text, the last replacement meets all its copies of the last token. */
  lemma {:induction false} LoopMultiplies(env: Env, toks: seq<Token>, s: string, z: string, m: nat)
    requires toks != [] && z == Repeat(toks[|toks| - 1], m + 1) && AllBecome(env, toks, z) && Contains(s, z)
    ensures ReplaceEach(env, toks, s).Ok?
    ensures Closings(ReplaceEach(env, toks, s).value) >= Closings(s) + (m + 1) * m
    decreases |toks|
  {
    var t, rest := toks[0], toks[1..];
    FirstReplaced(env, toks, s, z);
    if rest == [] {
      LastMultiplies(s, t, z, m);
    } else {
      RepeatCloses(toks[|toks| - 1], m + 1);
      NeverFewer(s, t, z, m);
      LoopMultiplies(env, rest, ReplaceAll(s, t, z), z, m);
    }
  }

  lemma FirstReplaced(env: Env, toks: seq<Token>, s: string, z: string)
    requires toks != [] && AllBecome(env, toks, z)
    ensures ReplaceEach(env, toks, s) == ReplaceEach(env, toks[1..], ReplaceAll(s, toks[0], z))
    ensures AllBecome(env, toks[1..], z) && Lookup(env, toks[0]) == Some(z)
  {
    assert Lookup(env, toks[0]) == Some(z) && [toks[0]] + toks[1..] == toks;
    ReplaceEachTok(env, toks[0], toks[1..], s);
  }

  lemma {:induction false} SubstituteCloses(env: Env, ps: seq<Piece>, z: string, m: nat)
    requires AllBecome(env, Tokens(ps), z) && Closings(z) == m + 1
    ensures Substitute(env, ps).Ok?
    ensures Closings(Substitute(env, ps).value) == Closings(Render(env, ps, {})) + |Tokens(ps)| * m
    decreases |ps|
  {
    if ps == [] {
    } else {
      var p, rest := ps[0], ps[1..];
      assert ps == [p] + rest;
      BecomeRest(env, p, rest, z);
      SubstituteCloses(env, rest, z, m);
      PieceCloses(env, p, rest, z, m);
    }
  }

  lemma PieceCloses(env: Env, p: Piece, rest: seq<Piece>, z: string, m: nat)
    requires Closings(z) == m + 1 && Substitute(env, rest).Ok? && (p.Tok? ==> Lookup(env, p.text) == Some(z))
    requires Closings(Substitute(env, rest).value) == Closings(Render(env, rest, {})) + |Tokens(rest)| * m
    ensures
      var ps := [p] + rest;
      && Substitute(env, ps).Ok?
      && Closings(Substitute(env, ps).value) == Closings(Render(env, ps, {})) + |Tokens(ps)| * m
  {
    TokensOfCons(p, rest);
    RenderCons(env, p, rest, {});
    var done, plain := Substitute(env, rest).value, Render(env, rest, {});
    match p
    case Lit(c) =>
      SubstituteLit(env, c, rest);
      ClosingsAppend([c], done);
      ClosingsAppend([c], plain);
    case Tok(t) =>
      SubstituteTok(env, t, rest);
      TokenAdds(t, z, done, plain, |Tokens(rest)|, m);
  }

  lemma BecomeRest(env: Env, p: Piece, rest: seq<Piece>, z: string)
    requires AllBecome(env, Tokens([p] + rest), z)
    ensures AllBecome(env, Tokens(rest), z) && (p.Tok? ==> Lookup(env, p.text) == Some(z))
  {
    TokensOfCons(p, rest);
    var all := Tokens([p] + rest);
    assert p.Tok? ==> Lookup(env, all[0]) == Some(z);
    forall i | 0 <= i < |Tokens(rest)|
      ensures Lookup(env, Tokens(rest)[i]) == Some(z)
    {
      assert Tokens(rest)[i] == all[if p.Tok? then i + 1 else i];
    }
  }

  lemma TokenAdds(t: Token, z: string, done: string, plain: string, n: nat, m: nat)
    requires Closings(z) == m + 1 && Closings(done) == Closings(plain) + n * m
    ensures Closings(z + done) == Closings(t + plain) + (n + 1) * m
  {
    ClosingsAppend(z, done);
    ClosingsAppend(t, plain);
    TokenClosesOnce(t);
    assert (n + 1) * m == n * m + m;
  }

  /** The environment that gives every token the same value. */
  function Uniform(toks: seq<Token>, z: string): (env: Env)
    ensures forall i :: 0 <= i < |toks| ==> Name(toks[i]) in env
    ensures forall n :: n in env ==> env[n] == z
  {
    if toks == [] then map[] else Uniform(toks[1..], z)[Name(toks[0]) := z]
  }

  lemma UniformGivesAll(toks: seq<Token>, z: string)
    ensures AllBecome(Uniform(toks, z), toks, z)
  {
    forall i | 0 <= i < |toks|
      ensures Lookup(Uniform(toks, z), toks[i]) == Some(z)
    {
      assert Name(toks[i]) in Uniform(toks, z);
    }
  }

  /** Give every token the last one, many times over: the loop replaces the copies as well. */
  lemma {:induction false} LoopOutgrows(
    env: Env, t: Token, rest: seq<Token>, u: string, v: string, z: string, m: nat)
    requires rest != [] && z == Repeat(rest[|rest| - 1], m + 1) && Lookup(env, t) == Some(z) && AllBecome(env, rest, z)
    ensures
      var r := ReplaceEach(env, [t] + rest, u + t + v);
      r.Ok? && Closings(r.value) >= Closings(u + t + v) + (m + 1) * m
  {
    RepeatCloses(rest[|rest| - 1], m + 1);
    FirstHitLeavesValue(u, t, v, z, m);
    ReplaceEachTok(env, t, rest, u + t + v);
    LoopMultiplies(env, rest, ReplaceAll(u + t + v, t, z), z, m);
  }

  lemma FirstHitLeavesValue(u: string, t: Token, v: string, z: string, m: nat)
    requires Closings(z) == m + 1
    ensures
      var s := u + t + v;
      Closings(ReplaceAll(s, t, z)) >= Closings(s) && Contains(ReplaceAll(s, t, z), z)
  {
    OccurrenceIsHit(u, t, v);
    NeverFewer(u + t + v, t, z, m);
  }

  lemma MoreClosings(a: string, b: string, base: nat, m: nat)
    requires m > 0 && Closings(a) >= base + (m + 1) * m && Closings(b) == base + m * m
    ensures a != b
  {
    assert (m + 1) * m == m * m + m;
  }

  lemma {:induction false} TwoCanDiffer(content: string) returns (env: Env)
    requires |Tokens(Pieces(content))| >= 2
    ensures ReplaceEach(env, Tokens(Pieces(content)), content) != Substitute(env, Pieces(content))
  {
    RenderStart(map[], content);
    env := DifferOn(Pieces(content));
  }

  lemma {:induction false} DifferOn(ps: seq<Piece>) returns (env: Env)
    requires |Tokens(ps)| >= 2
    ensures ReplaceEach(env, Tokens(ps), Plain(ps)) != Substitute(env, ps)
  {
    var m := |Tokens(ps)|;
    var z := Repeat(Tokens(ps)[m - 1], m + 1);
    env := Uniform(Tokens(ps), z);
    UniformGivesAll(Tokens(ps), z);
    LoopCloses(env, ps, z, m);
    SubstitutionCloses(env, ps, z, m);
    MoreClosings(ReplaceEach(env, Tokens(ps), Plain(ps)).value, Substitute(env, ps).value, Closings(Plain(ps)), m);
  }

  lemma {:induction false} LoopCloses(env: Env, ps: seq<Piece>, z: string, m: nat)
    requires |Tokens(ps)| >= 2 && z == Repeat(Tokens(ps)[|Tokens(ps)| - 1], m + 1) && AllBecome(env, Tokens(ps), z)
    ensures
      var r := ReplaceEach(env, Tokens(ps), Plain(ps));
      r.Ok? && Closings(r.value) >= Closings(Plain(ps)) + (m + 1) * m
  {
    var u, v := FirstTokenOccurs(ps);
    var t, rest := Tokens(ps)[0], Tokens(ps)[1..];
    assert Tokens(ps) == [t] + rest;
    FirstReplaced(env, Tokens(ps), Plain(ps), z);
    LoopOutgrows(env, t, rest, u, v, z, m);
  }

  lemma {:induction false} SubstitutionCloses(env: Env, ps: seq<Piece>, z: string, m: nat)
    requires Tokens(ps) != [] && z == Repeat(Tokens(ps)[|Tokens(ps)| - 1], m + 1) && AllBecome(env, Tokens(ps), z)
    ensures Substitute(env, ps).Ok? && Closings(Substitute(env, ps).value) == Closings(Plain(ps)) + |Tokens(ps)| * m
  {
    RepeatCloses(Tokens(ps)[|Tokens(ps)| - 1], m + 1);
    SubstituteCloses(env, ps, z, m);
    RenderIgnoresEnv(env, map[], ps);
  }

  lemma {:induction false} RenderIgnoresEnv(env: Env, other: Env, ps: seq<Piece>)
    ensures Render(env, ps, {}) == Render(other, ps, {})
  {
    if ps == [] {
    } else {
      RenderIgnoresEnv(env, other, ps[1..]);
    }
  }

  /** For every text: the loop is the simultaneous substitution in all environments exactly if the text
      holds at most one token. */
  lemma {:induction false} AlwaysAgreesIff(content: string)
    ensures (forall env: Env :: ReplaceEach(env, Tokens(Pieces(content)), content) == Substitute(env, Pieces(content)))
       <==> |Tokens(Pieces(content))| <= 1
  {
    if |Tokens(Pieces(content))| <= 1 {
      forall env: Env
        ensures ReplaceEach(env, Tokens(Pieces(content)), content) == Substitute(env, Pieces(content))
      {
        AtMostOneAgrees(env, content);
      }
    } else {
      var env := TwoCanDiffer(content);
    }
  }
}
