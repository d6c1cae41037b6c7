/** `${NAME}` and `${NAME:-default}` in configuration text (`substitute_env_vars` in
    src/config/loader.rs): a loop of global replacements meant as one substitution. */
module EnvSubstitution {
  import opened Common

  // -------------------------------------------------- the pattern and its matches

  predicate NameChar(c: char) {
    'A' <= c <= 'Z' || '0' <= c <= '9' || c == '_'
  }

  /** Length of the longest prefix made of name characters. */
  function NameRun(s: string): (n: nat)
    ensures n <= |s| && (forall i :: 0 <= i < n ==> NameChar(s[i])) && (n < |s| ==> !NameChar(s[n]))
  {
    if s != [] && NameChar(s[0]) then 1 + NameRun(s[1..]) else 0
  }

  /** What stands between the braces: a name, alone or with a non-empty default. */
  predicate Inner(s: string) {
    var n := NameRun(s);
    n > 0 && (n == |s| || (|s| > n + 2 && s[n] == ':' && s[n + 1] == '-'))
  }

  predicate NoClose(s: string, n: nat)
    requires n <= |s|
  {
    forall i :: 0 <= i < n ==> s[i] != '}'
  }

  /** A text that the pattern matches from end to end. */
  predicate IsToken(s: string) {
    && |s| > 3 && s[0] == '$' && s[1] == '{' && s[|s| - 1] == '}'
    && NoClose(s, |s| - 1)
    && Inner(s[2..|s| - 1])
  }

  type Token = s: string | IsToken(s) witness "${A}"

  function Name(tok: Token): string
  {
    var inner := tok[2..|tok| - 1];
    inner[..NameRun(inner)]
  }

  function Default(tok: Token): Option<string>
  {
    var inner := tok[2..|tok| - 1];
    var n := NameRun(inner);
    if n == |inner| then None else Some(inner[n + 2..])
  }

  function FirstClose(s: string): (i: nat)
    ensures i <= |s| && NoClose(s, i) && (i < |s| ==> s[i] == '}')
  {
    if s == [] || s[0] == '}' then 0 else 1 + FirstClose(s[1..])
  }

  /** A match can only end at the first closing brace, because neither part of the pattern contains one. */
  function MatchLength(s: string): (n: nat)
    ensures n <= |s| && (n > 0 ==> IsToken(s[..n]))
  {
    var e := FirstClose(s);
    if e < |s| && IsToken(s[..e + 1]) then e + 1 else 0
  }

  lemma MatchIsUnique(s: string, n: nat)
    requires n <= |s| && IsToken(s[..n])
    ensures MatchLength(s) == n
  {
    assert s[n - 1] == '}';
    forall i | 0 <= i < n - 1
      ensures s[i] != '}'
    {
      assert s[..n][i] != '}';
    }
    assert FirstClose(s) == n - 1;
  }

  // ------------------------------------------------------ what a token looks like

  /** Names are made of ASCII upper-case letters (65 to 90), digits (48 to 57) and underscores (95). */
  lemma NameCharsAre(c: char)
    ensures NameChar(c) <==> 65 <= c as int < 65 + 26 || 48 <= c as int < 48 + 10 || c as int == 95
  {
  }

  predicate IsName(n: string) {
    n != [] && forall i :: 0 <= i < |n| ==> NameChar(n[i])
  }

  /** A default is any text without a closing brace, but not the empty one. */
  predicate IsDefault(x: string) {
    x != [] && NoClose(x, |x|)
  }

  function Spelled(n: string, default: Option<string>): string {
    "${" + (n + (if default.Some? then ":-" + default.value else "")) + "}"
  }

  lemma NameEnds(inner: string, n: string)
    requires IsName(n) && n <= inner && (|inner| > |n| ==> !NameChar(inner[|n|]))
    ensures NameRun(inner) == |n|
  {
    assert forall i :: 0 <= i < |n| ==> inner[i] == n[i];
  }

  /** The texts `${NAME}` and `${NAME:-default}` are tokens, with that name and that default. */
  lemma {:induction false} SpelledIsToken(n: string, default: Option<string>)
    requires IsName(n) && (default.Some? ==> IsDefault(default.value))
    ensures IsToken(Spelled(n, default)) && Name(Spelled(n, default)) == n && Default(Spelled(n, default)) == default
  {
    var s := Spelled(n, default);
    var inner := n + (if default.Some? then ":-" + default.value else "");
    assert s[2..|s| - 1] == inner && inner[..|n|] == n;
    NameEnds(inner, n);
    assert default.Some? ==> inner[|n| + 2..] == default.value;
    forall i | 0 <= i < |inner|
      ensures inner[i] != '}'
    {
      assert i < |n| ==> NameChar(inner[i]);
      assert i >= |n| + 2 ==> inner[i] == default.value[i - |n| - 2];
    }
    assert forall i :: 2 <= i < |s| - 1 ==> s[i] == inner[i - 2];
  }

  lemma NoCloseSlice(s: string, i: nat, j: nat)
    requires i <= j <= |s| && NoClose(s, j)
    ensures NoClose(s[i..j], j - i)
  {
  }

  lemma ThreeParts(s: string, n: nat)
    requires n + 2 <= |s| && s[n] == ':' && s[n + 1] == '-'
    ensures s == s[..n] + (":-" + s[n + 2..])
  {
  }

  lemma PrefixIsName(s: string, n: nat)
    requires 0 < n <= |s| && forall i :: 0 <= i < n ==> NameChar(s[i])
    ensures IsName(s[..n])
  {
  }

  /** What stands between the braces is the name and, after `:-`, the default. */
  lemma InnerIsSpelled(inner: string, n: nat)
    requires Inner(inner) && NoClose(inner, |inner|) && n == NameRun(inner)
    ensures 0 < n <= |inner| && IsName(inner[..n])
    ensures n < |inner| ==>
      n + 2 < |inner| && IsDefault(inner[n + 2..]) && inner == inner[..n] + (":-" + inner[n + 2..])
  {
    PrefixIsName(inner, n);
    if n < |inner| {
      NoCloseSlice(inner, n + 2, |inner|);
      ThreeParts(inner, n);
    }
  }

  /** And there are no other tokens. */
  lemma {:induction false} TokenIsSpelled(t: Token)
    ensures IsName(Name(t)) && (Default(t).Some? ==> IsDefault(Default(t).value))
    ensures t == Spelled(Name(t), Default(t))
  {
    var inner := t[2..|t| - 1];
    NoCloseSlice(t, 2, |t| - 1);
    InnerIsSpelled(inner, NameRun(inner));
    assert t == "${" + inner + "}";
    assert Default(t).None? ==> inner == Name(t) + "";
  }

  datatype Piece = Lit(c: char) | Tok(text: Token)

  /** The text cut at its leftmost matches, as the pattern library's iterator yields them. */
  function Pieces(s: string): seq<Piece>
    decreases |s|
  {
    if s == [] then []
    else
      var n := MatchLength(s);
      if n > 0 then [Tok(s[..n])] + Pieces(s[n..]) else [Lit(s[0])] + Pieces(s[1..])
  }

  function Tokens(ps: seq<Piece>): (ts: seq<Token>)
    ensures forall t :: t in ts <==> Tok(t) in ps
  {
    if ps == [] then []
    else (if ps[0].Tok? then [ps[0].text] else []) + Tokens(ps[1..])
  }

  // --------------------------------------------------------- one substitution

  type Env = map<string, string>

  function Lookup(env: Env, tok: Token): Option<string> {
    if Name(tok) in env then Some(env[Name(tok)])
    else Default(tok)
  }

  function Value(env: Env, tok: Token): string {
    match Lookup(env, tok)
    case Some(v) => v
    case None => tok
  }

  /** Every token replaced at once, left to right, or the first name that has no value. */
  function Substitute(env: Env, ps: seq<Piece>): Result<string, string> {
    if ps == [] then Ok("")
    else match ps[0]
      case Lit(c) =>
        (match Substitute(env, ps[1..])
         case Ok(rest) => Ok([c] + rest)
         case Err(e) => Err(e))
      case Tok(t) =>
        if Lookup(env, t).None? then Err(Name(t))
        else
          match Substitute(env, ps[1..])
          case Ok(rest) => Ok(Value(env, t) + rest)
          case Err(e) => Err(e)
  }

  // ------------------------------------------------------- the loader's loop

  /** `str::replace`: all non-overlapping occurrences, left to right. */
  function ReplaceAll(s: string, from: string, to: string): string
    requires from != []
    decreases |s|
  {
    if s == [] then []
    else if from <= s then to + ReplaceAll(s[|from|..], from, to)
    else [s[0]] + ReplaceAll(s[1..], from, to)
  }

  function ReplaceEach(env: Env, toks: seq<Token>, s: string): Result<string, string>
  {
    if toks == [] then Ok(s)
    else if Lookup(env, toks[0]).None? then Err(Name(toks[0]))
    else ReplaceEach(env, toks[1..], ReplaceAll(s, toks[0], Value(env, toks[0])))
  }

  method SubstituteEnvVars(content: string, env: Env) returns (r: Result<string, string>)
    ensures r == ReplaceEach(env, Tokens(Pieces(content)), content)
  {
    var result := content;
    var toks := Tokens(Pieces(content));
    var k := 0;
    while k < |toks|
      invariant k <= |toks|
      invariant ReplaceEach(env, toks[k..], result) == ReplaceEach(env, toks, content)
    {
      var full: Token := toks[k];
      assert toks[k..][0] == full && toks[k..][1..] == toks[k + 1..];
      var value;
      if Name(full) in env {
        value := env[Name(full)];
      } else if Default(full).Some? {
        value := Default(full).value;
      } else {
        return Err(Name(full));
      }
      result := ReplaceAll(result, full, value);
      k := k + 1;
    }
    return Ok(result);
  }

  // ---------------------------------------------- when the loop is one substitution

  predicate OpensAt(s: string, i: int) {
    0 <= i && i + 1 < |s| && s[i] == '$' && s[i + 1] == '{'
  }

  predicate HasOpen(s: string) {
    exists i :: 0 <= i < |s| && OpensAt(s, i)
  }

  predicate AllResolved(env: Env, ps: seq<Piece>) {
    forall p :: p in ps && p.Tok? ==> Lookup(env, p.text).Some?
  }

  /** The text with the tokens in `done` already replaced and the others still in place. */
  function Render(env: Env, ps: seq<Piece>, done: set<Token>): string {
    if ps == [] then []
    else PieceText(env, ps[0], done) + Render(env, ps[1..], done)
  }

  function PieceText(env: Env, p: Piece, done: set<Token>): string {
    match p
    case Lit(c) => [c]
    case Tok(t) => if t in done then Value(env, t) else t
  }

  /** No default hides an opening of its own. */
  ghost predicate PlainTokens(ps: seq<Piece>) {
    forall p :: p in ps && p.Tok? ==> !HasOpen(p.text[1..])
  }

  lemma {:induction false} SkipPlain(s: string, from: string, to: string, n: nat)
    requires n <= |s| && |from| > 1 && OpensAt(from, 0)
    requires forall j :: 0 <= j < n ==> !OpensAt(s, j)
    ensures ReplaceAll(s, from, to) == s[..n] + ReplaceAll(s[n..], from, to)
    decreases n
  {
    if n == 0 {
      assert s[..0] == [] && s[0..] == s;
    } else {
      if from <= s { assert OpensAt(s, 0); }
      forall j | 0 <= j < n - 1
        ensures !OpensAt(s[1..], j)
      {
        assert !OpensAt(s, j + 1);
      }
      SkipPlain(s[1..], from, to, n - 1);
      var tail := ReplaceAll(s[n..], from, to);
      assert s[1..][n - 1..] == s[n..];
      assert [s[0]] + s[1..][..n - 1] == s[..n];
      Assoc([s[0]], s[1..][..n - 1], tail);
    }
  }

  lemma RenderHead(env: Env, ps: seq<Piece>, done: set<Token>)
    requires ps != []
    ensures Render(env, ps, done) == PieceText(env, ps[0], done) + Render(env, ps[1..], done)
  {
  }

  /** A text that is empty or begins with a brace is no token any more, so it is final. */
  lemma FinalIfNoDollar(env: Env, p: Piece, done: set<Token>, all: set<Token>)
    requires done <= all && (PieceText(env, p, done) == [] || PieceText(env, p, done)[0] != '$')
    ensures PieceText(env, p, all) == PieceText(env, p, done)
  {
  }

  /** A brace that begins the rest of a half-replaced text also begins the fully replaced one. */
  lemma {:induction false} LeadingBrace(env: Env, ps: seq<Piece>, done: set<Token>, all: set<Token>)
    requires done <= all
    requires Render(env, ps, done) != [] && Render(env, ps, done)[0] == '{'
    ensures Render(env, ps, all) != [] && Render(env, ps, all)[0] == '{'
    decreases |ps|
  {
    var x, rest := PieceText(env, ps[0], done), ps[1..];
    RenderHead(env, ps, done);
    RenderHead(env, ps, all);
    FinalIfNoDollar(env, ps[0], done, all);
    if x == [] {
      assert x + Render(env, rest, done) == Render(env, rest, done);
      LeadingBrace(env, rest, done, all);
    } else {
      assert (x + Render(env, rest, done))[0] == x[0];
    }
  }

  lemma SuffixHasNoOpen(a: string, b: string)
    requires !HasOpen(a + b)
    ensures !HasOpen(b)
  {
    forall i | 0 <= i < |b|
      ensures !OpensAt(b, i)
    {
      assert !OpensAt(a + b, |a| + i);
    }
  }

  /** Text already final contains no occurrence of a token, not even one reaching into what follows. */
  lemma FinalTextIsPlain(env: Env, ps: seq<Piece>, done: set<Token>, all: set<Token>)
    requires ps != [] && done <= all && PlainTokens(ps)
    requires PieceText(env, ps[0], done) == PieceText(env, ps[0], all)
    requires !HasOpen(Render(env, ps, all))
    ensures forall j :: 0 <= j < |PieceText(env, ps[0], done)| ==> !OpensAt(Render(env, ps, done), j)
  {
    var x := PieceText(env, ps[0], done);
    var half, full := Render(env, ps[1..], done), Render(env, ps[1..], all);
    assert forall p :: p in ps[1..] ==> p in ps;
    forall j | 0 <= j < |x|
      ensures !OpensAt(x + half, j)
    {
      assert !OpensAt(x + full, j);
      if j == |x| - 1 && half != [] && half[0] == '{' {
        LeadingBrace(env, ps[1..], done, all);
      }
    }
  }

  lemma TokensDoNotNest(f: Token, t: Token, rest: string)
    requires f <= t + rest
    ensures f == t
  {
    MatchIsUnique(t + rest, |f|);
    assert (t + rest)[..|t|] == t;
    MatchIsUnique(t + rest, |t|);
  }

  /** No token begins inside another's text, unless that hides an opening. */
  lemma NothingOpensInside(x: Token, rest: string)
    requires !HasOpen(x[1..])
    ensures
      var s := x[1..] + rest;
      forall j :: 0 <= j < |x| - 1 ==> !OpensAt(s, j)
  {
    var inner := x[1..];
    forall j | 0 <= j < |x| - 1
      ensures !OpensAt(inner + rest, j)
    {
      assert !OpensAt(inner, j);
      assert inner[|inner| - 1] == '}';
    }
  }

  lemma SkipToken(x: Token, rest: string, f: Token, to: string)
    requires !HasOpen(x[1..]) && f != x
    ensures ReplaceAll(x + rest, f, to) == x + ReplaceAll(rest, f, to)
  {
    var s, inner, tail := x + rest, x[1..], ReplaceAll(rest, f, to);
    if f <= s { TokensDoNotNest(f, x, rest); }
    assert s[0] == x[0] && s[1..] == inner + rest;
    NothingOpensInside(x, rest);
    SkipPlain(inner + rest, f, to, |inner|);
    assert (inner + rest)[..|inner|] == inner && (inner + rest)[|inner|..] == rest;
    assert [x[0]] + inner == x;
    Assoc([x[0]], inner, tail);
  }

  lemma ReplaceToken(x: Token, rest: string, f: Token, to: string)
    requires !HasOpen(x[1..])
    ensures ReplaceAll(x + rest, f, to) == (if x == f then to else x) + ReplaceAll(rest, f, to)
  {
    if x == f {
      assert (x + rest)[|f|..] == rest && (x + rest)[..|f|] == f;
    } else {
      SkipToken(x, rest, f, to);
    }
  }

  lemma {:induction false} SkipFinal(env: Env, ps: seq<Piece>, done: set<Token>, all: set<Token>, f: Token, to: string)
    requires ps != [] && done <= all && PlainTokens(ps)
    requires PieceText(env, ps[0], done) == PieceText(env, ps[0], all)
    requires !HasOpen(Render(env, ps, all))
    ensures ReplaceAll(Render(env, ps, done), f, to)
         == PieceText(env, ps[0], done) + ReplaceAll(Render(env, ps[1..], done), f, to)
  {
    var x, rest := PieceText(env, ps[0], done), Render(env, ps[1..], done);
    FinalTextIsPlain(env, ps, done, all);
    assert Render(env, ps, done) == x + rest;
    SkipPlain(x + rest, f, to, |x|);
    assert (x + rest)[|x|..] == rest && (x + rest)[..|x|] == x;
  }

  /** A global replacement acts on the first piece and on the rest separately. */
  lemma {:induction false} ReplaceFirst(env: Env, ps: seq<Piece>, done: set<Token>, all: set<Token>, f: Token)
    requires ps != [] && PlainTokens(ps) && done <= all
    requires !HasOpen(Render(env, ps, all))
    requires ps[0].Lit? || ps[0].text in all
    ensures ReplaceAll(Render(env, ps, done), f, Value(env, f))
         == PieceText(env, ps[0], done + {f}) + ReplaceAll(Render(env, ps[1..], done), f, Value(env, f))
  {
    var p, rest := ps[0], Render(env, ps[1..], done);
    assert p in ps;
    if p.Lit? || p.text in done {
      assert PieceText(env, p, done + {f}) == PieceText(env, p, done) == PieceText(env, p, all);
      SkipFinal(env, ps, done, all, f, Value(env, f));
    } else {
      RenderHead(env, ps, done);
      assert PieceText(env, p, done) == p.text;
      assert PieceText(env, p, done + {f}) == if p.text == f then Value(env, f) else p.text;
      ReplaceToken(p.text, rest, f, Value(env, f));
    }
  }

  /** One global replacement replaces exactly the tokens spelled that way. */
  lemma {:induction false} ReplaceOne(env: Env, ps: seq<Piece>, done: set<Token>, all: set<Token>, f: Token)
    requires PlainTokens(ps) && done <= all
    requires !HasOpen(Render(env, ps, all))
    requires forall t :: t in Tokens(ps) ==> t in all
    ensures ReplaceAll(Render(env, ps, done), f, Value(env, f)) == Render(env, ps, done + {f})
    decreases |ps|
  {
    if ps == [] {
    } else {
      assert ps[0] in ps && forall p :: p in ps[1..] ==> p in ps;
      SuffixHasNoOpen(PieceText(env, ps[0], all), Render(env, ps[1..], all));
      ReplaceOne(env, ps[1..], done, all, f);
      ReplaceFirst(env, ps, done, all, f);
    }
  }

  lemma RenderCons(env: Env, p: Piece, ps: seq<Piece>, done: set<Token>)
    ensures Render(env, [p] + ps, done) == PieceText(env, p, done) + Render(env, ps, done)
  {
    assert ([p] + ps)[1..] == ps;
  }

  lemma {:induction false} RenderStart(env: Env, s: string)
    ensures Render(env, Pieces(s), {}) == s
    decreases |s|
  {
    if s == [] {
    } else {
      var n := MatchLength(s);
      var head, rest := if n > 0 then Tok(s[..n]) else Lit(s[0]), if n > 0 then s[n..] else s[1..];
      assert PieceText(env, head, {}) + rest == s;
      RenderStart(env, rest);
      RenderCons(env, head, Pieces(rest), {});
      assert Pieces(s) == [head] + Pieces(rest);
    }
  }

  function Spellings(toks: seq<Token>): set<Token> {
    if toks == [] then {} else {toks[0]} + Spellings(toks[1..])
  }

  lemma {:induction false} SpellingsAre(toks: seq<Token>)
    ensures forall t :: t in Spellings(toks) <==> t in toks
  {
    if toks == [] {
    } else {
      SpellingsAre(toks[1..]);
    }
  }

  predicate AllFound(env: Env, toks: seq<Token>) {
    toks == [] || (Lookup(env, toks[0]).Some? && AllFound(env, toks[1..]))
  }

  lemma {:induction false} ResolvedAreFound(env: Env, ps: seq<Piece>)
    requires AllResolved(env, ps)
    ensures AllFound(env, Tokens(ps))
  {
    if ps == [] {
    } else {
      var p, rest := ps[0], ps[1..];
      assert p in ps && forall q :: q in rest ==> q in ps;
      ResolvedAreFound(env, rest);
      assert p.Tok? ==> ([p.text] + Tokens(rest))[1..] == Tokens(rest);
      assert p.Lit? ==> [] + Tokens(rest) == Tokens(rest);
    }
  }

  lemma {:induction false} ReplaceEachRenders(env: Env, ps: seq<Piece>, toks: seq<Token>, done: set<Token>)
    requires PlainTokens(ps) && !HasOpen(Render(env, ps, done + Spellings(toks)))
    requires Spellings(Tokens(ps)) <= done + Spellings(toks) && AllFound(env, toks)
    ensures ReplaceEach(env, toks, Render(env, ps, done)) == Ok(Render(env, ps, done + Spellings(toks)))
    decreases |toks|
  {
    if toks == [] {
      assert done + Spellings(toks) == done;
    } else {
      var f, rest := toks[0], toks[1..];
      SpellingsAre(Tokens(ps));
      ReplaceOne(env, ps, done, done + Spellings(toks), f);
      assert done + Spellings(toks) == (done + {f}) + Spellings(rest);
      ReplaceEachRenders(env, ps, rest, done + {f});
    }
  }

  lemma {:induction false} SubstituteRenders(env: Env, ps: seq<Piece>, all: set<Token>)
    requires forall p :: p in ps && p.Tok? ==> p.text in all && Lookup(env, p.text).Some?
    ensures Substitute(env, ps) == Ok(Render(env, ps, all))
    decreases |ps|
  {
    if ps == [] {
    } else {
      assert ps[0] in ps && forall p :: p in ps[1..] ==> p in ps;
      SubstituteRenders(env, ps[1..], all);
    }
  }

  /** The loop stops at a name without a value exactly when the substitution does, and names the same one. */
  lemma {:induction false} SameError(env: Env, ps: seq<Piece>, s: string)
    requires !AllResolved(env, ps)
    ensures Substitute(env, ps).Err? && ReplaceEach(env, Tokens(ps), s) == Substitute(env, ps)
    decreases |ps|
  {
    assert ps[0] in ps && forall p :: p in ps[1..] ==> p in ps;
    if ps[0].Tok? {
      var t := ps[0].text;
      assert Tokens(ps)[1..] == Tokens(ps[1..]) && Tokens(ps)[0] == t;
      if Lookup(env, t).Some? {
        SameError(env, ps[1..], ReplaceAll(s, t, Value(env, t)));
      }
    } else {
      assert Tokens(ps) == Tokens(ps[1..]);
      SameError(env, ps[1..], s);
    }
  }

  lemma {:induction false} LoopOverPieces(env: Env, ps: seq<Piece>, s: string)
    requires PlainTokens(ps) && s == Render(env, ps, {})
    requires Substitute(env, ps).Ok? ==> !HasOpen(Substitute(env, ps).value)
    ensures ReplaceEach(env, Tokens(ps), s) == Substitute(env, ps)
  {
    if AllResolved(env, ps) {
      var all := Spellings(Tokens(ps));
      SpellingsAre(Tokens(ps));
      SubstituteRenders(env, ps, all);
      ResolvedAreFound(env, ps);
      assert {} + all == all;
      ReplaceEachRenders(env, ps, Tokens(ps), {});
    } else {
      SameError(env, ps, s);
    }
  }

  /** For every text: if no default contains an opening and the substituted text contains none
      either, the loop of global replacements is the simultaneous substitution. */
  lemma {:induction false} LoopIsSubstitution(env: Env, content: string)
    requires PlainTokens(Pieces(content))
    requires Substitute(env, Pieces(content)).Ok? ==> !HasOpen(Substitute(env, Pieces(content)).value)
    ensures ReplaceEach(env, Tokens(Pieces(content)), content) == Substitute(env, Pieces(content))
  {
    RenderStart(env, content);
    LoopOverPieces(env, Pieces(content), content);
  }

  lemma {:induction false} DollarFree(env: Env, ps: seq<Piece>)
    requires Substitute(env, ps).Ok?
    requires forall p :: p in ps ==> (p.Lit? ==> p.c != '$') && (p.Tok? ==> '$' !in Value(env, p.text))
    ensures '$' !in Substitute(env, ps).value
  {
    if ps == [] {
    } else {
      assert ps[0] in ps && forall p :: p in ps[1..] ==> p in ps;
      DollarFree(env, ps[1..]);
    }
  }

  /** A condition read off the text and the environment: no dollar sign outside the tokens or in a value. */
  lemma {:induction false} DollarFreeTextIsSubstituted(env: Env, content: string)
    requires PlainTokens(Pieces(content))
    requires forall p :: p in Pieces(content) ==> (p.Lit? ==> p.c != '$') && (p.Tok? ==> '$' !in Value(env, p.text))
    ensures ReplaceEach(env, Tokens(Pieces(content)), content) == Substitute(env, Pieces(content))
  {
    if Substitute(env, Pieces(content)).Ok? {
      DollarFree(env, Pieces(content));
      var out := Substitute(env, Pieces(content)).value;
      forall i | 0 <= i < |out|
        ensures !OpensAt(out, i)
      {
        assert out[i] in out;
      }
    }
    LoopIsSubstitution(env, content);
  }

  /** Values hold no dollar sign and no opening brace. */
  ghost predicate HarmlessValues(env: Env, ps: seq<Piece>) {
    forall p :: p in ps && p.Tok? ==> '$' !in Value(env, p.text) && '{' !in Value(env, p.text)
  }

  predicate Vanishes(env: Env, p: Piece) {
    p.Tok? && Value(env, p.text) == []
  }

  /** No dollar sign of the text comes to stand before a brace of the text: between the two there is a
      piece that does not vanish. */
  ghost predicate KeptApart(env: Env, ps: seq<Piece>) {
    forall i, j :: 0 <= i < j < |ps| && ps[i] == Lit('$') && ps[j] == Lit('{') ==>
      exists k :: i < k < j && !Vanishes(env, ps[k])
  }

  function PieceValue(env: Env, p: Piece): string {
    match p
    case Lit(c) => [c]
    case Tok(t) => Value(env, t)
  }

  lemma SubstituteHead(env: Env, ps: seq<Piece>)
    requires ps != [] && Substitute(env, ps).Ok?
    ensures Substitute(env, ps[1..]).Ok?
    ensures Substitute(env, ps).value == PieceValue(env, ps[0]) + Substitute(env, ps[1..]).value
  {
  }

  lemma {:induction false} FirstBrace(env: Env, ps: seq<Piece>) returns (j: nat)
    requires Substitute(env, ps).Ok? && HarmlessValues(env, ps)
    requires Substitute(env, ps).value != [] && Substitute(env, ps).value[0] == '{'
    ensures j < |ps| && ps[j] == Lit('{') && forall k :: 0 <= k < j ==> Vanishes(env, ps[k])
  {
    var x, rest := PieceValue(env, ps[0]), ps[1..];
    SubstituteHead(env, ps);
    assert ps[0] in ps;
    if Vanishes(env, ps[0]) {
      assert x + Substitute(env, rest).value == Substitute(env, rest).value;
      HarmlessRest(env, ps);
      var i := FirstBrace(env, rest);
      j := i + 1;
      forall k | 0 <= k < j
        ensures Vanishes(env, ps[k])
      {
        if k > 0 { assert ps[k] == rest[k - 1]; }
      }
    } else {
      j := 0;
      assert x[0] in x;
    }
  }

  lemma HarmlessRest(env: Env, ps: seq<Piece>)
    requires ps != [] && HarmlessValues(env, ps)
    ensures HarmlessValues(env, ps[1..])
  {
    assert forall p :: p in ps[1..] ==> p in ps;
  }

  lemma JoinedOpening(a: string, b: string)
    requires !HasOpen(a) && !HasOpen(b) && !(a != [] && a[|a| - 1] == '$' && b != [] && b[0] == '{')
    ensures !HasOpen(a + b)
  {
    forall i | 0 <= i < |a + b|
      ensures !OpensAt(a + b, i)
    {
      if i < |a| {
        assert !OpensAt(a, i);
      } else {
        assert !OpensAt(b, i - |a|);
      }
    }
  }

  lemma {:induction false} NothingOpens(env: Env, ps: seq<Piece>)
    requires Substitute(env, ps).Ok? && HarmlessValues(env, ps) && KeptApart(env, ps)
    ensures !HasOpen(Substitute(env, ps).value)
  {
    if ps == [] {
    } else {
      assert ps[0] in ps;
      HarmlessRest(env, ps);
      SubstituteHead(env, ps);
      var x, rest := PieceValue(env, ps[0]), Substitute(env, ps[1..]).value;
      ApartRest(env, ps);
      NothingOpens(env, ps[1..]);
      if ps[0] == Lit('$') && rest != [] && rest[0] == '{' {
        var j := FirstBrace(env, ps[1..]);
      }
      forall i | 0 <= i < |x|
        ensures !OpensAt(x, i)
      {
        assert x[i] in x;
      }
      JoinedOpening(x, rest);
    }
  }

  lemma ApartRest(env: Env, ps: seq<Piece>)
    requires ps != [] && KeptApart(env, ps)
    ensures KeptApart(env, ps[1..])
  {
    var rest := ps[1..];
    forall i, j | 0 <= i < j < |rest| && rest[i] == Lit('$') && rest[j] == Lit('{')
      ensures exists k :: i < k < j && !Vanishes(env, rest[k])
    {
      assert ps[i + 1] == Lit('$') && ps[j + 1] == Lit('{');
      var k :| i + 1 < k < j + 1 && !Vanishes(env, ps[k]);
      assert rest[k - 1] == ps[k];
    }
  }

  /** Conditions read off the text and its values before the loop runs: no default hides an opening, values
      hold neither `$` nor `{`, and the text's own `$` and `{` are kept apart. */
  lemma {:induction false} QuietTextIsSubstituted(env: Env, content: string)
    requires PlainTokens(Pieces(content)) && HarmlessValues(env, Pieces(content)) && KeptApart(env, Pieces(content))
    ensures ReplaceEach(env, Tokens(Pieces(content)), content) == Substitute(env, Pieces(content))
  {
    if Substitute(env, Pieces(content)).Ok? {
      NothingOpens(env, Pieces(content));
    }
    LoopIsSubstitution(env, content);
  }

  lemma ReplaceWhole(f: Token, rest: string, to: string)
    ensures ReplaceAll(f + rest, f, to) == to + ReplaceAll(rest, f, to)
  {
    assert (f + rest)[|f|..] == rest;
  }

  lemma ReplaceTwice(a: Token, b: Token, v: string)
    requires a != b && !HasOpen(b[1..])
    ensures ReplaceAll(ReplaceAll(a + b, a, b), b, v) == v + v
  {
    ReplaceWhole(a, b, b);
    SkipToken(b, "", a, b);
    assert b + "" == b && v + "" == v;
    ReplaceWhole(b, b, v);
    ReplaceWhole(b, "", v);
  }

  lemma TokensOfTwo(a: Token, b: Token)
    ensures Tokens([Tok(a), Tok(b)]) == [a, b]
  {
    assert [Tok(a), Tok(b)][1..] == [Tok(b)] && [Tok(b)][1..] == [];
    assert Tokens([Tok(b)]) == [b] + Tokens([]);
  }

  lemma SubstituteTok(env: Env, t: Token, ps: seq<Piece>)
    requires Lookup(env, t).Some? && Substitute(env, ps).Ok?
    ensures Substitute(env, [Tok(t)] + ps) == Ok(Value(env, t) + Substitute(env, ps).value)
  {
    assert ([Tok(t)] + ps)[1..] == ps;
  }

  lemma ReplaceEachTok(env: Env, t: Token, toks: seq<Token>, s: string)
    requires Lookup(env, t).Some?
    ensures ReplaceEach(env, [t] + toks, s) == ReplaceEach(env, toks, ReplaceAll(s, t, Value(env, t)))
  {
    assert ([t] + toks)[1..] == toks;
  }

  lemma SubstituteTwo(env: Env, a: Token, b: Token)
    requires Lookup(env, a).Some? && Lookup(env, b).Some?
    ensures Substitute(env, [Tok(a), Tok(b)]) == Ok(Value(env, a) + Value(env, b))
  {
    SubstituteTok(env, b, []);
    SubstituteTok(env, a, [Tok(b)] + []);
    assert [Tok(a)] + ([Tok(b)] + []) == [Tok(a), Tok(b)];
    assert Value(env, b) + "" == Value(env, b);
  }

  lemma ReplaceEachTwo(env: Env, a: Token, b: Token, s: string)
    requires Lookup(env, a).Some? && Lookup(env, b).Some?
    ensures ReplaceEach(env, [a, b], s) == Ok(ReplaceAll(ReplaceAll(s, a, Value(env, a)), b, Value(env, b)))
  {
    ReplaceEachTok(env, a, [b], s);
    ReplaceEachTok(env, b, [], ReplaceAll(s, a, Value(env, a)));
    assert [a] + [b] == [a, b] && [b] + [] == [b];
  }

  lemma {:induction false} PiecesOfToken(t: Token, rest: string)
    ensures Pieces(t + rest) == [Tok(t)] + Pieces(rest)
  {
    assert (t + rest)[..|t|] == t && (t + rest)[|t|..] == rest;
    MatchIsUnique(t + rest, |t|);
  }

  /** On the text of a single token the loop gives the variable's value if it is set, otherwise the default,
      and otherwise fails with the name. */
  lemma {:induction false} SingleTokenResult(env: Env, n: string, default: Option<string>)
    requires IsName(n) && (default.Some? ==> IsDefault(default.value))
    ensures
      var text := Spelled(n, default);
      ReplaceEach(env, Tokens(Pieces(text)), text) ==
        if n in env then Ok(env[n]) else if default.Some? then Ok(default.value) else Err(n)
  {
    SpelledIsToken(n, default);
    var t: Token := Spelled(n, default);
    PiecesOfToken(t, "");
    assert t + "" == t && [Tok(t)] + [] == [Tok(t)];
    assert Tokens([Tok(t)]) == [t] by { assert [Tok(t)][1..] == []; }
    if Lookup(env, t).Some? {
      ReplaceEachTok(env, t, [], t);
      ReplaceWhole(t, "", Value(env, t));
      assert [t] + [] == [t] && Value(env, t) + "" == Value(env, t);
    }
  }

  lemma {:induction false} PiecesOfTwo(a: Token, b: Token)
    ensures Pieces(a + b) == [Tok(a), Tok(b)]
  {
    PiecesOfToken(a, b);
    PiecesOfToken(b, "");
    assert b + "" == b && [Tok(b)] + [] == [Tok(b)] && [Tok(a)] + [Tok(b)] == [Tok(a), Tok(b)];
  }

  /** A value that spells a later token is substituted again: on the text of any two tokens, the loop then
      differs from the substitution unless the second value spells the second token. */
  lemma {:induction false} ValueIsSubstitutedAgain(env: Env, a: Token, b: Token)
    requires a != b && !HasOpen(b[1..])
    requires Lookup(env, a) == Some(b) && Lookup(env, b).Some?
    ensures Substitute(env, Pieces(a + b)) == Ok(b + Value(env, b))
    ensures ReplaceEach(env, Tokens(Pieces(a + b)), a + b) == Ok(Value(env, b) + Value(env, b))
    ensures Value(env, b) != b ==> ReplaceEach(env, Tokens(Pieces(a + b)), a + b) != Substitute(env, Pieces(a + b))
  {
    PiecesOfTwo(a, b);
    SubstituteTwo(env, a, b);
    ReplaceEachTwo(env, a, b, a + b);
    TokensOfTwo(a, b);
    ReplaceTwice(a, b, Value(env, b));
    var v := Value(env, b);
    assert (b + v)[|b|..] == v && (b + v)[..|b|] == b;
    assert (v + v)[|v|..] == v && (v + v)[..|v|] == v;
    assert |b + v| == |b| + |v| && |v + v| == |v| + |v|;
  }
}
