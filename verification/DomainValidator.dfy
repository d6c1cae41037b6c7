/** The domain validator plugin (src/plugins/domain_validator.rs): the verdict on a name, and the
    cache of verdicts that concurrent requests share. */
module DomainValidator {
  import opened Common
  import opened DnsTypes
  import opened Text

  const DOT: byte := 46
  const HYPHEN: byte := 45
  const UNDERSCORE: byte := 95

  datatype Fault = Length | Characters | Format

  datatype Verdict = Valid | Invalid(fault: Fault)

  predicate Alphanumeric(b: byte) {
    48 <= b <= 57 || 65 <= b <= 90 || 97 <= b <= 122
  }

  function Char(b: byte): char {
    b as int as char
  }

  /** ASCII letters and digits. */
  lemma AlphanumericIff(b: byte)
    ensures Alphanumeric(b) <==> 'A' <= Char(b) <= 'Z' || 'a' <= Char(b) <= 'z' || '0' <= Char(b) <= '9'
  {
  }

  predicate ServiceBinding(qtype: Option<RecordType>) {
    qtype == Some(SVCB) || qtype == Some(HTTPS)
  }

  predicate DoubleHyphen(l: Bytes) {
    exists i :: 0 <= i < |l| - 1 && l[i] == HYPHEN && l[i + 1] == HYPHEN
  }

  predicate Punycode(l: Bytes) {
    |l| >= 5 && l[0] in {88, 120} && l[1] in {78, 110} && l[2] == HYPHEN && l[3] == HYPHEN
  }

  /** The label begins with `xn--` in any case, and goes on: section 2.3.2.1 of RFC 5890. */
  lemma PunycodeIff(l: Bytes)
    ensures Punycode(l) <==> |l| > 4 && Lower([Char(l[0]), Char(l[1]), Char(l[2]), Char(l[3])]) == "xn--"
  {
    if |l| > 4 {
      var s := [Char(l[0]), Char(l[1]), Char(l[2]), Char(l[3])];
      var r := Lower(s);
      assert r == "xn--" <==> r[0] == 'x' && r[1] == 'n' && r[2] == '-' && r[3] == '-';
    }
  }

  /** Types 64 and 65 are the service binding types. */
  lemma ServiceBindingIff(qtype: Option<RecordType>)
    ensures ServiceBinding(qtype) <==> qtype == Some(TypeFromCode(64)) || qtype == Some(TypeFromCode(65))
  {
  }

  // -------------------------------------------------- what is asked of a name

  /** May byte `i` of the label be what it is? An underscore only leads a service label. */
  predicate ByteOk(svc: bool, l: Bytes, i: nat)
    requires i < |l|
  {
    || Alphanumeric(l[i])
    || (0 < i < |l| - 1 && l[i] == HYPHEN)
    || (svc && i == 0 && |l| > 1 && l[0] == UNDERSCORE)
  }

  predicate LabelOk(strict: bool, svc: bool, l: Bytes) {
    && 1 <= |l| <= 63
    && (forall i :: 0 <= i < |l| ==> ByteOk(svc, l, i))
    && (strict && DoubleHyphen(l) ==> Punycode(l))
  }

  /** The fault reported for a label: length before characters before format. */
  function LabelVerdict(strict: bool, svc: bool, l: Bytes): (v: Verdict)
    ensures v == Valid <==> LabelOk(strict, svc, l)
  {
    if !(1 <= |l| <= 63) then Invalid(Length)
    else if exists i :: 0 <= i < |l| && !ByteOk(svc, l, i) then Invalid(Characters)
    else if strict && DoubleHyphen(l) && !Punycode(l) then Invalid(Format)
    else Valid
  }

  /** The verdict of the first label that has one, in order. */
  function FirstFault(strict: bool, svc: bool, labels: seq<Bytes>): Verdict {
    if labels == [] then Valid
    else if LabelVerdict(strict, svc, labels[0]) != Valid then LabelVerdict(strict, svc, labels[0])
    else FirstFault(strict, svc, labels[1..])
  }

  function VerdictOf(strict: bool, svc: bool, domain: Bytes): Verdict {
    if !(1 <= |domain| <= 253) then Invalid(Length)
    else if domain == [DOT] then Valid
    else FirstFault(strict, svc, Split(domain, DOT))
  }

  // ------------------------------------------------------- the plugin's loops

  method ValidateDomain(strict: bool, domain: Bytes, qtype: Option<RecordType>) returns (v: Verdict)
    ensures v == VerdictOf(strict, ServiceBinding(qtype), domain)
  {
    if |domain| == 0 || |domain| > 253 {
      return Invalid(Length);
    }
    if domain == [DOT] {
      return Valid;
    }
    var labels := Split(domain, DOT);
    ghost var whole := FirstFault(strict, ServiceBinding(qtype), labels);
    var k := 0;
    assert labels[0..] == labels;
    while k < |labels|
      invariant k <= |labels|
      invariant FirstFault(strict, ServiceBinding(qtype), labels[k..]) == whole
    {
      assert labels[k..][0] == labels[k] && labels[k..][1..] == labels[k + 1..];
      v := ValidateLabel(strict, labels[k], qtype);
      if v != Valid {
        return;
      }
      k := k + 1;
    }
    v := Valid;
  }

  method ValidateLabel(strict: bool, l: Bytes, qtype: Option<RecordType>) returns (v: Verdict)
    ensures v == LabelVerdict(strict, ServiceBinding(qtype), l)
  {
    ghost var svc := ServiceBinding(qtype);
    if l == [] || |l| > 63 {
      return Invalid(Length);
    }
    var first := l[0];
    if !Alphanumeric(first) {
      var allowUnderscore := first == UNDERSCORE && (qtype == Some(SVCB) || qtype == Some(HTTPS));
      if !allowUnderscore {
        assert !ByteOk(svc, l, 0);
        return Invalid(Characters);
      }
    }
    var last := l[|l| - 1];
    if !Alphanumeric(last) {
      assert !ByteOk(svc, l, |l| - 1);
      return Invalid(Characters);
    }
    if |l| > 2 {
      var i := 1;
      while i < |l| - 1
        invariant 1 <= i <= |l| - 1
        invariant forall j :: 0 <= j < i ==> ByteOk(svc, l, j)
      {
        if !Alphanumeric(l[i]) && l[i] != HYPHEN {
          assert !ByteOk(svc, l, i);
          return Invalid(Characters);
        }
        i := i + 1;
      }
    }
    assert forall j :: 0 <= j < |l| ==> ByteOk(svc, l, j);
    var doubled := HasDoubleHyphen(l);
    if strict && doubled && !Punycode(l) {
      return Invalid(Format);
    }
    return Valid;
  }

  method HasDoubleHyphen(l: Bytes) returns (r: bool)
    ensures r == DoubleHyphen(l)
  {
    var i := 0;
    while i + 1 < |l|
      invariant i == 0 || 0 < i < |l|
      invariant forall j :: 0 <= j < i ==> !(l[j] == HYPHEN && l[j + 1] == HYPHEN)
    {
      if l[i] == HYPHEN && l[i + 1] == HYPHEN {
        return true;
      }
      i := i + 1;
    }
    return false;
  }

  // ------------------------------------------- how much the question type matters

  predicate LengthOk(l: Bytes) {
    1 <= |l| <= 63
  }

  predicate BytesOk(svc: bool, l: Bytes) {
    forall i :: 0 <= i < |l| ==> ByteOk(svc, l, i)
  }

  /** The label shows this fault and none that is looked for earlier. */
  predicate Shows(strict: bool, svc: bool, l: Bytes, f: Fault) {
    match f
    case Length => !LengthOk(l)
    case Characters => LengthOk(l) && !BytesOk(svc, l)
    case Format => LengthOk(l) && BytesOk(svc, l) && strict && DoubleHyphen(l) && !Punycode(l)
  }

  /** Label `k` shows the fault and all labels before it are legal. */
  predicate ShowsAt(strict: bool, svc: bool, labels: seq<Bytes>, k: nat, f: Fault) {
    k < |labels| && Shows(strict, svc, labels[k], f) && forall i :: 0 <= i < k ==> LabelOk(strict, svc, labels[i])
  }

  /** The first faulty label shows this fault. */
  ghost predicate FirstShows(strict: bool, svc: bool, labels: seq<Bytes>, f: Fault) {
    exists k: nat :: ShowsAt(strict, svc, labels, k, f)
  }

  lemma {:induction false} FirstFaultIff(strict: bool, svc: bool, labels: seq<Bytes>, f: Fault)
    ensures FirstFault(strict, svc, labels) == Invalid(f) <==> FirstShows(strict, svc, labels, f)
  {
    if labels == [] {
    } else {
      var rest := labels[1..];
      FirstFaultIff(strict, svc, rest, f);
      if Shows(strict, svc, labels[0], f) {
        assert ShowsAt(strict, svc, labels, 0, f);
      } else if LabelOk(strict, svc, labels[0]) {
        ShowsAtRest(strict, svc, labels, f);
      }
    }
  }

  lemma ShowsAtRest(strict: bool, svc: bool, labels: seq<Bytes>, f: Fault)
    requires labels != [] && LabelOk(strict, svc, labels[0])
    ensures FirstShows(strict, svc, labels, f) <==> FirstShows(strict, svc, labels[1..], f)
  {
    var rest := labels[1..];
    if k: nat :| ShowsAt(strict, svc, labels, k, f) {
      assert k > 0;
      assert forall i :: 0 <= i < k - 1 ==> rest[i] == labels[i + 1];
      assert ShowsAt(strict, svc, rest, k - 1, f);
    }
    if k: nat :| ShowsAt(strict, svc, rest, k, f) {
      assert forall i :: 0 < i < k + 1 ==> labels[i] == rest[i - 1];
      assert ShowsAt(strict, svc, labels, k + 1, f);
    }
  }

  /** Which fault is reported: the length of the name first, and then the first faulty label's, its length
      before its characters before its format. */
  lemma {:induction false} FaultIff(strict: bool, svc: bool, domain: Bytes, f: Fault)
    requires domain != [DOT]
    ensures 1 <= |domain| <= 253 ==>
      (VerdictOf(strict, svc, domain) == Invalid(f) <==> FirstShows(strict, svc, Split(domain, DOT), f))
    ensures !(1 <= |domain| <= 253) ==> VerdictOf(strict, svc, domain) == Invalid(Length)
  {
    var labels := Split(domain, DOT);
    FirstFaultIff(strict, svc, labels, f);
    assert 1 <= |domain| <= 253 ==> VerdictOf(strict, svc, domain) == FirstFault(strict, svc, labels);
  }

  lemma {:induction false} FirstFaultValid(strict: bool, svc: bool, labels: seq<Bytes>)
    ensures FirstFault(strict, svc, labels) == Valid <==> forall l :: l in labels ==> LabelOk(strict, svc, l)
  {
    if labels == [] {
    } else {
      FirstFaultValid(strict, svc, labels[1..]);
    }
  }

  /** A name is accepted exactly when it is the root or has a legal length and only legal labels. */
  lemma {:induction false} AcceptedIff(strict: bool, svc: bool, domain: Bytes)
    ensures VerdictOf(strict, svc, domain) == Valid <==>
      domain == [DOT] || (1 <= |domain| <= 253 && forall l :: l in Split(domain, DOT) ==> LabelOk(strict, svc, l))
  {
    FirstFaultValid(strict, svc, Split(domain, DOT));
  }

  predicate LeadsUnderscore(l: Bytes) {
    1 <= |l| <= 63 && l[0] == UNDERSCORE
  }

  lemma LabelVerdictsAgree(strict: bool, l: Bytes)
    ensures !LeadsUnderscore(l) ==> LabelVerdict(strict, true, l) == LabelVerdict(strict, false, l)
    ensures LeadsUnderscore(l) ==> LabelVerdict(strict, false, l) == Invalid(Characters)
  {
    if LeadsUnderscore(l) {
      assert !ByteOk(false, l, 0);
    } else if 1 <= |l| <= 63 {
      assert forall i :: 0 <= i < |l| ==> ByteOk(true, l, i) == ByteOk(false, l, i);
    }
  }

  /** Label `k` leads with an underscore and all labels before it are legal for every question. */
  predicate UnderscoreAt(strict: bool, labels: seq<Bytes>, k: nat) {
    k < |labels| && LeadsUnderscore(labels[k]) && forall i :: 0 <= i < k ==> LabelOk(strict, false, labels[i])
  }

  /** Label `m` has a legal length but a character that even a service question does not allow, and all
      labels before it are legal for a service question. */
  predicate BadCharacterAt(strict: bool, labels: seq<Bytes>, m: nat) {
    && m < |labels| && 1 <= |labels[m]| <= 63 && (exists i :: 0 <= i < |labels[m]| && !ByteOk(true, labels[m], i))
    && forall i :: 0 <= i < m ==> LabelOk(strict, true, labels[i])
  }

  ghost predicate Reached(strict: bool, labels: seq<Bytes>) {
    exists k: nat :: UnderscoreAt(strict, labels, k)
  }

  ghost predicate Spoiled(strict: bool, labels: seq<Bytes>) {
    exists m: nat :: BadCharacterAt(strict, labels, m)
  }

  lemma ReachedStep(strict: bool, labels: seq<Bytes>)
    requires labels != []
    ensures Reached(strict, labels) <==>
      LeadsUnderscore(labels[0]) || (LabelOk(strict, false, labels[0]) && Reached(strict, labels[1..]))
  {
    var rest := labels[1..];
    if LeadsUnderscore(labels[0]) { assert UnderscoreAt(strict, labels, 0); }
    if LabelOk(strict, false, labels[0]) && Reached(strict, rest) {
      var k: nat :| UnderscoreAt(strict, rest, k);
      assert forall i :: 0 < i < k + 1 ==> labels[i] == rest[i - 1];
      assert UnderscoreAt(strict, labels, k + 1);
    }
    if Reached(strict, labels) && !LeadsUnderscore(labels[0]) {
      var k: nat :| UnderscoreAt(strict, labels, k);
      assert forall i :: 0 <= i < k - 1 ==> rest[i] == labels[i + 1];
      assert UnderscoreAt(strict, rest, k - 1);
    }
  }

  lemma SpoiledStep(strict: bool, labels: seq<Bytes>)
    requires labels != []
    ensures Spoiled(strict, labels) <==>
      BadCharacterAt(strict, labels, 0) || (LabelOk(strict, true, labels[0]) && Spoiled(strict, labels[1..]))
  {
    var rest := labels[1..];
    if LabelOk(strict, true, labels[0]) && Spoiled(strict, rest) {
      var m: nat :| BadCharacterAt(strict, rest, m);
      assert forall i :: 0 < i < m + 1 ==> labels[i] == rest[i - 1];
      assert BadCharacterAt(strict, labels, m + 1);
    }
    if Spoiled(strict, labels) && !BadCharacterAt(strict, labels, 0) {
      var m: nat :| BadCharacterAt(strict, labels, m);
      assert forall i :: 0 <= i < m - 1 ==> rest[i] == labels[i + 1];
      assert BadCharacterAt(strict, rest, m - 1);
    }
  }

  /** The service verdict is a character fault exactly if some label spoils the name. */
  lemma {:induction false} CharacterFaultIff(strict: bool, labels: seq<Bytes>)
    ensures FirstFault(strict, true, labels) == Invalid(Characters) <==> Spoiled(strict, labels)
  {
    if labels == [] {
    } else {
      SpoiledStep(strict, labels);
      CharacterFaultIff(strict, labels[1..]);
    }
  }

  lemma {:induction false} ReachedFaults(strict: bool, labels: seq<Bytes>)
    ensures Reached(strict, labels) ==> FirstFault(strict, false, labels) == Invalid(Characters)
    ensures !Reached(strict, labels) ==> FirstFault(strict, true, labels) == FirstFault(strict, false, labels)
  {
    if labels == [] {
    } else {
      ReachedStep(strict, labels);
      LabelVerdictsAgree(strict, labels[0]);
      ReachedFaults(strict, labels[1..]);
    }
  }

  /** The question type matters exactly if an underscore label is reached and no label is spoiled. */
  lemma {:induction false} FaultsDifferIff(strict: bool, labels: seq<Bytes>)
    ensures FirstFault(strict, true, labels) != FirstFault(strict, false, labels)
       <==> Reached(strict, labels) && !Spoiled(strict, labels)
  {
    ReachedFaults(strict, labels);
    CharacterFaultIff(strict, labels);
  }

  /** The names whose verdict depends on the question type, told from the labels alone. */
  ghost predicate Sensitive(strict: bool, domain: Bytes) {
    && 1 <= |domain| <= 253
    && Reached(strict, Split(domain, DOT))
    && !Spoiled(strict, Split(domain, DOT))
  }

  lemma {:induction false} SensitiveIff(strict: bool, domain: Bytes)
    ensures Sensitive(strict, domain) <==> VerdictOf(strict, true, domain) != VerdictOf(strict, false, domain)
  {
    if 1 <= |domain| <= 253 {
      FaultsDifferIff(strict, Split(domain, DOT));
      if domain == [DOT] {
        assert domain[1..] == [];
        assert Split(domain, DOT) == [[]] + Split<byte>([], DOT);
        assert forall k :: 0 <= k < |Split(domain, DOT)| ==> Split(domain, DOT)[k] == [];
      }
    }
  }

  lemma PlainNamesAreNotReached(strict: bool, labels: seq<Bytes>)
    requires forall l :: l in labels ==> l == [] || l[0] != UNDERSCORE
    ensures !Reached(strict, labels)
  {
    forall k | 0 <= k < |labels|
      ensures !LeadsUnderscore(labels[k])
    {
      assert labels[k] in labels;
    }
  }

  // ------------------------------------------------------------------ cache

  /** Cached verdicts, most recently used first. */
  type Cache = seq<(Bytes, Verdict)>

  function Capacity(cacheSize: nat): (n: nat)
    ensures n > 0 && (cacheSize > 0 ==> n == cacheSize) && n <= cacheSize + 1
  {
    if cacheSize > 0 then cacheSize else 1
  }

  function Without(c: Cache, k: Bytes): (r: Cache)
    ensures |r| <= |c|
    ensures forall e :: e in r <==> e in c && e.0 != k
  {
    if c == [] then [] else (if c[0].0 == k then [] else [c[0]]) + Without(c[1..], k)
  }

  function Find(c: Cache, k: Bytes): (r: Option<Verdict>)
    ensures r.Some? ==> (k, r.value) in c
    ensures r.None? ==> forall e :: e in c ==> e.0 != k
  {
    if c == [] then None else if c[0].0 == k then Some(c[0].1) else Find(c[1..], k)
  }

  /** A hit moves the entry to the front. */
  function Touch(c: Cache, k: Bytes): Cache {
    match Find(c, k)
    case Some(v) => [(k, v)] + Without(c, k)
    case None => c
  }

  /** A store replaces the entry of the same name, or evicts the least recently used one when full. */
  function Put(capacity: nat, c: Cache, k: Bytes, v: Verdict): Cache
    requires capacity > 0
  {
    if Find(c, k).Some? then [(k, v)] + Without(c, k)
    else [(k, v)] + (if |c| < capacity then c else c[..capacity - 1])
  }

  /** No name has two entries. */
  ghost predicate Distinct(c: Cache) {
    c == [] || ((forall e :: e in c[1..] ==> e.0 != c[0].0) && Distinct(c[1..]))
  }

  lemma {:induction false} WithoutShrinks(c: Cache, k: Bytes)
    requires Distinct(c)
    ensures Distinct(Without(c, k))
    ensures Find(c, k).Some? ==> |Without(c, k)| < |c|
  {
    if c == [] {
    } else {
      var first, rest := c[0], Without(c[1..], k);
      WithoutShrinks(c[1..], k);
      assert ([first] + rest)[1..] == rest && [] + rest == rest;
    }
  }

  lemma {:induction false} PrefixIsDistinct(c: Cache, n: nat)
    requires Distinct(c) && n <= |c|
    ensures Distinct(c[..n])
    decreases n
  {
    if n == 0 {
    } else {
      PrefixIsDistinct(c[1..], n - 1);
      assert c[..n][1..] == c[1..][..n - 1];
    }
  }

  lemma FrontKeeps(c: Cache, k: Bytes, v: Verdict)
    requires Distinct(c) && forall e :: e in c ==> e.0 != k
    ensures Distinct([(k, v)] + c) && Find([(k, v)] + c, k) == Some(v)
    ensures forall e :: e in [(k, v)] + c ==> e == (k, v) || e in c
  {
    assert ([(k, v)] + c)[1..] == c;
  }

  lemma WithoutCons(x: (Bytes, Verdict), c: Cache, k: Bytes)
    ensures Without([x] + c, k) == if x.0 == k then Without(c, k) else [x] + Without(c, k)
    ensures Find([x] + c, k) == if x.0 == k then Some(x.1) else Find(c, k)
  {
    assert ([x] + c)[1..] == c && [] + Without(c, k) == Without(c, k);
  }

  lemma DistinctRest(x: (Bytes, Verdict), c: Cache)
    requires Distinct([x] + c)
    ensures Distinct(c) && forall e :: e in c ==> e.0 != x.0
  {
    assert ([x] + c)[1..] == c;
  }

  /** Removing a name's entry leaves the others in their order. */
  lemma {:induction false} WithoutEntry(before: Cache, e: (Bytes, Verdict), after: Cache)
    requires Distinct(before + ([e] + after))
    ensures Without(before + ([e] + after), e.0) == before + after && Find(before + ([e] + after), e.0) == Some(e.1)
    decreases |before|
  {
    if before == [] {
      assert before + ([e] + after) == [e] + after && before + after == after;
      DistinctRest(e, after);
      WithoutCons(e, after, e.0);
      WithoutAbsent(after, e.0);
    } else {
      var first, rest := before[0], before[1..];
      assert before == [first] + rest;
      Assoc([first], rest, [e] + after);
      Assoc([first], rest, after);
      var c := rest + ([e] + after);
      DistinctRest(first, c);
      assert e in c;
      WithoutEntry(rest, e, after);
      WithoutCons(first, c, e.0);
    }
  }

  lemma {:induction false} WithoutAbsent(c: Cache, k: Bytes)
    requires forall e :: e in c ==> e.0 != k
    ensures Without(c, k) == c && Find(c, k) == None
  {
    if c == [] {
    } else {
      assert c[0] in c && forall e :: e in c[1..] ==> e in c;
      WithoutAbsent(c[1..], k);
      assert [c[0]] + c[1..] == c;
    }
  }

  /** The cache is kept in order of use: a hit or a store of a known name moves its entry to the front and
      leaves the others in their order. */
  lemma KnownGoesFirst(capacity: nat, before: Cache, e: (Bytes, Verdict), after: Cache, v: Verdict)
    requires capacity > 0 && Distinct(before + ([e] + after))
    ensures
      var c := before + ([e] + after);
      Touch(c, e.0) == [e] + (before + after) && Put(capacity, c, e.0, v) == [(e.0, v)] + (before + after)
  {
    WithoutEntry(before, e, after);
  }

  /** A store of a new name goes to the front, and only if the cache is full the entry used longest ago goes;
      a miss changes nothing. */
  lemma NewGoesFirst(capacity: nat, c: Cache, k: Bytes, v: Verdict)
    requires capacity > 0 && |c| <= capacity && forall e :: e in c ==> e.0 != k
    ensures Touch(c, k) == c
    ensures Put(capacity, c, k, v) == [(k, v)] + if |c| < capacity then c else c[..|c| - 1]
  {
    WithoutAbsent(c, k);
  }

  lemma TouchKeeps(c: Cache, k: Bytes)
    requires Distinct(c)
    ensures Distinct(Touch(c, k)) && |Touch(c, k)| <= |c|
    ensures forall e :: e in Touch(c, k) ==> e in c
  {
    WithoutShrinks(c, k);
    match Find(c, k)
    case Some(v) => FrontKeeps(Without(c, k), k, v);
    case None =>
  }

  lemma PutKeeps(capacity: nat, c: Cache, k: Bytes, v: Verdict)
    requires capacity > 0 && Distinct(c) && |c| <= capacity
    ensures Distinct(Put(capacity, c, k, v)) && |Put(capacity, c, k, v)| <= capacity
    ensures forall e :: e in Put(capacity, c, k, v) ==> e == (k, v) || e in c
    ensures Find(Put(capacity, c, k, v), k) == Some(v)
  {
    WithoutShrinks(c, k);
    if Find(c, k).Some? {
      FrontKeeps(Without(c, k), k, v);
    } else {
      var kept := if |c| < capacity then c else c[..capacity - 1];
      PrefixIsDistinct(c, |kept|);
      assert c[..|kept|] == kept;
      FrontKeeps(kept, k, v);
    }
  }

  // ---------------------------------------------------- concurrent requests

  /** A request takes the lock to look its name up, validates without it, and takes it again to store. */
  datatype Stage = Looking | Missed | Checked(verdict: Verdict) | Answered(verdict: Verdict)

  datatype Request = Request(name: Bytes, qtype: Option<RecordType>, stage: Stage)

  datatype State = State(cache: Cache, requests: seq<Request>)

  datatype Step = Arrive(name: Bytes, qtype: Option<RecordType>) | Lookup(id: nat) | Check(id: nat) | Store(id: nat)

  function Next(strict: bool, capacity: nat, s: State, step: Step): Option<State>
    requires capacity > 0
  {
    match step
    case Arrive(n, q) => Some(s.(requests := s.requests + [Request(n, q, Looking)]))
    case Lookup(i) =>
      if i < |s.requests| && s.requests[i].stage.Looking? then
        var r := s.requests[i];
        var stage := match Find(s.cache, r.name) case Some(v) => Answered(v) case None => Missed;
        Some(State(Touch(s.cache, r.name), s.requests[i := r.(stage := stage)]))
      else None
    case Check(i) =>
      if i < |s.requests| && s.requests[i].stage.Missed? then
        var r := s.requests[i];
        var v := VerdictOf(strict, ServiceBinding(r.qtype), r.name);
        Some(s.(requests := s.requests[i := r.(stage := Checked(v))]))
      else None
    case Store(i) =>
      if i < |s.requests| && s.requests[i].stage.Checked? then
        var r := s.requests[i];
        Some(State(Put(capacity, s.cache, r.name, r.stage.verdict),
                   s.requests[i := r.(stage := Answered(r.stage.verdict))]))
      else None
  }

  function Run(strict: bool, capacity: nat, s: State, steps: seq<Step>): Option<State>
    requires capacity > 0
    decreases |steps|
  {
    if steps == [] then Some(s)
    else match Next(strict, capacity, s, steps[0])
      case None => None
      case Some(t) => Run(strict, capacity, t, steps[1..])
  }

  /** The verdict is the validator's own, for this name and some question type already asked. */
  ghost predicate Justified(strict: bool, rs: seq<Request>, n: Bytes, v: Verdict) {
    exists j :: 0 <= j < |rs| && rs[j].name == n && v == VerdictOf(strict, ServiceBinding(rs[j].qtype), n)
  }

  ghost predicate Sound(strict: bool, capacity: nat, s: State) {
    && Distinct(s.cache) && |s.cache| <= capacity
    && CacheOk(strict, s.cache, s.requests) && StagesOk(strict, s.requests)
  }

  ghost predicate CacheOk(strict: bool, c: Cache, rs: seq<Request>) {
    forall e :: e in c ==> Justified(strict, rs, e.0, e.1)
  }

  ghost predicate StagesOk(strict: bool, rs: seq<Request>) {
    forall i :: 0 <= i < |rs| ==> StageOk(strict, rs, rs[i])
  }

  ghost predicate StageOk(strict: bool, rs: seq<Request>, r: Request) {
    match r.stage
    case Checked(v) => v == VerdictOf(strict, ServiceBinding(r.qtype), r.name)
    case Answered(v) => Justified(strict, rs, r.name, v)
    case _ => true
  }

  /** Requests only grow, and keep their name and question type. */
  ghost predicate Extends(rs: seq<Request>, rs': seq<Request>) {
    |rs| <= |rs'| && forall i :: 0 <= i < |rs| ==> rs'[i].name == rs[i].name && rs'[i].qtype == rs[i].qtype
  }

  lemma JustifiedStays(strict: bool, rs: seq<Request>, rs': seq<Request>, n: Bytes, v: Verdict)
    requires Extends(rs, rs') && Justified(strict, rs, n, v)
    ensures Justified(strict, rs', n, v)
  {
    var j :| 0 <= j < |rs| && rs[j].name == n && v == VerdictOf(strict, ServiceBinding(rs[j].qtype), n);
    assert rs'[j].name == n;
  }

  lemma StepExtends(strict: bool, capacity: nat, s: State, step: Step)
    requires capacity > 0 && Next(strict, capacity, s, step).Some?
    ensures Extends(s.requests, Next(strict, capacity, s, step).value.requests)
  {
  }

  lemma CacheStaysOk(strict: bool, c: Cache, rs: seq<Request>, rs': seq<Request>)
    requires Extends(rs, rs') && CacheOk(strict, c, rs)
    ensures CacheOk(strict, c, rs')
  {
    forall e | e in c
      ensures Justified(strict, rs', e.0, e.1)
    {
      JustifiedStays(strict, rs, rs', e.0, e.1);
    }
  }

  /** One request moves on, the others keep their stage. */
  lemma StagesStayOk(strict: bool, rs: seq<Request>, i: nat, r: Request)
    requires StagesOk(strict, rs) && i < |rs| && r.name == rs[i].name && r.qtype == rs[i].qtype
    requires StageOk(strict, rs[i := r], r)
    ensures StagesOk(strict, rs[i := r])
  {
    var rs' := rs[i := r];
    forall j | 0 <= j < |rs'|
      ensures StageOk(strict, rs', rs'[j])
    {
      if j != i && rs[j].stage.Answered? {
        JustifiedStays(strict, rs, rs', rs[j].name, rs[j].stage.verdict);
      }
    }
  }

  lemma ArriveKeeps(strict: bool, rs: seq<Request>, r: Request)
    requires StagesOk(strict, rs) && r.stage.Looking?
    ensures StagesOk(strict, rs + [r])
  {
    var rs' := rs + [r];
    forall j | 0 <= j < |rs'|
      ensures StageOk(strict, rs', rs'[j])
    {
      if j < |rs| && rs[j].stage.Answered? {
        JustifiedStays(strict, rs, rs', rs[j].name, rs[j].stage.verdict);
      }
    }
  }

  lemma {:induction false} LookupKeeps(strict: bool, capacity: nat, s: State, i: nat)
    requires capacity > 0 && Sound(strict, capacity, s) && Next(strict, capacity, s, Lookup(i)).Some?
    ensures Sound(strict, capacity, Next(strict, capacity, s, Lookup(i)).value)
  {
    var t := Next(strict, capacity, s, Lookup(i)).value;
    var r := s.requests[i];
    CacheStaysOk(strict, s.cache, s.requests, t.requests);
    TouchKeeps(s.cache, r.name);
    if Find(s.cache, r.name).Some? {
      assert (r.name, Find(s.cache, r.name).value) in s.cache;
    }
    StagesStayOk(strict, s.requests, i, t.requests[i]);
  }

  lemma {:induction false} StoreKeeps(strict: bool, capacity: nat, s: State, i: nat)
    requires capacity > 0 && Sound(strict, capacity, s) && Next(strict, capacity, s, Store(i)).Some?
    ensures Sound(strict, capacity, Next(strict, capacity, s, Store(i)).value)
  {
    var t := Next(strict, capacity, s, Store(i)).value;
    var r := s.requests[i];
    assert StageOk(strict, s.requests, r) && t.requests[i].name == r.name && t.requests[i].qtype == r.qtype;
    assert Justified(strict, t.requests, r.name, r.stage.verdict);
    CacheStaysOk(strict, s.cache, s.requests, t.requests);
    PutKeeps(capacity, s.cache, r.name, r.stage.verdict);
    StagesStayOk(strict, s.requests, i, t.requests[i]);
  }

  lemma {:induction false} StepKeeps(strict: bool, capacity: nat, s: State, step: Step)
    requires capacity > 0 && Sound(strict, capacity, s) && Next(strict, capacity, s, step).Some?
    ensures Sound(strict, capacity, Next(strict, capacity, s, step).value)
  {
    var t := Next(strict, capacity, s, step).value;
    StepExtends(strict, capacity, s, step);
    match step
    case Arrive(n, q) =>
      CacheStaysOk(strict, s.cache, s.requests, t.requests);
      ArriveKeeps(strict, s.requests, Request(n, q, Looking));
    case Lookup(i) => LookupKeeps(strict, capacity, s, i);
    case Check(i) =>
      CacheStaysOk(strict, s.cache, s.requests, t.requests);
      StagesStayOk(strict, s.requests, i, t.requests[i]);
    case Store(i) => StoreKeeps(strict, capacity, s, i);
  }

  /** Every interleaving keeps the cache within capacity and every verdict, cached or answered, a genuine
      verdict for the name under a question type that was asked. */
  lemma {:induction false} RunKeeps(strict: bool, capacity: nat, s: State, steps: seq<Step>)
    requires capacity > 0 && Sound(strict, capacity, s) && Run(strict, capacity, s, steps).Some?
    ensures Sound(strict, capacity, Run(strict, capacity, s, steps).value)
    decreases |steps|
  {
    if steps == [] {
    } else {
      StepKeeps(strict, capacity, s, steps[0]);
      RunKeeps(strict, capacity, Next(strict, capacity, s, steps[0]).value, steps[1..]);
    }
  }

  /** Every answer given for the name is what the validator alone would have said. */
  ghost predicate AnswersAgree(strict: bool, s: State, name: Bytes) {
    forall i :: 0 <= i < |s.requests| && s.requests[i].name == name && s.requests[i].stage.Answered? ==>
      s.requests[i].stage.verdict == VerdictOf(strict, ServiceBinding(s.requests[i].qtype), name)
  }

  const EMPTY := State([], [])

  lemma {:induction false} InsensitiveAgrees(strict: bool, cacheSize: nat, name: Bytes, steps: seq<Step>)
    requires !Sensitive(strict, name) && Run(strict, Capacity(cacheSize), EMPTY, steps).Some?
    ensures AnswersAgree(strict, Run(strict, Capacity(cacheSize), EMPTY, steps).value, name)
  {
    RunKeeps(strict, Capacity(cacheSize), EMPTY, steps);
    SensitiveIff(strict, name);
    var s := Run(strict, Capacity(cacheSize), EMPTY, steps).value;
    forall i | 0 <= i < |s.requests| && s.requests[i].name == name && s.requests[i].stage.Answered?
      ensures s.requests[i].stage.verdict == VerdictOf(strict, ServiceBinding(s.requests[i].qtype), name)
    {
      assert StageOk(strict, s.requests, s.requests[i]);
    }
  }

  /** Two requests for one name, one after the other: the second is answered from the first's entry. */
  function TwoRequests(name: Bytes): seq<Step> {
    [Arrive(name, Some(SVCB)), Lookup(0), Check(0), Store(0), Arrive(name, Some(A)), Lookup(1)]
  }

  /** A request that finds its name is answered with the cached verdict, and the entry counts as just used. */
  lemma LookupHits(strict: bool, capacity: nat, s: State, i: nat, before: Cache, v: Verdict, after: Cache)
    requires capacity > 0 && i < |s.requests| && s.requests[i].stage.Looking? && Distinct(s.cache)
    requires s.cache == before + ([(s.requests[i].name, v)] + after)
    ensures
      var r := s.requests[i];
      Next(strict, capacity, s, Lookup(i)) ==
        Some(State([(r.name, v)] + (before + after), s.requests[i := r.(stage := Answered(v))]))
  {
    var e := (s.requests[i].name, v);
    KnownGoesFirst(capacity, before, e, after, v);
    WithoutEntry(before, e, after);
  }

  /** A request that does not find its name validates it, and its verdict goes to the front of the cache. */
  lemma LookupMisses(strict: bool, capacity: nat, s: State, i: nat)
    requires capacity > 0 && i < |s.requests| && s.requests[i].stage.Looking?
    requires forall e :: e in s.cache ==> e.0 != s.requests[i].name
    ensures
      var r := s.requests[i];
      Next(strict, capacity, s, Lookup(i)) == Some(s.(requests := s.requests[i := r.(stage := Missed)]))
  {
    WithoutAbsent(s.cache, s.requests[i].name);
  }

  /** Whatever happened in the meantime, a checked verdict is stored in front of what is cached then. */
  lemma StoreGoesFirst(strict: bool, capacity: nat, s: State, i: nat)
    requires capacity > 0 && i < |s.requests| && s.requests[i].stage.Checked?
    ensures
      var r, t := s.requests[i], Next(strict, capacity, s, Store(i));
      && t.Some? && t.value.cache != [] && t.value.cache[0] == (r.name, r.stage.verdict)
      && t.value.requests == s.requests[i := r.(stage := Answered(r.stage.verdict))]
  {
  }

  /** The state in which the first of two requests has stored its verdict. */
  function AfterFirst(strict: bool, name: Bytes): State {
    var v := VerdictOf(strict, true, name);
    State([(name, v)], [Request(name, Some(SVCB), Answered(v))])
  }

  /** One request's state, alone in the system. */
  function Alone(cache: Cache, name: Bytes, stage: Stage): State {
    State(cache, [Request(name, Some(SVCB), stage)])
  }

  lemma FirstArrives(strict: bool, capacity: nat, name: Bytes)
    requires capacity > 0
    ensures Next(strict, capacity, EMPTY, Arrive(name, Some(SVCB))) == Some(Alone([], name, Looking))
    ensures Next(strict, capacity, Alone([], name, Looking), Lookup(0)) == Some(Alone([], name, Missed))
  {
    var first := Request(name, Some(SVCB), Looking);
    assert EMPTY.requests + [first] == [first];
    assert [first][0 := first.(stage := Missed)] == [first.(stage := Missed)];
  }

  lemma FirstIsChecked(strict: bool, capacity: nat, name: Bytes)
    requires capacity > 0
    ensures
      var v := VerdictOf(strict, true, name);
      && Next(strict, capacity, Alone([], name, Missed), Check(0)) == Some(Alone([], name, Checked(v)))
      && Next(strict, capacity, Alone([], name, Checked(v)), Store(0)) == Some(AfterFirst(strict, name))
  {
    var v := VerdictOf(strict, true, name);
    var r := Request(name, Some(SVCB), Missed);
    assert [r][0 := r.(stage := Checked(v))] == [r.(stage := Checked(v))];
    assert [r.(stage := Checked(v))][0 := r.(stage := Answered(v))] == [r.(stage := Answered(v))];
    assert Put(capacity, [], name, v) == [(name, v)];
  }

  lemma FirstIsStored(strict: bool, capacity: nat, name: Bytes)
    requires capacity > 0
    ensures Run(strict, capacity, EMPTY, TwoRequests(name))
         == Run(strict, capacity, AfterFirst(strict, name), TwoRequests(name)[4..])
  {
    var steps := TwoRequests(name);
    var v := VerdictOf(strict, true, name);
    FirstArrives(strict, capacity, name);
    FirstIsChecked(strict, capacity, name);
    RunOne(strict, capacity, EMPTY, steps, 0);
    RunOne(strict, capacity, Alone([], name, Looking), steps, 1);
    RunOne(strict, capacity, Alone([], name, Missed), steps, 2);
    RunOne(strict, capacity, Alone([], name, Checked(v)), steps, 3);
    assert steps[0..] == steps;
  }

  lemma SecondIsServedFromCache(strict: bool, capacity: nat, name: Bytes)
    requires capacity > 0
    ensures Run(strict, capacity, EMPTY, TwoRequests(name)).Some?
    ensures
      var v := VerdictOf(strict, true, name);
      Run(strict, capacity, EMPTY, TwoRequests(name)).value.requests
        == [Request(name, Some(SVCB), Answered(v)), Request(name, Some(A), Answered(v))]
  {
    var steps := TwoRequests(name);
    var v := VerdictOf(strict, true, name);
    var s4 := AfterFirst(strict, name);
    var second := Request(name, Some(A), Looking);
    var s5 := s4.(requests := s4.requests + [second]);
    FirstIsStored(strict, capacity, name);
    assert Next(strict, capacity, s4, steps[4]) == Some(s5);
    var s6 := Next(strict, capacity, s5, steps[5]).value;
    assert s6.requests == s4.requests + [second.(stage := Answered(v))];
    RunOne(strict, capacity, s5, steps, 5);
    RunOne(strict, capacity, s4, steps, 4);
    assert steps[6..] == [];
  }

  lemma RunOne(strict: bool, capacity: nat, s: State, steps: seq<Step>, k: nat)
    requires capacity > 0 && k < |steps| && Next(strict, capacity, s, steps[k]).Some?
    ensures Run(strict, capacity, s, steps[k..])
         == Run(strict, capacity, Next(strict, capacity, s, steps[k]).value, steps[k + 1..])
  {
    assert steps[k..][0] == steps[k] && steps[k..][1..] == steps[k + 1..];
  }

  /** The cached plugin answers a name like the validator alone in every concurrent run exactly when the
      name's verdict does not depend on the question type. */
  lemma {:induction false} CacheAgreesIff(strict: bool, cacheSize: nat, name: Bytes)
    ensures !Sensitive(strict, name) <==>
      forall steps: seq<Step> :: Run(strict, Capacity(cacheSize), EMPTY, steps).Some? ==>
        AnswersAgree(strict, Run(strict, Capacity(cacheSize), EMPTY, steps).value, name)
  {
    var capacity := Capacity(cacheSize);
    if Sensitive(strict, name) {
      SecondIsServedFromCache(strict, capacity, name);
      SensitiveIff(strict, name);
      var s := Run(strict, capacity, EMPTY, TwoRequests(name)).value;
      assert s.requests[1].stage.Answered?;
      assert !AnswersAgree(strict, s, name);
    } else {
      forall steps: seq<Step> | Run(strict, capacity, EMPTY, steps).Some?
        ensures AnswersAgree(strict, Run(strict, capacity, EMPTY, steps).value, name)
      {
        InsensitiveAgrees(strict, cacheSize, name, steps);
      }
    }
  }

  /** Names without a leading underscore in any label are always answered as the validator would. */
  lemma {:induction false} PlainNamesAgree(strict: bool, cacheSize: nat, name: Bytes, steps: seq<Step>)
    requires forall l :: l in Split(name, DOT) ==> l == [] || l[0] != UNDERSCORE
    requires Run(strict, Capacity(cacheSize), EMPTY, steps).Some?
    ensures AnswersAgree(strict, Run(strict, Capacity(cacheSize), EMPTY, steps).value, name)
    ensures |Run(strict, Capacity(cacheSize), EMPTY, steps).value.cache| <= Capacity(cacheSize)
  {
    PlainNamesAreNotReached(strict, Split(name, DOT));
    InsensitiveAgrees(strict, cacheSize, name, steps);
    RunKeeps(strict, Capacity(cacheSize), EMPTY, steps);
  }
}
