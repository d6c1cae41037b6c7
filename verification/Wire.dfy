/** Conversion between lazydns messages and the messages of the protocol library
    (`convert_to_hickory`, `convert_from_hickory` and the record converters in src/dns/wire.rs).
    Names are label lists on both sides. */
module Wire {
  import opened Common
  import opened DnsTypes
  import opened EdnsOptions

  // ---------------------------------------------------------------- messages

  type Name = seq<Bytes>

  /** Octets of the name on the wire, with the root's length octet. */
  function NameLength(n: Name): nat {
    if n == [] then 1 else 1 + |n[0]| + NameLength(n[1..])
  }

  /** What the library's name parser accepts, section 2.3.4 of RFC 1035. */
  predicate NameOk(n: Name) {
    (forall i :: 0 <= i < |n| ==> 1 <= |n[i]| <= 63) && NameLength(n) <= 255
  }

  type i32 = n: int | -0x8000_0000 <= n < 0x8000_0000

  /** `Structured` stands for the record data variants the library has no builder for here. */
  datatype RData =
    | Address4(ip4: u32)
    | Address6(ip6: nat)
    | Alias(target: Name)
    | MailExchange(preference: u16, exchange: Name)
    | NameServer(target: Name)
    | Pointer(target: Name)
    | Text(strings: seq<string>)
    | Authority(mname: Name, rname: Name, serial: u32, refresh: u32, retry: u32, expire: u32, minimum: u32)
    | Service(priority: u16, weight: u16, port: u16, target: Name)
    | Opt(extendedRcode: byte, version: byte, flags: u16, options: Bytes)
    | Raw(data: Bytes)
    | Structured(kind: RecordType, fields: Bytes)

  datatype Record = Record(name: Name, rtype: RecordType, rclass: RecordClass, ttl: u32, rdata: RData)

  datatype Question = Question(qname: Name, qtype: RecordType, qclass: RecordClass)

  datatype Flags = Flags(qr: bool, aa: bool, tc: bool, rd: bool, ra: bool, ad: bool, cd: bool)

  datatype Message = Message(
    id: u16, flags: Flags, opcode: OpCode, rcode: ResponseCode, questions: seq<Question>,
    answers: seq<Record>, authority: seq<Record>, additional: seq<Record>)

  // --------------------------------------------------- the library's messages

  datatype LibOp = LibQuery | LibStatus | LibNotify | LibUpdate

  /** `LibOther` is any typed data that is re-emitted as bytes, if it can be. */
  datatype LibData =
    | LibA(ip4: u32)
    | LibAAAA(ip6: nat)
    | LibCNAME(target: Name)
    | LibMX(preference: u16, exchange: Name)
    | LibNS(target: Name)
    | LibPTR(target: Name)
    | LibTXT(strings: seq<string>)
    | LibSOA(mname: Name, rname: Name, serial: u32, soaRefresh: i32, soaRetry: i32, soaExpire: i32, minimum: u32)
    | LibSRV(priority: u16, weight: u16, port: u16, target: Name)
    | LibUnknown(code: u16, data: Bytes)
    | LibOther(emitted: Option<Bytes>)

  datatype LibRecord = LibRecord(name: Name, rtype: u16, rclass: u16, ttl: u32, data: Option<LibData>)

  datatype LibQuestion = LibQuestion(qname: Name, qtype: u16, qclass: u16)

  datatype Edns = Edns(maxPayload: u16, version: byte, rcodeHigh: byte, dnssecOk: bool, options: OptionMap)

  datatype LibMessage = LibMessage(
    id: u16, flags: Flags, op: LibOp, rcode: u16, queries: seq<LibQuestion>,
    answers: seq<LibRecord>, nameServers: seq<LibRecord>, additionals: seq<LibRecord>, edns: Option<Edns>)

  datatype WireError = InvalidName

  // ---------------------------------------------------------------- numbers

  /** A 32-bit pattern read as signed, and back. */
  function AsSigned(n: u32): i32 {
    if n < 0x8000_0000 then n else n - 0x1_0000_0000
  }

  function AsUnsigned(n: i32): u32 {
    if n >= 0 then n else n + 0x1_0000_0000
  }

  function AtLeast512(n: u16): u16 {
    if n < 512 then 512 else n
  }

  const DO_BIT: u16 := 0x8000

  // ----------------------------------------------------------------- records

  predicate DataNamesOk(d: RData) {
    match d
    case Alias(n) => NameOk(n)
    case MailExchange(_, n) => NameOk(n)
    case NameServer(n) => NameOk(n)
    case Pointer(n) => NameOk(n)
    case Authority(m, r, _, _, _, _, _) => NameOk(m) && NameOk(r)
    case Service(_, _, _, n) => NameOk(n)
    case _ => true
  }

  predicate Buildable(d: RData) {
    !d.Opt? && !d.Structured?
  }

  function ToData(rtype: u16, d: RData): LibData
    requires Buildable(d)
  {
    match d
    case Address4(ip) => LibA(ip)
    case Address6(ip) => LibAAAA(ip)
    case Alias(n) => LibCNAME(n)
    case MailExchange(p, n) => LibMX(p, n)
    case NameServer(n) => LibNS(n)
    case Pointer(n) => LibPTR(n)
    case Text(ss) => LibTXT(ss)
    case Authority(m, r, serial, refresh, retry, expire, minimum) =>
      LibSOA(m, r, serial, AsSigned(refresh), AsSigned(retry), AsSigned(expire), minimum)
    case Service(p, w, port, n) => LibSRV(p, w, port, n)
    case Raw(data) => LibUnknown(rtype, data)
  }

  /** A record without a counterpart is dropped, but only after its name has parsed. */
  function ToRecord(rr: Record): Result<Option<LibRecord>, WireError> {
    if !NameOk(rr.name) || !DataNamesOk(rr.rdata) then Err(InvalidName)
    else if !Buildable(rr.rdata) then Ok(None)
    else Ok(Some(LibRecord(rr.name, TypeCode(rr.rtype), ClassCode(rr.rclass), rr.ttl,
                           Some(ToData(TypeCode(rr.rtype), rr.rdata)))))
  }

  function FromData(d: LibData): Option<RData> {
    match d
    case LibA(ip) => Some(Address4(ip))
    case LibAAAA(ip) => Some(Address6(ip))
    case LibCNAME(n) => Some(Alias(n))
    case LibMX(p, n) => Some(MailExchange(p, n))
    case LibNS(n) => Some(NameServer(n))
    case LibPTR(n) => Some(Pointer(n))
    case LibTXT(ss) => Some(Text(ss))
    case LibSOA(m, r, serial, refresh, retry, expire, minimum) =>
      Some(Authority(m, r, serial, AsUnsigned(refresh), AsUnsigned(retry), AsUnsigned(expire), minimum))
    case LibSRV(p, w, port, n) => Some(Service(p, w, port, n))
    case LibUnknown(_, data) => Some(Raw(data))
    case LibOther(emitted) => if emitted.Some? then Some(Raw(emitted.value)) else None
  }

  function FromRecord(r: LibRecord): Option<Record> {
    if r.data.None? then None
    else match FromData(r.data.value)
      case Some(d) => Some(Record(r.name, TypeFromCode(r.rtype), ClassFromCode(r.rclass), r.ttl, d))
      case None => None
  }

  // ---------------------------------------------------------------- sections

  function ToSection(rs: seq<Record>): Result<seq<LibRecord>, WireError> {
    if rs == [] then Ok([])
    else match ToRecord(rs[0])
      case Err(e) => Err(e)
      case Ok(first) =>
        match ToSection(rs[1..])
        case Err(e) => Err(e)
        case Ok(rest) => Ok((if first.Some? then [first.value] else []) + rest)
  }

  function ToEdns(rr: Record): Edns
    requires rr.rdata.Opt?
  {
    Edns(AtLeast512(ClassCode(rr.rclass)), rr.rdata.version, rr.rdata.extendedRcode, rr.rdata.flags >= DO_BIT,
         ToMap(Cut(rr.rdata.options)))
  }

  /** Each OPT record replaces the EDNS data set by an earlier one. */
  function LastEdns(rs: seq<Record>): Option<Edns> {
    if rs == [] then None
    else if rs[|rs| - 1].rdata.Opt? then Some(ToEdns(rs[|rs| - 1]))
    else LastEdns(rs[..|rs| - 1])
  }

  /** The additional records other than OPT records, whose names are not even looked at. */
  function WithoutOpt(rs: seq<Record>): seq<Record> {
    if rs == [] then [] else (if rs[0].rdata.Opt? then [] else [rs[0]]) + WithoutOpt(rs[1..])
  }

  function ToQuestions(qs: seq<Question>): Result<seq<LibQuestion>, WireError> {
    if qs == [] then Ok([])
    else if !NameOk(qs[0].qname) then Err(InvalidName)
    else match ToQuestions(qs[1..])
      case Err(e) => Err(e)
      case Ok(rest) => Ok([LibQuestion(qs[0].qname, TypeCode(qs[0].qtype), 1)] + rest)
  }

  function FromQuestions(qs: seq<LibQuestion>): seq<Question> {
    if qs == [] then []
    else [Question(qs[0].qname, TypeFromCode(qs[0].qtype), ClassFromCode(qs[0].qclass))] + FromQuestions(qs[1..])
  }

  function FromSection(rs: seq<LibRecord>): seq<Record> {
    if rs == [] then []
    else (match FromRecord(rs[0]) case Some(r) => [r] case None => []) + FromSection(rs[1..])
  }

  // ---------------------------------------------------------- whole messages

  function ToOp(op: OpCode): LibOp {
    match op
    case Query => LibQuery
    case Status => LibStatus
    case Notify => LibNotify
    case Update => LibUpdate
    case IQuery => LibQuery
    case UnknownOp(_) => LibQuery
  }

  function FromOp(op: LibOp): OpCode {
    match op
    case LibQuery => Query
    case LibStatus => Status
    case LibNotify => Notify
    case LibUpdate => Update
  }

  /** Library codes above a byte are clipped to 255. */
  function FromRcode(code: u16): ResponseCode {
    RcodeFromCode((if code > 255 then 255 else code) as byte)
  }

  function ToLibrary(m: Message): Result<LibMessage, WireError> {
    match (ToQuestions(m.questions), ToSection(m.answers), ToSection(m.authority), ToSection(WithoutOpt(m.additional)))
    case (Ok(qs), Ok(an), Ok(ns), Ok(ar)) =>
      Ok(LibMessage(m.id, m.flags, ToOp(m.opcode), RcodeCode(m.rcode) as int, qs, an, ns, ar, LastEdns(m.additional)))
    case _ => Err(InvalidName)
  }

  /** The OPT record put back at the end of the additional section, with the options in the given order. */
  function FromEdns(e: Edns, order: seq<Option16>): Record {
    Record([], OPT, ClassFromCode(e.maxPayload), 0,
           Opt(e.rcodeHigh, e.version, if e.dnssecOk then DO_BIT else 0, Encode(order)))
  }

  /** `order` is the order in which the library's option map is listed; it is arbitrary. */
  function FromLibrary(h: LibMessage, order: seq<Option16>): Message {
    Message(h.id, h.flags, FromOp(h.op), FromRcode(h.rcode), FromQuestions(h.queries),
            FromSection(h.answers), FromSection(h.nameServers),
            FromSection(h.additionals) + (if h.edns.Some? then [FromEdns(h.edns.value, order)] else []))
  }

  /** `m'` is a possible result of converting `m` to the library's form and back. */
  ghost predicate RoundTrip(m: Message, m': Message) {
    && ToLibrary(m).Ok?
    && exists order ::
         && (ToLibrary(m).value.edns.Some? ==> Enumerates(order, ToLibrary(m).value.edns.value.options))
         && m' == FromLibrary(ToLibrary(m).value, order)
  }

  // -------------------------------------------------------------- the loops

  /** What the section loop adds for one record. */
  lemma SectionTurn(rs: seq<Record>, out: seq<LibRecord>)
    requires rs != []
    ensures Prefixed(out, ToSection(rs)) ==
      match ToRecord(rs[0])
      case Err(e) => Err(e)
      case Ok(None) => Prefixed(out, ToSection(rs[1..]))
      case Ok(Some(x)) => Prefixed(out + [x], ToSection(rs[1..]))
  {
    var rest := ToSection(rs[1..]);
    if ToRecord(rs[0]).Ok? {
      var one := ToRecord(rs[0]).value;
      assert ToSection(rs) == Prefixed(if one.Some? then [one.value] else [], rest);
      PrefixedAssoc(out, if one.Some? then [one.value] else [], rest);
      assert out + [] == out;
    }
  }

  method ConvertSection(rs: seq<Record>) returns (r: Result<seq<LibRecord>, WireError>)
    ensures r == ToSection(rs)
  {
    var out: seq<LibRecord> := [];
    var k := 0;
    ghost var whole := ToSection(rs);
    assert rs[0..] == rs;
    PrefixedNothing(whole);
    while k < |rs|
      invariant k <= |rs|
      invariant Prefixed(out, ToSection(rs[k..])) == whole
    {
      assert rs[k..][0] == rs[k] && rs[k..][1..] == rs[k + 1..];
      SectionTurn(rs[k..], out);
      var one := ToRecord(rs[k]);
      if one.Err? { return Err(one.error); }
      if one.value.Some? {
        out := out + [one.value.value];
      }
      k := k + 1;
    }
    assert rs[k..] == [] && out + [] == out;
    return Ok(out);
  }

  function Prefixed<T>(a: seq<T>, r: Result<seq<T>, WireError>): Result<seq<T>, WireError> {
    match r
    case Ok(b) => Ok(a + b)
    case Err(e) => Err(e)
  }

  lemma PrefixedNothing<T>(r: Result<seq<T>, WireError>)
    ensures Prefixed([], r) == r
  {
    if r.Ok? { assert [] + r.value == r.value; }
  }

  lemma PrefixedAssoc<T>(a: seq<T>, b: seq<T>, r: Result<seq<T>, WireError>)
    ensures Prefixed(a, Prefixed(b, r)) == Prefixed(a + b, r)
  {
    if r.Ok? { Assoc(a, b, r.value); }
  }

  lemma QuestionTurn(qs: seq<Question>, out: seq<LibQuestion>)
    requires qs != []
    ensures Prefixed(out, ToQuestions(qs)) ==
      if !NameOk(qs[0].qname) then Err(InvalidName)
      else Prefixed(out + [LibQuestion(qs[0].qname, TypeCode(qs[0].qtype), 1)], ToQuestions(qs[1..]))
  {
    var q, rest := LibQuestion(qs[0].qname, TypeCode(qs[0].qtype), 1), ToQuestions(qs[1..]);
    if NameOk(qs[0].qname) {
      assert ToQuestions(qs) == Prefixed([q], rest);
      PrefixedAssoc(out, [q], rest);
    }
  }

  method ConvertQuestions(qs: seq<Question>) returns (r: Result<seq<LibQuestion>, WireError>)
    ensures r == ToQuestions(qs)
  {
    var out: seq<LibQuestion> := [];
    var k := 0;
    ghost var whole := ToQuestions(qs);
    assert qs[0..] == qs;
    PrefixedNothing(whole);
    while k < |qs|
      invariant k <= |qs|
      invariant Prefixed(out, ToQuestions(qs[k..])) == whole
    {
      assert qs[k..][0] == qs[k] && qs[k..][1..] == qs[k + 1..];
      QuestionTurn(qs[k..], out);
      if !NameOk(qs[k].qname) { return Err(InvalidName); }
      out := out + [LibQuestion(qs[k].qname, TypeCode(qs[k].qtype), 1)];
      k := k + 1;
    }
    assert qs[k..] == [] && out + [] == out;
    return Ok(out);
  }

  lemma WithoutOptHead(rs: seq<Record>)
    requires rs != []
    ensures rs[0].rdata.Opt? ==> WithoutOpt(rs) == WithoutOpt(rs[1..])
    ensures !rs[0].rdata.Opt? ==>
      WithoutOpt(rs) != [] && WithoutOpt(rs)[0] == rs[0] && WithoutOpt(rs)[1..] == WithoutOpt(rs[1..])
  {
    assert [] + WithoutOpt(rs[1..]) == WithoutOpt(rs[1..]);
    assert ([rs[0]] + WithoutOpt(rs[1..]))[1..] == WithoutOpt(rs[1..]);
  }

  lemma LastEdnsPush(rs: seq<Record>, k: nat)
    requires k < |rs|
    ensures LastEdns(rs[..k + 1]) == if rs[k].rdata.Opt? then Some(ToEdns(rs[k])) else LastEdns(rs[..k])
  {
    assert rs[..k + 1][..k] == rs[..k];
  }

  /** The additional section: OPT records become the EDNS data, the others are converted. */
  method ConvertAdditional(rs: seq<Record>) returns (r: Result<seq<LibRecord>, WireError>, edns: Option<Edns>)
    ensures r == ToSection(WithoutOpt(rs))
    ensures r.Ok? ==> edns == LastEdns(rs)
  {
    var out: seq<LibRecord> := [];
    edns := None;
    var k := 0;
    ghost var whole := ToSection(WithoutOpt(rs));
    assert rs[0..] == rs;
    PrefixedNothing(whole);
    while k < |rs|
      invariant k <= |rs|
      invariant Prefixed(out, ToSection(WithoutOpt(rs[k..]))) == whole
      invariant edns == LastEdns(rs[..k])
    {
      assert rs[k..][0] == rs[k] && rs[k..][1..] == rs[k + 1..];
      WithoutOptHead(rs[k..]);
      LastEdnsPush(rs, k);
      if rs[k].rdata.Opt? {
        edns := SetEdns(rs[k]);
      } else {
        SectionTurn(WithoutOpt(rs[k..]), out);
        var one := ToRecord(rs[k]);
        if one.Err? { return Err(one.error), edns; }
        if one.value.Some? {
          out := out + [one.value.value];
        }
      }
      k := k + 1;
    }
    assert rs[k..] == [] && out + [] == out;
    assert rs[..k] == rs;
    return Ok(out), edns;
  }

  method SetEdns(rr: Record) returns (edns: Option<Edns>)
    requires rr.rdata.Opt?
    ensures edns == Some(ToEdns(rr))
  {
    var options := SetEdnsOptions(rr.rdata.options);
    edns := Some(Edns(AtLeast512(ClassCode(rr.rclass)), rr.rdata.version, rr.rdata.extendedRcode,
                      rr.rdata.flags >= DO_BIT, options));
  }

  method ConvertToLibrary(m: Message) returns (r: Result<LibMessage, WireError>)
    ensures r == ToLibrary(m)
  {
    var qs := ConvertQuestions(m.questions);
    if qs.Err? { return Err(InvalidName); }
    var an := ConvertSection(m.answers);
    if an.Err? { return Err(InvalidName); }
    var ns := ConvertSection(m.authority);
    if ns.Err? { return Err(InvalidName); }
    var ar, edns := ConvertAdditional(m.additional);
    if ar.Err? { return Err(InvalidName); }
    return Ok(LibMessage(m.id, m.flags, ToOp(m.opcode), RcodeCode(m.rcode) as int,
                         qs.value, an.value, ns.value, ar.value, edns));
  }

  method ConvertFromLibrary(h: LibMessage, order: seq<Option16>) returns (m: Message)
    ensures m == FromLibrary(h, order)
  {
    var an := ConvertLibSection(h.answers);
    var ns := ConvertLibSection(h.nameServers);
    var ar := ConvertLibSection(h.additionals);
    if h.edns.Some? {
      var blob := EdnsOptionsBlob(order);
      var e := h.edns.value;
      ar := ar + [Record([], OPT, ClassFromCode(e.maxPayload), 0,
                         Opt(e.rcodeHigh, e.version, if e.dnssecOk then DO_BIT else 0, blob))];
    }
    m := Message(h.id, h.flags, FromOp(h.op), FromRcode(h.rcode), FromQuestions(h.queries), an, ns, ar);
    assert h.edns.None? ==> ar == FromSection(h.additionals) + [];
  }

  lemma LibSectionTurn(rs: seq<LibRecord>, out: seq<Record>)
    requires rs != []
    ensures out + FromSection(rs) ==
      (match FromRecord(rs[0]) case Some(r) => out + [r] case None => out) + FromSection(rs[1..])
  {
    var rest := FromSection(rs[1..]);
    match FromRecord(rs[0])
    case Some(r) => Assoc(out, [r], rest);
    case None => assert [] + rest == rest;
  }

  method ConvertLibSection(rs: seq<LibRecord>) returns (out: seq<Record>)
    ensures out == FromSection(rs)
  {
    out := [];
    var k := 0;
    ghost var whole := FromSection(rs);
    assert rs[0..] == rs && [] + whole == whole;
    while k < |rs|
      invariant k <= |rs|
      invariant out + FromSection(rs[k..]) == whole
    {
      assert rs[k..][0] == rs[k] && rs[k..][1..] == rs[k + 1..];
      LibSectionTurn(rs[k..], out);
      var one := FromRecord(rs[k]);
      if one.Some? {
        out := out + [one.value];
      }
      k := k + 1;
    }
    assert rs[k..] == [] && out + [] == out;
  }

  // ----------------------------------------------------- what always converts

  predicate RecordNamesOk(rr: Record) {
    NameOk(rr.name) && DataNamesOk(rr.rdata)
  }

  predicate SectionNamesOk(rs: seq<Record>) {
    forall i :: 0 <= i < |rs| ==> RecordNamesOk(rs[i])
  }

  predicate QuestionNamesOk(qs: seq<Question>) {
    forall i :: 0 <= i < |qs| ==> NameOk(qs[i].qname)
  }

  lemma {:induction false} SectionConvertsIff(rs: seq<Record>)
    ensures ToSection(rs).Ok? <==> SectionNamesOk(rs)
  {
    if rs == [] {
    } else {
      SectionConvertsIff(rs[1..]);
      if SectionNamesOk(rs) { assert RecordNamesOk(rs[0]); }
      if ToSection(rs).Ok? {
        forall i | 0 <= i < |rs|
          ensures RecordNamesOk(rs[i])
        {
          if i > 0 { assert RecordNamesOk(rs[1..][i - 1]); }
        }
      }
    }
  }

  lemma {:induction false} QuestionsConvertIff(qs: seq<Question>)
    ensures ToQuestions(qs).Ok? <==> QuestionNamesOk(qs)
  {
    if qs == [] {
    } else {
      QuestionsConvertIff(qs[1..]);
      if ToQuestions(qs).Ok? {
        forall i | 0 <= i < |qs|
          ensures NameOk(qs[i].qname)
        {
          if i > 0 { assert NameOk(qs[1..][i - 1].qname); }
        }
      }
    }
  }

  /** Conversion fails exactly when a name that is looked at is not a legal name. */
  lemma ConvertsIff(m: Message)
    ensures ToLibrary(m).Ok? <==>
      && QuestionNamesOk(m.questions) && SectionNamesOk(m.answers)
      && SectionNamesOk(m.authority) && SectionNamesOk(WithoutOpt(m.additional))
  {
    QuestionsConvertIff(m.questions);
    SectionConvertsIff(m.answers);
    SectionConvertsIff(m.authority);
    SectionConvertsIff(WithoutOpt(m.additional));
  }

  // -------------------------------------------------------------- normal form

  predicate NormalQuestion(q: Question) {
    q.qclass == IN && !AliasType(q.qtype)
  }

  predicate NormalRecord(rr: Record) {
    Buildable(rr.rdata) && !AliasType(rr.rtype) && !AliasClass(rr.rclass)
  }

  predicate NormalOpt(rr: Record) {
    && rr.rdata.Opt? && rr.name == [] && rr.rtype == OPT && rr.ttl == 0
    && ClassCode(rr.rclass) >= 512 && rr.rdata.flags in {0, DO_BIT}
  }

  predicate NormalSection(rs: seq<Record>) {
    forall i :: 0 <= i < |rs| ==> NormalRecord(rs[i])
  }

  predicate NormalAdditional(rs: seq<Record>) {
    forall i :: 0 <= i < |rs| ==> NormalRecord(rs[i]) || (i == |rs| - 1 && NormalOpt(rs[i]))
  }

  /** Messages that survive the conversion: codes in their named form, internet questions, only record
      data the library can carry, and at most one well-formed OPT record, last. */
  predicate Normal(m: Message) {
    && m.opcode in {Query, Status, Notify, Update}
    && !AliasRcode(m.rcode)
    && (forall i :: 0 <= i < |m.questions| ==> NormalQuestion(m.questions[i]))
    && NormalSection(m.answers) && NormalSection(m.authority) && NormalAdditional(m.additional)
  }

  /** Equal but for the order of options inside OPT records, which are compared as maps. */
  predicate SameData(a: RData, b: RData) {
    if a.Opt? && b.Opt? then
      && a.extendedRcode == b.extendedRcode && a.version == b.version && a.flags == b.flags
      && ToMap(Cut(a.options)) == ToMap(Cut(b.options))
    else a == b
  }

  predicate SameRecord(a: Record, b: Record) {
    a.name == b.name && a.rtype == b.rtype && a.rclass == b.rclass && a.ttl == b.ttl && SameData(a.rdata, b.rdata)
  }

  predicate SameSection(a: seq<Record>, b: seq<Record>) {
    |a| == |b| && forall i :: 0 <= i < |a| ==> SameRecord(a[i], b[i])
  }

  predicate Same(a: Message, b: Message) {
    && a.id == b.id && a.flags == b.flags && a.opcode == b.opcode && a.rcode == b.rcode
    && a.questions == b.questions && SameSection(a.answers, b.answers)
    && SameSection(a.authority, b.authority) && SameSection(a.additional, b.additional)
  }

  // ---------------------------------------------------------- sections, there and back

  /** One record, there and back: only the spelling of its codes can change. */
  function Respelled(rr: Record): Record {
    rr.(rtype := TypeFromCode(TypeCode(rr.rtype)), rclass := ClassFromCode(ClassCode(rr.rclass)))
  }

  lemma SignedRoundTrip(n: u32)
    ensures AsUnsigned(AsSigned(n)) == n
  {
  }

  lemma DataRoundTrip(rtype: u16, d: RData)
    requires Buildable(d)
    ensures FromData(ToData(rtype, d)) == Some(d)
  {
    if d.Authority? {
      SignedRoundTrip(d.refresh);
      SignedRoundTrip(d.retry);
      SignedRoundTrip(d.expire);
    }
  }

  lemma RecordRoundTrip(rr: Record)
    requires RecordNamesOk(rr) && Buildable(rr.rdata)
    ensures ToRecord(rr).value.Some? && FromRecord(ToRecord(rr).value.value) == Some(Respelled(rr))
    ensures NormalRecord(Respelled(rr)) && RecordNamesOk(Respelled(rr))
    ensures Respelled(rr) == rr <==> NormalRecord(rr)
  {
    CodesRoundTrip(0, rr.rtype, rr.rclass, 0, NoError);
    CodesRoundTrip(TypeCode(rr.rtype), TypeFromCode(TypeCode(rr.rtype)), IN, 0, NoError);
    CodesRoundTrip(ClassCode(rr.rclass), A, ClassFromCode(ClassCode(rr.rclass)), 0, NoError);
    DataRoundTrip(TypeCode(rr.rtype), rr.rdata);
  }

  function Kept(rs: seq<Record>): seq<Record> {
    if rs == [] then [] else (if Buildable(rs[0].rdata) then [Respelled(rs[0])] else []) + Kept(rs[1..])
  }

  lemma {:induction false} SectionRoundTrip(rs: seq<Record>)
    requires SectionNamesOk(rs)
    ensures ToSection(rs).Ok? && FromSection(ToSection(rs).value) == Kept(rs)
    ensures NormalSection(Kept(rs)) && SectionNamesOk(Kept(rs))
    ensures |Kept(rs)| <= |rs|
  {
    if rs == [] {
    } else {
      assert RecordNamesOk(rs[0]);
      assert forall i :: 0 <= i < |rs[1..]| ==> rs[1..][i] == rs[i + 1];
      SectionRoundTrip(rs[1..]);
      var rest := ToSection(rs[1..]).value;
      if Buildable(rs[0].rdata) {
        RecordRoundTrip(rs[0]);
        var first := ToRecord(rs[0]).value.value;
        assert ([first] + rest)[1..] == rest;
      } else {
        assert [] + rest == rest;
      }
    }
  }

  lemma {:induction false} NormalIsKept(rs: seq<Record>)
    requires NormalSection(rs)
    ensures Kept(rs) == rs
  {
    if rs == [] {
    } else {
      assert NormalRecord(rs[0]);
      CodesRoundTrip(0, rs[0].rtype, rs[0].rclass, 0, NoError);
      assert forall i :: 0 <= i < |rs[1..]| ==> rs[1..][i] == rs[i + 1];
      NormalIsKept(rs[1..]);
    }
  }

  function Reasked(qs: seq<Question>): seq<Question> {
    if qs == [] then []
    else [Question(qs[0].qname, TypeFromCode(TypeCode(qs[0].qtype)), IN)] + Reasked(qs[1..])
  }

  lemma {:induction false} QuestionsRoundTrip(qs: seq<Question>)
    requires QuestionNamesOk(qs)
    ensures ToQuestions(qs).Ok? && FromQuestions(ToQuestions(qs).value) == Reasked(qs)
    ensures QuestionNamesOk(Reasked(qs))
    ensures forall i :: 0 <= i < |Reasked(qs)| ==> NormalQuestion(Reasked(qs)[i])
    ensures Reasked(qs) == qs <==> forall i :: 0 <= i < |qs| ==> NormalQuestion(qs[i])
  {
    if qs == [] {
    } else {
      QuestionsRoundTrip(qs[1..]);
      CodesRoundTrip(TypeCode(qs[0].qtype), qs[0].qtype, IN, 0, NoError);
      CodesRoundTrip(0, TypeFromCode(TypeCode(qs[0].qtype)), IN, 0, NoError);
      var rest := ToQuestions(qs[1..]).value;
      var first := LibQuestion(qs[0].qname, TypeCode(qs[0].qtype), 1);
      assert ([first] + rest)[1..] == rest;
      assert forall i :: 0 <= i < |qs[1..]| ==> qs[1..][i] == qs[i + 1];
      var r := Reasked(qs);
      assert r[1..] == Reasked(qs[1..]);
      if forall i :: 0 <= i < |qs| ==> NormalQuestion(qs[i]) {
        assert NormalQuestion(qs[0]);
        assert forall i :: 0 <= i < |qs[1..]| ==> NormalQuestion(qs[1..][i]);
      }
    }
  }

  // ------------------------------------------------------------ additional section

  lemma {:induction false} KeptWithoutOpt(rs: seq<Record>)
    ensures Kept(WithoutOpt(rs)) == Kept(rs)
  {
    if rs == [] {
    } else {
      KeptWithoutOpt(rs[1..]);
      if rs[0].rdata.Opt? {
        assert WithoutOpt(rs) == WithoutOpt(rs[1..]);
        assert Kept(rs) == Kept(rs[1..]);
      } else {
        assert WithoutOpt(rs)[1..] == WithoutOpt(rs[1..]);
      }
    }
  }

  /** The additional section after the round trip, its OPT record carrying the options in this order. */
  function Returned(rs: seq<Record>, order: seq<Option16>): seq<Record> {
    Kept(rs) + (if LastEdns(rs).Some? then [FromEdns(LastEdns(rs).value, order)] else [])
  }

  lemma {:induction false} LastEdnsPayload(rs: seq<Record>)
    ensures LastEdns(rs).Some? ==> LastEdns(rs).value.maxPayload >= 512
  {
    if rs == [] {
    } else {
      LastEdnsPayload(rs[..|rs| - 1]);
    }
  }

  lemma ReturnedIsNormal(rs: seq<Record>, order: seq<Option16>)
    requires SectionNamesOk(WithoutOpt(rs))
    ensures NormalAdditional(Returned(rs, order))
  {
    SectionRoundTrip(WithoutOpt(rs));
    KeptWithoutOpt(rs);
    LastEdnsPayload(rs);
    if LastEdns(rs).Some? {
      CodesRoundTrip(LastEdns(rs).value.maxPayload, A, IN, 0, NoError);
    }
  }

  lemma {:induction false} NormalHasNoEdns(rs: seq<Record>)
    requires NormalSection(rs)
    ensures LastEdns(rs) == None
  {
    if rs == [] {
    } else {
      assert NormalRecord(rs[|rs| - 1]);
      NormalHasNoEdns(rs[..|rs| - 1]);
    }
  }

  lemma OptRoundTrip(rr: Record, order: seq<Option16>)
    requires NormalOpt(rr) && Enumerates(order, ToEdns(rr).options)
    ensures SameRecord(FromEdns(ToEdns(rr), order), rr)
  {
    OptionsRoundTrip(order, ToEdns(rr).options);
    CodesRoundTrip(0, A, rr.rclass, 0, NoError);
  }

  lemma {:induction false} KeptPush(rs: seq<Record>, rr: Record)
    requires !Buildable(rr.rdata)
    ensures Kept(rs + [rr]) == Kept(rs)
  {
    if rs == [] {
      assert (rs + [rr])[1..] == [];
    } else {
      var rest := rs[1..];
      assert (rs + [rr])[1..] == rest + [rr] && (rs + [rr])[0] == rs[0];
      KeptPush(rest, rr);
    }
  }

  lemma SamePush(a: seq<Record>, x: Record, b: seq<Record>, y: Record)
    requires SameSection(a, b) && SameRecord(x, y)
    ensures SameSection(a + [x], b + [y])
  {
  }

  /** A normal section followed by a normal OPT record comes back. */
  lemma NormalWithOptReturns(front: seq<Record>, rr: Record, order: seq<Option16>)
    requires NormalSection(front) && NormalOpt(rr) && Enumerates(order, ToEdns(rr).options)
    ensures SameSection(Returned(front + [rr], order), front + [rr])
  {
    var rs := front + [rr];
    assert rs[..|rs| - 1] == front && LastEdns(rs) == Some(ToEdns(rr));
    KeptPush(front, rr);
    NormalIsKept(front);
    OptRoundTrip(rr, order);
    SamePush(front, FromEdns(ToEdns(rr), order), front, rr);
  }

  lemma NormalIsReturned(rs: seq<Record>, order: seq<Option16>)
    requires NormalAdditional(rs)
    requires LastEdns(rs).Some? ==> Enumerates(order, LastEdns(rs).value.options)
    ensures SameSection(Returned(rs, order), rs)
  {
    if rs != [] && rs[|rs| - 1].rdata.Opt? {
      var front, rr := rs[..|rs| - 1], rs[|rs| - 1];
      assert front + [rr] == rs;
      NormalWithOptReturns(front, rr, order);
    } else {
      NormalIsKept(rs);
      NormalHasNoEdns(rs);
      assert rs + [] == rs;
    }
  }

  lemma SameKeepsNormal(a: seq<Record>, b: seq<Record>)
    requires SameSection(a, b)
    ensures NormalAdditional(a) ==> NormalAdditional(b)
    ensures NormalSection(a) ==> NormalSection(b)
  {
    forall i | 0 <= i < |a|
      ensures NormalRecord(a[i]) ==> NormalRecord(b[i])
      ensures NormalOpt(a[i]) ==> NormalOpt(b[i])
    {
      assert SameRecord(a[i], b[i]);
    }
  }

  /** The additional section comes back as it was exactly when it was normal. */
  lemma {:induction false} ReturnedIff(rs: seq<Record>, order: seq<Option16>)
    requires SectionNamesOk(WithoutOpt(rs))
    requires LastEdns(rs).Some? ==> Enumerates(order, LastEdns(rs).value.options)
    ensures SameSection(Returned(rs, order), rs) <==> NormalAdditional(rs)
  {
    ReturnedIsNormal(rs, order);
    if SameSection(Returned(rs, order), rs) {
      SameKeepsNormal(Returned(rs, order), rs);
    }
    if NormalAdditional(rs) {
      NormalIsReturned(rs, order);
    }
  }

  lemma KeptIff(rs: seq<Record>)
    requires SectionNamesOk(rs)
    ensures SameSection(Kept(rs), rs) <==> NormalSection(rs)
  {
    SectionRoundTrip(rs);
    if SameSection(Kept(rs), rs) { SameKeepsNormal(Kept(rs), rs); }
    if NormalSection(rs) { NormalIsKept(rs); }
  }

  // ------------------------------------------------------------- whole messages

  lemma RcodeRoundTrip(r: ResponseCode)
    ensures FromRcode(RcodeCode(r) as int) == RcodeFromCode(RcodeCode(r))
    ensures !AliasRcode(FromRcode(RcodeCode(r) as int))
    ensures FromRcode(RcodeCode(r) as int) == r <==> !AliasRcode(r)
  {
    CodesRoundTrip(0, A, IN, RcodeCode(r), r);
    CodesRoundTrip(0, A, IN, 0, RcodeFromCode(RcodeCode(r)));
  }

  lemma BackAgain(m: Message, order: seq<Option16>)
    requires ToLibrary(m).Ok?
    ensures FromLibrary(ToLibrary(m).value, order) ==
      Message(m.id, m.flags, FromOp(ToOp(m.opcode)), FromRcode(RcodeCode(m.rcode) as int), Reasked(m.questions),
              Kept(m.answers), Kept(m.authority), Returned(m.additional, order))
  {
    ConvertsIff(m);
    QuestionsRoundTrip(m.questions);
    SectionRoundTrip(m.answers);
    SectionRoundTrip(m.authority);
    SectionRoundTrip(WithoutOpt(m.additional));
    KeptWithoutOpt(m.additional);
  }

  lemma {:induction false} BackIsNormal(m: Message, order: seq<Option16>)
    requires ToLibrary(m).Ok?
    requires ToLibrary(m).value.edns.Some? ==> Enumerates(order, ToLibrary(m).value.edns.value.options)
    ensures Normal(FromLibrary(ToLibrary(m).value, order))
  {
    BackAgain(m, order);
    ConvertsIff(m);
    QuestionsRoundTrip(m.questions);
    SectionRoundTrip(m.answers);
    SectionRoundTrip(m.authority);
    ReturnedIsNormal(m.additional, order);
    RcodeRoundTrip(m.rcode);
  }

  lemma {:induction false} BackIsSameIff(m: Message, order: seq<Option16>)
    requires ToLibrary(m).Ok?
    requires ToLibrary(m).value.edns.Some? ==> Enumerates(order, ToLibrary(m).value.edns.value.options)
    ensures Same(FromLibrary(ToLibrary(m).value, order), m) <==> Normal(m)
  {
    BackAgain(m, order);
    ConvertsIff(m);
    HeaderReturnsIff(m);
    KeptIff(m.answers);
    KeptIff(m.authority);
    ReturnedIff(m.additional, order);
  }

  lemma HeaderReturnsIff(m: Message)
    requires QuestionNamesOk(m.questions)
    ensures FromOp(ToOp(m.opcode)) == m.opcode <==> m.opcode in {Query, Status, Notify, Update}
    ensures FromRcode(RcodeCode(m.rcode) as int) == m.rcode <==> !AliasRcode(m.rcode)
    ensures Reasked(m.questions) == m.questions
       <==> forall i :: 0 <= i < |m.questions| ==> NormalQuestion(m.questions[i])
  {
    QuestionsRoundTrip(m.questions);
    RcodeRoundTrip(m.rcode);
  }

  /** Whatever order the library lists options in: the result of the round trip is normal, and it is the
      message itself, options compared as a map, exactly when the message was normal. */
  lemma {:induction false} RoundTripIff(m: Message, m': Message)
    requires RoundTrip(m, m')
    ensures Normal(m')
    ensures Same(m', m) <==> Normal(m)
  {
    var order :|
      && (ToLibrary(m).value.edns.Some? ==> Enumerates(order, ToLibrary(m).value.edns.value.options))
      && m' == FromLibrary(ToLibrary(m).value, order);
    BackIsNormal(m, order);
    BackIsSameIff(m, order);
  }

  lemma {:induction false} WithoutOptOfNormal(rs: seq<Record>)
    requires NormalSection(rs)
    ensures WithoutOpt(rs) == rs
  {
    if rs == [] {
    } else {
      assert NormalRecord(rs[0]);
      assert forall i :: 0 <= i < |rs[1..]| ==> rs[1..][i] == rs[i + 1];
      WithoutOptOfNormal(rs[1..]);
    }
  }

  lemma {:induction false} WithoutOptPush(rs: seq<Record>, rr: Record)
    requires rr.rdata.Opt?
    ensures WithoutOpt(rs + [rr]) == WithoutOpt(rs)
  {
    if rs == [] {
    } else {
      WithoutOptPush(rs[1..], rr);
      assert (rs + [rr])[1..] == rs[1..] + [rr];
    }
  }

  /** The round trip can always be taken again. */
  lemma {:induction false} ConvertsAgain(m: Message, m': Message)
    requires RoundTrip(m, m')
    ensures ToLibrary(m').Ok?
  {
    var order :|
      && (ToLibrary(m).value.edns.Some? ==> Enumerates(order, ToLibrary(m).value.edns.value.options))
      && m' == FromLibrary(ToLibrary(m).value, order);
    BackAgain(m, order);
    ConvertsIff(m);
    QuestionsRoundTrip(m.questions);
    SectionRoundTrip(m.answers);
    SectionRoundTrip(m.authority);
    SectionRoundTrip(WithoutOpt(m.additional));
    KeptWithoutOpt(m.additional);
    var kept := Kept(m.additional);
    WithoutOptOfNormal(kept);
    if LastEdns(m.additional).Some? {
      WithoutOptPush(kept, FromEdns(LastEdns(m.additional).value, order));
    } else {
      assert Returned(m.additional, order) == kept;
    }
    ConvertsIff(m');
  }

  /** Converting there and back twice is the same as once. */
  lemma {:induction false} RoundTripIsIdempotent(m: Message, m1: Message, m2: Message)
    requires RoundTrip(m, m1) && RoundTrip(m1, m2)
    ensures Same(m2, m1)
  {
    RoundTripIff(m, m1);
    RoundTripIff(m1, m2);
  }
}
