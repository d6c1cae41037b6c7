/** What the two forms of a message have to do with each other, field by field, and the round trip that
    starts on the library's side (the converters in src/dns/wire.rs). */
module WireMeaning {
  import opened Common
  import opened DnsTypes
  import opened EdnsOptions
  import opened Wire

  // --------------------------------------------------------------- the relation

  /** The same 32-bit pattern, read without and with sign. */
  predicate SamePattern(n: u32, i: i32) {
    n == i || n == i + 0x1_0000_0000
  }

  /** Record data and library data that say the same. */
  predicate Carries(d: RData, l: LibData) {
    match (d, l)
    case (Address4(a), LibA(b)) => a == b
    case (Address6(a), LibAAAA(b)) => a == b
    case (Alias(a), LibCNAME(b)) => a == b
    case (MailExchange(p, a), LibMX(q, b)) => p == q && a == b
    case (NameServer(a), LibNS(b)) => a == b
    case (Pointer(a), LibPTR(b)) => a == b
    case (Text(a), LibTXT(b)) => a == b
    case (Authority(m, r, serial, refresh, retry, expire, minimum), LibSOA(m', r', s', rf', rt', ex', mi')) =>
      && m == m' && r == r' && serial == s' && minimum == mi'
      && SamePattern(refresh, rf') && SamePattern(retry, rt') && SamePattern(expire, ex')
    case (Service(p, w, port, a), LibSRV(p', w', port', b)) => p == p' && w == w' && port == port' && a == b
    case (Raw(a), LibUnknown(_, b)) => a == b
    case (Raw(a), LibOther(b)) => b == Some(a)
    case _ => false
  }

  /** Typed data that cannot be emitted has no bytes to keep. */
  predicate Emits(lr: LibRecord) {
    lr.data.Some? && lr.data.value != LibOther(None)
  }

  predicate RecordCarries(rr: Record, lr: LibRecord) {
    && rr.name == lr.name && TypeCode(rr.rtype) == lr.rtype && ClassCode(rr.rclass) == lr.rclass && rr.ttl == lr.ttl
    && lr.data.Some? && Carries(rr.rdata, lr.data.value)
  }

  predicate Aligned(rs: seq<Record>, ls: seq<LibRecord>) {
    |rs| == |ls| && forall i :: 0 <= i < |rs| ==> RecordCarries(rs[i], ls[i])
  }

  function Emitting(ls: seq<LibRecord>): seq<LibRecord> {
    if ls == [] then [] else (if Emits(ls[0]) then [ls[0]] else []) + Emitting(ls[1..])
  }

  function Convertible(rs: seq<Record>): seq<Record> {
    if rs == [] then [] else (if Buildable(rs[0].rdata) then [rs[0]] else []) + Convertible(rs[1..])
  }

  lemma AlignedCons(rr: Record, lr: LibRecord, rs: seq<Record>, ls: seq<LibRecord>)
    requires RecordCarries(rr, lr) && Aligned(rs, ls)
    ensures Aligned([rr] + rs, [lr] + ls)
  {
  }

  // ------------------------------------------------------------- from the library

  lemma CodesKept(v: u16)
    ensures TypeCode(TypeFromCode(v)) == v && ClassCode(ClassFromCode(v)) == v
  {
    CodesRoundTrip(v, A, IN, 0, NoError);
  }

  lemma FromRecordCarries(lr: LibRecord)
    ensures FromRecord(lr).Some? <==> Emits(lr)
    ensures FromRecord(lr).Some? ==> RecordCarries(FromRecord(lr).value, lr) && Buildable(FromRecord(lr).value.rdata)
  {
    CodesKept(lr.rtype);
    CodesKept(lr.rclass);
  }

  /** A section of the library comes over as one record per library record that has something to emit, in
      order, each saying the same: typed data without a variant of its own as its raw bytes. */
  lemma {:induction false} FromSectionCarries(ls: seq<LibRecord>)
    ensures Aligned(FromSection(ls), Emitting(ls))
  {
    if ls == [] {
    } else {
      var lr, rest := ls[0], ls[1..];
      FromRecordCarries(lr);
      FromSectionCarries(rest);
      if Emits(lr) {
        AlignedCons(FromRecord(lr).value, lr, FromSection(rest), Emitting(rest));
      } else {
        assert [] + FromSection(rest) == FromSection(rest) && [] + Emitting(rest) == Emitting(rest);
      }
    }
  }

  predicate QuestionCarries(q: Question, l: LibQuestion) {
    q.qname == l.qname && TypeCode(q.qtype) == l.qtype && ClassCode(q.qclass) == l.qclass
  }

  lemma {:induction false} FromQuestionsCarry(ls: seq<LibQuestion>)
    ensures |FromQuestions(ls)| == |ls|
    ensures forall i :: 0 <= i < |ls| ==> QuestionCarries(FromQuestions(ls)[i], ls[i])
  {
    if ls == [] {
    } else {
      CodesKept(ls[0].qtype);
      CodesKept(ls[0].qclass);
      FromQuestionsCarry(ls[1..]);
    }
  }

  predicate SameOp(o: OpCode, l: LibOp) {
    match l
    case LibQuery => o == Query
    case LibStatus => o == Status
    case LibNotify => o == Notify
    case LibUpdate => o == Update
  }

  /** The OPT record and the EDNS data that say the same, section 6.1.2 of RFC 6891: the payload size stands
      in the class field, and the highest flag bit is DO. */
  predicate EdnsCarries(rr: Record, e: Edns, size: u16) {
    && rr.rdata.Opt? && ClassCode(rr.rclass) == size
    && rr.rdata.extendedRcode == e.rcodeHigh && rr.rdata.version == e.version
    && (rr.rdata.flags / 0x8000 == 1 <==> e.dnssecOk)
    && ToMap(Cut(rr.rdata.options)) == e.options
  }

  /** Everything a library message holds, header, questions, records and EDNS data, is in the message it
      becomes, whatever order the options are listed in. */
  lemma {:induction false} FromLibraryCarries(h: LibMessage, order: seq<Option16>)
    requires h.edns.Some? ==> Enumerates(order, h.edns.value.options)
    ensures
      var m := FromLibrary(h, order);
      && m.id == h.id && m.flags == h.flags && SameOp(m.opcode, h.op)
      && RcodeCode(m.rcode) as int == (if h.rcode > 255 then 255 else h.rcode)
      && |m.questions| == |h.queries|
      && (forall i :: 0 <= i < |h.queries| ==> QuestionCarries(m.questions[i], h.queries[i]))
      && Aligned(m.answers, Emitting(h.answers)) && Aligned(m.authority, Emitting(h.nameServers))
      && (h.edns.None? ==> Aligned(m.additional, Emitting(h.additionals)))
      && (h.edns.Some? ==>
            && m.additional != [] && Aligned(m.additional[..|m.additional| - 1], Emitting(h.additionals))
            && var opt := m.additional[|m.additional| - 1];
               && opt.name == [] && opt.rtype == OPT && opt.ttl == 0
               && EdnsCarries(opt, h.edns.value, h.edns.value.maxPayload))
  {
    FromQuestionsCarry(h.queries);
    FromSectionCarries(h.answers);
    FromSectionCarries(h.nameServers);
    FromSectionCarries(h.additionals);
    CodesRoundTrip(0, A, IN, (if h.rcode > 255 then 255 else h.rcode) as byte, NoError);
    var ar := FromSection(h.additionals);
    if h.edns.Some? {
      var opt := FromEdns(h.edns.value, order);
      OptionsRoundTrip(order, h.edns.value.options);
      CodesKept(h.edns.value.maxPayload);
      assert (ar + [opt])[..|ar|] == ar;
    } else {
      assert ar + [] == ar;
    }
  }

  // --------------------------------------------------------------- to the library

  /** Exactly the data that the library has a form for are built. */
  lemma BuildableIff(d: RData)
    ensures Buildable(d) <==> exists l :: Carries(d, l)
  {
    if Buildable(d) { assert Carries(d, ToData(0, d)); }
  }

  /** The names inside record data. */
  function NamesIn(d: RData): seq<Name> {
    match d
    case Alias(n) => [n]
    case MailExchange(_, n) => [n]
    case NameServer(n) => [n]
    case Pointer(n) => [n]
    case Authority(m, r, _, _, _, _, _) => [m, r]
    case Service(_, _, _, n) => [n]
    case _ => []
  }

  /** A record fails to convert exactly if its own name or a name inside its data is illegal. */
  lemma RecordFailsIff(rr: Record)
    ensures ToRecord(rr).Err? <==>
      !NameOk(rr.name) || exists i :: 0 <= i < |NamesIn(rr.rdata)| && !NameOk(NamesIn(rr.rdata)[i])
    ensures ToRecord(rr) == Ok(None) <==> ToRecord(rr).Ok? && !exists l :: Carries(rr.rdata, l)
  {
    BuildableIff(rr.rdata);
    var names := NamesIn(rr.rdata);
    assert DataNamesOk(rr.rdata) <==> forall i :: 0 <= i < |names| ==> NameOk(names[i]) by {
      if rr.rdata.Authority? {
        assert names[0] == rr.rdata.mname && names[1] == rr.rdata.rname;
      } else if |names| == 1 {
        assert DataNamesOk(rr.rdata) == NameOk(names[0]);
      }
    }
  }

  lemma ToRecordCarries(rr: Record)
    requires RecordNamesOk(rr) && Buildable(rr.rdata)
    ensures ToRecord(rr).Ok? && ToRecord(rr).value.Some? && RecordCarries(rr, ToRecord(rr).value.value)
  {
  }

  /** A section goes to the library as its convertible records, in order, each saying the same. */
  lemma {:induction false} ToSectionCarries(rs: seq<Record>)
    requires SectionNamesOk(rs)
    ensures ToSection(rs).Ok? && Aligned(Convertible(rs), ToSection(rs).value)
  {
    if rs == [] {
    } else {
      var rr, rest := rs[0], rs[1..];
      assert RecordNamesOk(rr) && forall i :: 0 <= i < |rest| ==> rest[i] == rs[i + 1];
      ToSectionCarries(rest);
      if Buildable(rr.rdata) {
        ToRecordCarries(rr);
        AlignedCons(rr, ToRecord(rr).value.value, Convertible(rest), ToSection(rest).value);
      } else {
        assert [] + Convertible(rest) == Convertible(rest) && [] + ToSection(rest).value == ToSection(rest).value;
      }
    }
  }

  lemma {:induction false} ToQuestionsCarry(qs: seq<Question>)
    requires QuestionNamesOk(qs)
    ensures ToQuestions(qs).Ok? && |ToQuestions(qs).value| == |qs|
    ensures forall i :: 0 <= i < |qs| ==>
      ToQuestions(qs).value[i] == LibQuestion(qs[i].qname, TypeCode(qs[i].qtype), 1)
  {
    if qs == [] {
    } else {
      var rest := qs[1..];
      assert forall i :: 0 <= i < |rest| ==> rest[i] == qs[i + 1];
      ToQuestionsCarry(rest);
    }
  }

  lemma {:induction false} LastEdnsIsLast(rs: seq<Record>, k: nat)
    requires k < |rs| && rs[k].rdata.Opt? && forall i :: k < i < |rs| ==> !rs[i].rdata.Opt?
    ensures LastEdns(rs).Some? && EdnsCarries(rs[k], LastEdns(rs).value, ClassCode(rs[k].rclass))
    ensures LastEdns(rs).value.maxPayload == if ClassCode(rs[k].rclass) < 512 then 512 else ClassCode(rs[k].rclass)
    decreases |rs|
  {
    if k == |rs| - 1 {
    } else {
      LastEdnsIsLast(rs[..|rs| - 1], k);
    }
  }

  lemma {:induction false} NoOptNoEdns(rs: seq<Record>)
    requires forall i :: 0 <= i < |rs| ==> !rs[i].rdata.Opt?
    ensures LastEdns(rs) == None
  {
    if rs == [] {
    } else {
      NoOptNoEdns(rs[..|rs| - 1]);
    }
  }

  /** Everything a message holds that the library can carry is in the library message it becomes. */
  lemma {:induction false} ToLibraryCarries(m: Message)
    requires ToLibrary(m).Ok?
    ensures
      var h := ToLibrary(m).value;
      && h.id == m.id && h.flags == m.flags && h.rcode == RcodeCode(m.rcode) as int
      && (m.opcode in {Query, Status, Notify, Update} ==> SameOp(m.opcode, h.op))
      && (m.opcode !in {Query, Status, Notify, Update} ==> h.op == LibQuery)
      && |h.queries| == |m.questions|
      && (forall i :: 0 <= i < |m.questions| ==>
            h.queries[i] == LibQuestion(m.questions[i].qname, TypeCode(m.questions[i].qtype), 1))
      && Aligned(Convertible(m.answers), h.answers) && Aligned(Convertible(m.authority), h.nameServers)
      && Aligned(Convertible(WithoutOpt(m.additional)), h.additionals)
  {
    ConvertsIff(m);
    ToQuestionsCarry(m.questions);
    ToSectionCarries(m.answers);
    ToSectionCarries(m.authority);
    ToSectionCarries(WithoutOpt(m.additional));
  }

  // ----------------------------------------------------- from the library and back

  /** Bytes come back under the record's own type. */
  function AsUnknown(lr: LibRecord): LibRecord {
    match lr.data
    case Some(LibOther(Some(b))) => lr.(data := Some(LibUnknown(lr.rtype, b)))
    case Some(LibUnknown(_, b)) => lr.(data := Some(LibUnknown(lr.rtype, b)))
    case _ => lr
  }

  function AllAsUnknown(ls: seq<LibRecord>): seq<LibRecord> {
    if ls == [] then [] else [AsUnknown(ls[0])] + AllAsUnknown(ls[1..])
  }

  predicate LibDataNamesOk(l: LibData) {
    match l
    case LibCNAME(n) => NameOk(n)
    case LibMX(_, n) => NameOk(n)
    case LibNS(n) => NameOk(n)
    case LibPTR(n) => NameOk(n)
    case LibSOA(m, r, _, _, _, _, _) => NameOk(m) && NameOk(r)
    case LibSRV(_, _, _, n) => NameOk(n)
    case _ => true
  }

  predicate LibNamesOk(ls: seq<LibRecord>) {
    forall i :: 0 <= i < |ls| ==> NameOk(ls[i].name) && (ls[i].data.Some? ==> LibDataNamesOk(ls[i].data.value))
  }

  lemma LibDataReturns(rtype: u16, l: LibData)
    requires l != LibOther(None)
    ensures
      var d := FromData(l);
      && d.Some? && Buildable(d.value) && DataNamesOk(d.value) == LibDataNamesOk(l)
      && ToData(rtype, d.value) ==
         match l
         case LibOther(Some(b)) => LibUnknown(rtype, b)
         case LibUnknown(_, b) => LibUnknown(rtype, b)
         case _ => l
  {
  }

  lemma LibRecordReturns(lr: LibRecord)
    requires Emits(lr) && NameOk(lr.name) && LibDataNamesOk(lr.data.value)
    ensures FromRecord(lr).Some? && ToRecord(FromRecord(lr).value) == Ok(Some(AsUnknown(lr)))
  {
    CodesKept(lr.rtype);
    CodesKept(lr.rclass);
    LibDataReturns(lr.rtype, lr.data.value);
  }

  lemma FromSectionHead(ls: seq<LibRecord>)
    requires ls != []
    ensures FromSection(ls) ==
      if FromRecord(ls[0]).Some? then [FromRecord(ls[0]).value] + FromSection(ls[1..]) else FromSection(ls[1..])
  {
    assert [] + FromSection(ls[1..]) == FromSection(ls[1..]);
  }

  lemma EmittingHead(ls: seq<LibRecord>)
    requires ls != []
    ensures Emitting(ls) == if Emits(ls[0]) then [ls[0]] + Emitting(ls[1..]) else Emitting(ls[1..])
  {
    assert [] + Emitting(ls[1..]) == Emitting(ls[1..]);
  }

  lemma ToSectionCons(rr: Record, rs: seq<Record>, x: LibRecord, xs: seq<LibRecord>)
    requires ToRecord(rr) == Ok(Some(x)) && ToSection(rs) == Ok(xs)
    ensures ToSection([rr] + rs) == Ok([x] + xs)
  {
    assert ([rr] + rs)[1..] == rs;
  }

  lemma AsUnknownCons(lr: LibRecord, ls: seq<LibRecord>)
    ensures AllAsUnknown([lr] + ls) == [AsUnknown(lr)] + AllAsUnknown(ls)
  {
    assert ([lr] + ls)[1..] == ls;
  }

  /** A section of the library that goes out and back is what it was, without the records that emit nothing
      and with typed data as bytes under the record's type. */
  lemma {:induction false} LibSectionReturns(ls: seq<LibRecord>)
    requires LibNamesOk(ls)
    ensures ToSection(FromSection(ls)) == Ok(AllAsUnknown(Emitting(ls)))
  {
    if ls == [] {
    } else {
      var lr, rest := ls[0], ls[1..];
      assert forall i :: 0 <= i < |rest| ==> rest[i] == ls[i + 1];
      FromRecordCarries(lr);
      FromSectionHead(ls);
      EmittingHead(ls);
      LibSectionReturns(rest);
      if Emits(lr) {
        LibRecordReturns(lr);
        ToSectionCons(FromRecord(lr).value, FromSection(rest), AsUnknown(lr), AllAsUnknown(Emitting(rest)));
        AsUnknownCons(lr, Emitting(rest));
      }
    }
  }

  lemma {:induction false} FromSectionIsNormal(ls: seq<LibRecord>)
    ensures NormalSection(FromSection(ls))
  {
    if ls == [] {
    } else {
      var lr := ls[0];
      FromSectionIsNormal(ls[1..]);
      FromRecordCarries(lr);
      CodesRoundTrip(lr.rtype, TypeFromCode(lr.rtype), IN, 0, NoError);
      CodesRoundTrip(lr.rclass, A, ClassFromCode(lr.rclass), 0, NoError);
    }
  }

  lemma EdnsReturns(e: Edns, order: seq<Option16>)
    requires Enumerates(order, e.options)
    ensures ToEdns(FromEdns(e, order)) == e.(maxPayload := AtLeast512(e.maxPayload))
  {
    OptionsRoundTrip(order, e.options);
    CodesKept(e.maxPayload);
  }

  lemma LastEdnsOfPush(rs: seq<Record>, rr: Record)
    requires rr.rdata.Opt?
    ensures LastEdns(rs + [rr]) == Some(ToEdns(rr))
  {
    assert (rs + [rr])[..|rs|] == rs;
  }

  /** The additional section with its OPT record put back is taken apart again. */
  lemma {:induction false} AdditionalReturns(ls: seq<LibRecord>, e: Edns, order: seq<Option16>)
    requires LibNamesOk(ls) && Enumerates(order, e.options)
    ensures
      var rs := FromSection(ls) + [FromEdns(e, order)];
      && ToSection(WithoutOpt(rs)) == Ok(AllAsUnknown(Emitting(ls)))
      && LastEdns(rs) == Some(e.(maxPayload := AtLeast512(e.maxPayload)))
  {
    var ar, opt := FromSection(ls), FromEdns(e, order);
    FromSectionIsNormal(ls);
    WithoutOptOfNormal(ar);
    WithoutOptPush(ar, opt);
    LibSectionReturns(ls);
    EdnsReturns(e, order);
    LastEdnsOfPush(ar, opt);
  }

  function AsInternet(ls: seq<LibQuestion>): seq<LibQuestion> {
    if ls == [] then [] else [ls[0].(qclass := 1)] + AsInternet(ls[1..])
  }

  lemma {:induction false} LibQuestionsReturn(ls: seq<LibQuestion>)
    requires forall i :: 0 <= i < |ls| ==> NameOk(ls[i].qname)
    ensures ToQuestions(FromQuestions(ls)) == Ok(AsInternet(ls))
  {
    if ls == [] {
    } else {
      var rest := ls[1..];
      assert forall i :: 0 <= i < |rest| ==> rest[i] == ls[i + 1];
      CodesKept(ls[0].qtype);
      LibQuestionsReturn(rest);
      var q := Question(ls[0].qname, TypeFromCode(ls[0].qtype), ClassFromCode(ls[0].qclass));
      assert ([q] + FromQuestions(rest))[1..] == FromQuestions(rest);
    }
  }

  function SizedEdns(edns: Option<Edns>): Option<Edns> {
    match edns
    case None => None
    case Some(e) => Some(e.(maxPayload := AtLeast512(e.maxPayload)))
  }

  lemma {:induction false} AnyAdditionalReturns(h: LibMessage, order: seq<Option16>)
    requires LibNamesOk(h.additionals) && (h.edns.Some? ==> Enumerates(order, h.edns.value.options))
    ensures ToSection(WithoutOpt(FromLibrary(h, order).additional)) == Ok(AllAsUnknown(Emitting(h.additionals)))
    ensures LastEdns(FromLibrary(h, order).additional) == SizedEdns(h.edns)
  {
    if h.edns.Some? {
      AdditionalReturns(h.additionals, h.edns.value, order);
    } else {
      var ar := FromSection(h.additionals);
      LibSectionReturns(h.additionals);
      FromSectionIsNormal(h.additionals);
      WithoutOptOfNormal(ar);
      NormalHasNoEdns(ar);
      assert ar + [] == ar;
    }
  }

  function Clipped(rcode: u16): u16 {
    if rcode > 255 then 255 else rcode
  }

  lemma HeaderReturns(op: LibOp, rcode: u16)
    ensures ToOp(FromOp(op)) == op && RcodeCode(FromRcode(rcode)) as int == Clipped(rcode)
  {
    CodesRoundTrip(0, A, IN, Clipped(rcode) as byte, NoError);
  }

  /** What comes back for a library message: questions become internet ones, response codes above 255
      become 255, typed data becomes bytes, data that emits nothing is gone, and the payload size is at
      least 512. */
  function Back(h: LibMessage): LibMessage {
    LibMessage(h.id, h.flags, h.op, Clipped(h.rcode), AsInternet(h.queries), AllAsUnknown(Emitting(h.answers)),
               AllAsUnknown(Emitting(h.nameServers)), AllAsUnknown(Emitting(h.additionals)), SizedEdns(h.edns))
  }

  lemma Assembled(m: Message, h: LibMessage)
    requires m.id == h.id && m.flags == h.flags && ToOp(m.opcode) == h.op && RcodeCode(m.rcode) as int == h.rcode
    requires ToQuestions(m.questions) == Ok(h.queries) && ToSection(m.answers) == Ok(h.answers)
    requires ToSection(m.authority) == Ok(h.nameServers) && ToSection(WithoutOpt(m.additional)) == Ok(h.additionals)
    requires LastEdns(m.additional) == h.edns
    ensures ToLibrary(m) == Ok(h)
  {
  }

  /** A library message that goes out and back is what it was, but for what the other form cannot say. */
  lemma {:induction false} LibraryReturns(h: LibMessage, order: seq<Option16>)
    requires forall i :: 0 <= i < |h.queries| ==> NameOk(h.queries[i].qname)
    requires LibNamesOk(h.answers) && LibNamesOk(h.nameServers) && LibNamesOk(h.additionals)
    requires h.edns.Some? ==> Enumerates(order, h.edns.value.options)
    ensures ToLibrary(FromLibrary(h, order)) == Ok(Back(h))
  {
    HeaderReturns(h.op, h.rcode);
    LibQuestionsReturn(h.queries);
    LibSectionReturns(h.answers);
    LibSectionReturns(h.nameServers);
    AnyAdditionalReturns(h, order);
    Assembled(FromLibrary(h, order), Back(h));
  }
}
