/** Fitting a response into a UDP datagram (`client_udp_limit`, `fit_udp_response` and the reply path of
    `handle_request` in src/server/udp.rs). The library's byte encoder is a parameter. */
module UdpResponse {
  import opened Common
  import opened DnsTypes
  import opened EdnsOptions
  import opened Wire

  type Encoder = LibMessage -> Option<Bytes>

  const MIN_UDP: nat := 512

  /** The record at this position is the first of type OPT. */
  predicate FirstOptAt(rs: seq<Record>, i: nat) {
    i < |rs| && rs[i].rtype == OPT && forall j :: 0 <= j < i ==> rs[j].rtype != OPT
  }

  function FirstOpt(rs: seq<Record>): (r: Option<Record>)
    ensures r.None? ==> forall i :: 0 <= i < |rs| ==> rs[i].rtype != OPT
    ensures r.Some? ==> exists i: nat :: FirstOptAt(rs, i) && rs[i] == r.value
  {
    if rs == [] then None
    else if rs[0].rtype == OPT then assert FirstOptAt(rs, 0); Some(rs[0])
    else
      var r := FirstOpt(rs[1..]);
      assert r.Some? ==> exists i: nat :: FirstOptAt(rs, i) && rs[i] == r.value by {
        if r.Some? {
          var i: nat :| FirstOptAt(rs[1..], i) && rs[1..][i] == r.value;
          assert forall j :: 0 < j < i + 1 ==> rs[j] == rs[1..][j - 1];
          assert FirstOptAt(rs, i + 1) && rs[i + 1] == r.value;
        }
      }
      r
  }

  lemma FirstOptIsUnique(rs: seq<Record>, i: nat, j: nat)
    requires FirstOptAt(rs, i) && FirstOptAt(rs, j)
    ensures i == j
  {
  }

  function Max(a: int, b: int): int {
    if a < b then b else a
  }

  /** The limit that a request sets: the number in the class field of its first OPT record, but never below
      512, and 512 without such a record. */
  ghost predicate LimitOf(request: Message, limit: nat) {
    && (forall i: nat :: FirstOptAt(request.additional, i) ==>
          limit == Max(512, ClassCode(request.additional[i].rclass)))
    && ((forall i :: 0 <= i < |request.additional| ==> request.additional[i].rtype != OPT) ==> limit == 512)
  }

  /** A named class is too small to be a payload size. */
  function ClientUdpLimit(request: Message): (limit: nat)
    ensures LimitOf(request, limit)
  {
    var rs := request.additional;
    match FirstOpt(rs)
    case None => MIN_UDP
    case Some(rr) =>
      var limit := match rr.rclass
        case UnknownClass(size) => if size >= MIN_UDP then size else MIN_UDP
        case _ => MIN_UDP;
      assert LimitOf(request, limit) by {
        var k: nat :| FirstOptAt(rs, k) && rs[k] == rr;
        forall i: nat | FirstOptAt(rs, i)
          ensures rs[i] == rr
        {
          FirstOptIsUnique(rs, i, k);
        }
      }
      limit
  }

  /** The limit told by a position: of the first OPT record, or past the end if there is none. */
  predicate LimitAt(rs: seq<Record>, i: nat, limit: nat) {
    if i < |rs| then FirstOptAt(rs, i) && limit == Max(512, ClassCode(rs[i].rclass))
    else (forall j :: 0 <= j < |rs| ==> rs[j].rtype != OPT) && limit == 512
  }

  lemma LimitIsUnique(request: Message, i: nat, limit: nat)
    requires LimitAt(request.additional, i, limit)
    ensures limit == ClientUdpLimit(request)
  {
  }

  function Serialize(encode: Encoder, m: Message): Option<Bytes> {
    match ToLibrary(m)
    case Ok(h) => encode(h)
    case Err(_) => None
  }

  function Truncated(m: Message): Message {
    m.(flags := m.flags.(tc := true), answers := [], authority := [], additional := [])
  }

  method FitUdpResponse(encode: Encoder, response: Message, serialized: Bytes, limit: nat) returns (sent: Bytes)
    ensures |serialized| <= limit ==> sent == serialized
    ensures |serialized| > limit && Serialize(encode, Truncated(response)).Some? ==>
      sent == Serialize(encode, Truncated(response)).value
    ensures |serialized| > limit && Serialize(encode, Truncated(response)).None? ==> sent == serialized
  {
    if |serialized| <= limit {
      return serialized;
    }
    var copy := response;
    copy := copy.(flags := copy.flags.(tc := true));
    copy := copy.(answers := []);
    copy := copy.(authority := []);
    copy := copy.(additional := []);
    assert copy == Truncated(response);
    var lib := ConvertToLibrary(copy);
    match lib
    case Err(_) => return serialized;
    case Ok(h) =>
      match encode(h) {
        case Some(data) => return data;
        case None => return serialized;
      }
  }

  // ------------------------------------------------------------ truncation

  /** Header plus the question entries, uncompressed, sections 4.1.1 and 4.1.2 of RFC 1035. */
  function BareSize(qs: seq<LibQuestion>): nat {
    if qs == [] then 12 else NameLength(qs[0].qname) + 4 + BareSize(qs[1..])
  }

  predicate Bare(h: LibMessage) {
    h.answers == [] && h.nameServers == [] && h.additionals == [] && h.edns == None
  }

  function Stripped(h: LibMessage): LibMessage {
    h.(flags := h.flags.(tc := true), answers := [], nameServers := [], additionals := [], edns := None)
  }

  /** What is assumed of the encoder: a message that encodes still does with TC set and its records
      removed, into no more than its uncompressed size. */
  ghost predicate EncodesStripped(encode: Encoder) {
    forall h :: encode(h).Some? ==> encode(Stripped(h)).Some? && |encode(Stripped(h)).value| <= BareSize(h.queries)
  }

  lemma {:induction false} QuestionNames(qs: seq<Question>)
    requires ToQuestions(qs).Ok?
    ensures |ToQuestions(qs).value| == |qs|
    ensures forall i :: 0 <= i < |qs| ==> ToQuestions(qs).value[i].qname == qs[i].qname && NameOk(qs[i].qname)
  {
    if qs == [] {
    } else {
      QuestionNames(qs[1..]);
      assert forall i :: 0 < i < |qs| ==> qs[i] == qs[1..][i - 1];
    }
  }

  /** A response that converts still converts after truncation, and keeps its id, its codes and its
      questions; only TC is set and the records are gone. */
  lemma TruncatedConverts(m: Message)
    requires ToLibrary(m).Ok?
    ensures
      var h := ToLibrary(m).value;
      ToLibrary(Truncated(m)) == Ok(Stripped(h))
  {
  }

  /** What is sent for an answer: the handler's message under the request's id, cut down if need be. */
  ghost predicate Sent(encode: Encoder, request: Message, answer: Message, sent: Bytes) {
    var response := answer.(id := request.id);
    match Serialize(encode, response)
    case None => false
    case Some(serialized) =>
      if |serialized| <= ClientUdpLimit(request) then sent == serialized
      else match Serialize(encode, Truncated(response))
        case Some(data) => sent == data
        case None => sent == serialized
  }

  method HandleRequest(encode: Encoder, request: Message, answer: Message) returns (sent: Option<Bytes>)
    ensures sent.Some? ==> Sent(encode, request, answer, sent.value)
    ensures sent.None? <==> Serialize(encode, answer.(id := request.id)).None?
  {
    var limit := ClientUdpLimit(request);
    var response := answer.(id := request.id);
    var lib := ConvertToLibrary(response);
    if lib.Err? { return None; }
    var serialized := encode(lib.value);
    if serialized.None? { return None; }
    var data := FitUdpResponse(encode, response, serialized.value, limit);
    return Some(data);
  }

  lemma QuestionsFit(m: Message)
    requires ToLibrary(m).Ok? && |m.questions| <= 1
    ensures BareSize(ToLibrary(m).value.queries) <= 12 + 255 + 4
  {
    QuestionNames(m.questions);
    var qs := ToLibrary(m).value.queries;
    if |qs| == 1 {
      assert qs[1..] == [];
      assert BareSize(qs) == NameLength(qs[0].qname) + 4 + BareSize([]);
    }
  }

  /** With `full` the answer under the request's id: the datagram encodes it whole if it fits the limit that
      the request sets, and otherwise its header with TC set and its questions; the oversized fallback is
      never sent; and with at most one question the datagram always fits. */
  lemma {:induction false} ReplyFits(
    encode: Encoder, request: Message, answer: Message, i: nat, limit: nat, sent: Bytes)
    requires EncodesStripped(encode) && Sent(encode, request, answer, sent)
    requires LimitAt(request.additional, i, limit)
    ensures ToLibrary(answer).Ok?
    ensures
      var full := ToLibrary(answer).value.(id := request.id);
      && encode(full).Some?
      && (if |encode(full).value| <= limit then sent == encode(full).value
          else encode(Stripped(full)) == Some(sent) && |sent| <= BareSize(full.queries))
      && (|answer.questions| <= 1 ==> |sent| <= limit)
      && (|answer.questions| <= 1 && |encode(full).value| > limit ==> |sent| <= 12 + 255 + 4)
  {
    var response := answer.(id := request.id);
    var full := ToLibrary(response).value;
    assert ToLibrary(answer).Ok? && full == ToLibrary(answer).value.(id := request.id);
    TruncatedConverts(response);
    LimitIsUnique(request, i, limit);
    if |answer.questions| <= 1 { QuestionsFit(response); }
  }

  /** What is left of a message is told by its fields: same id, codes and questions, TC, no records. */
  lemma StrippedKeeps(h: LibMessage)
    ensures
      var s := Stripped(h);
      && s.id == h.id && s.op == h.op && s.rcode == h.rcode && s.queries == h.queries
      && s.flags.tc && s.flags.(tc := h.flags.tc) == h.flags && Bare(s)
  {
  }
}
