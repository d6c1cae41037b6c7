/** DNS code points and their named variants (src/dns/types.rs). */
module DnsTypes {
  import opened Common

  datatype RecordType =
    | A | NS | CNAME | SOA | PTR | MX | TXT | AAAA | SRV | OPT | DS | RRSIG | NSEC | DNSKEY
    | NSEC3 | NSEC3PARAM | SVCB | HTTPS | CAA | UnknownType(code: u16)

  function TypeFromCode(v: u16): RecordType {
    match v
    case 1 => A
    case 2 => NS
    case 5 => CNAME
    case 6 => SOA
    case 12 => PTR
    case 15 => MX
    case 16 => TXT
    case 28 => AAAA
    case 33 => SRV
    case 41 => OPT
    case 43 => DS
    case 46 => RRSIG
    case 47 => NSEC
    case 48 => DNSKEY
    case 50 => NSEC3
    case 51 => NSEC3PARAM
    case 64 => SVCB
    case 65 => HTTPS
    case 257 => CAA
    case _ => UnknownType(v)
  }

  function TypeCode(t: RecordType): u16 {
    match t
    case A => 1
    case NS => 2
    case CNAME => 5
    case SOA => 6
    case PTR => 12
    case MX => 15
    case TXT => 16
    case AAAA => 28
    case SRV => 33
    case OPT => 41
    case DS => 43
    case RRSIG => 46
    case NSEC => 47
    case DNSKEY => 48
    case NSEC3 => 50
    case NSEC3PARAM => 51
    case SVCB => 64
    case HTTPS => 65
    case CAA => 257
    case UnknownType(v) => v
  }

  datatype RecordClass = IN | CH | HS | UnknownClass(code: u16)

  function ClassFromCode(v: u16): RecordClass {
    match v
    case 1 => IN
    case 3 => CH
    case 4 => HS
    case _ => UnknownClass(v)
  }

  function ClassCode(c: RecordClass): u16 {
    match c
    case IN => 1
    case CH => 3
    case HS => 4
    case UnknownClass(v) => v
  }

  datatype OpCode = Query | IQuery | Status | Notify | Update | UnknownOp(code: byte)

  datatype ResponseCode =
    | NoError | FormErr | ServFail | NXDomain | NotImp | Refused | YXDomain | YXRRSet | NXRRSet
    | NotAuth | NotZone | UnknownRcode(code: byte)

  function RcodeFromCode(v: byte): ResponseCode {
    match v
    case 0 => NoError
    case 1 => FormErr
    case 2 => ServFail
    case 3 => NXDomain
    case 4 => NotImp
    case 5 => Refused
    case 6 => YXDomain
    case 7 => YXRRSet
    case 8 => NXRRSet
    case 9 => NotAuth
    case 10 => NotZone
    case _ => UnknownRcode(v)
  }

  function RcodeCode(r: ResponseCode): byte {
    match r
    case NoError => 0
    case FormErr => 1
    case ServFail => 2
    case NXDomain => 3
    case NotImp => 4
    case Refused => 5
    case YXDomain => 6
    case YXRRSet => 7
    case NXRRSet => 8
    case NotAuth => 9
    case NotZone => 10
    case UnknownRcode(v) => v
  }

  function OpFromCode(v: byte): OpCode {
    match v
    case 0 => Query
    case 1 => IQuery
    case 2 => Status
    case 4 => Notify
    case 5 => Update
    case _ => UnknownOp(v)
  }

  function OpNumber(o: OpCode): byte {
    match o
    case Query => 0
    case IQuery => 1
    case Status => 2
    case Notify => 4
    case Update => 5
    case UnknownOp(v) => v
  }

  /** The numbers that the IANA registries assign to the named types, classes, response and operation codes. */
  lemma AssignedNumbers()
    ensures TypeFromCode(1) == A && TypeFromCode(2) == NS && TypeFromCode(5) == CNAME && TypeFromCode(6) == SOA
    ensures TypeFromCode(12) == PTR && TypeFromCode(15) == MX && TypeFromCode(16) == TXT && TypeFromCode(28) == AAAA
    ensures TypeFromCode(33) == SRV && TypeFromCode(41) == OPT && TypeFromCode(43) == DS && TypeFromCode(46) == RRSIG
    ensures TypeFromCode(47) == NSEC && TypeFromCode(48) == DNSKEY && TypeFromCode(50) == NSEC3
    ensures TypeFromCode(51) == NSEC3PARAM && TypeFromCode(64) == SVCB && TypeFromCode(65) == HTTPS
    ensures TypeFromCode(257) == CAA
    ensures ClassFromCode(1) == IN && ClassFromCode(3) == CH && ClassFromCode(4) == HS
    ensures RcodeFromCode(0) == NoError && RcodeFromCode(1) == FormErr && RcodeFromCode(2) == ServFail
    ensures RcodeFromCode(3) == NXDomain && RcodeFromCode(4) == NotImp && RcodeFromCode(5) == Refused
    ensures RcodeFromCode(6) == YXDomain && RcodeFromCode(7) == YXRRSet && RcodeFromCode(8) == NXRRSet
    ensures RcodeFromCode(9) == NotAuth && RcodeFromCode(10) == NotZone
    ensures OpFromCode(0) == Query && OpFromCode(1) == IQuery && OpFromCode(2) == Status
    ensures OpFromCode(4) == Notify && OpFromCode(5) == Update
  {
  }

  lemma OpCodesRoundTrip(v: byte, o: OpCode)
    ensures OpNumber(OpFromCode(v)) == v
    ensures OpFromCode(OpNumber(o)) == o <==> !AliasOp(o)
  {
  }

  predicate AliasOp(o: OpCode) {
    o.UnknownOp? && o.code in {0, 1, 2, 4, 5}
  }

  /** A code keeps its number through the named form; a named form keeps its name through the number
      unless it is the unknown variant carrying a named code's number. */
  lemma CodesRoundTrip(v: u16, t: RecordType, c: RecordClass, b: byte, r: ResponseCode)
    ensures TypeCode(TypeFromCode(v)) == v && ClassCode(ClassFromCode(v)) == v && RcodeCode(RcodeFromCode(b)) == b
    ensures TypeFromCode(TypeCode(t)) == t <==> !AliasType(t)
    ensures ClassFromCode(ClassCode(c)) == c <==> !AliasClass(c)
    ensures RcodeFromCode(RcodeCode(r)) == r <==> !AliasRcode(r)
  {
    TypesRoundTrip(v, t);
    RcodesRoundTrip(b, r);
  }

  lemma TypesRoundTrip(v: u16, t: RecordType)
    ensures TypeCode(TypeFromCode(v)) == v
    ensures TypeFromCode(TypeCode(t)) == t <==> !AliasType(t)
  {
  }

  lemma RcodesRoundTrip(b: byte, r: ResponseCode)
    ensures RcodeCode(RcodeFromCode(b)) == b
    ensures RcodeFromCode(RcodeCode(r)) == r <==> !AliasRcode(r)
  {
  }

  predicate AliasType(t: RecordType) {
    t.UnknownType? && t.code in {1, 2, 5, 6, 12, 15, 16, 28, 33, 41, 43, 46, 47, 48, 50, 51, 64, 65, 257}
  }

  predicate AliasClass(c: RecordClass) {
    c.UnknownClass? && c.code in {1, 3, 4}
  }

  predicate AliasRcode(r: ResponseCode) {
    r.UnknownRcode? && r.code <= 10
  }
}
