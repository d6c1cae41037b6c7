/** EDNS options as a flat list of code, length and value, section 6.1.2 of RFC 6891
    (`edns_options_blob` and `set_edns_options` in src/dns/wire.rs). */
module EdnsOptions {
  import opened Common

  /** A length field has 16 bits. */
  type Payload = s: Bytes | |s| < 0x1_0000 witness []

  datatype Option16 = Option16(code: u16, value: Payload)

  type OptionMap = map<u16, Payload>

  function BigEndian(n: u16): (r: Bytes)
    ensures |r| == 2
  {
    [(n / 256) as byte, (n % 256) as byte]
  }

  function FromBigEndian(hi: byte, lo: byte): u16 {
    (hi as int) * 256 + (lo as int)
  }

  lemma BigEndianRoundTrip(n: u16)
    ensures FromBigEndian(BigEndian(n)[0], BigEndian(n)[1]) == n
  {
  }

  /** High byte first, in both directions. */
  lemma HighByteFirst(n: u16, hi: byte, lo: byte)
    ensures |BigEndian(n)| == 2
    ensures BigEndian(n) == [hi, lo] <==> n == 256 * (hi as int) + (lo as int)
    ensures FromBigEndian(hi, lo) == 256 * (hi as int) + (lo as int)
  {
  }

  /** Section 6.1.2 of RFC 6891: code, length of the value, value. */
  lemma OptionLayout(o: Option16)
    ensures
      var b := EncodeOne(o);
      && |b| == 4 + |o.value| && b[..2] == BigEndian(o.code) && b[2..4] == BigEndian(|o.value|) && b[4..] == o.value
  {
  }

  function EncodeOne(o: Option16): Bytes {
    BigEndian(o.code) + BigEndian(|o.value|) + o.value
  }

  function Encode(os: seq<Option16>): Bytes {
    if os == [] then [] else EncodeOne(os[0]) + Encode(os[1..])
  }

  // --------------------------------------------------- what arbitrary bytes mean

  /** Neither a header nor a whole option is left. */
  predicate Exhausted(b: Bytes) {
    |b| < 4 || 4 + FromBigEndian(b[2], b[3]) > |b|
  }

  /** The complete options at the front of the bytes. */
  function Cut(b: Bytes): seq<Option16>
    decreases |b|
  {
    if Exhausted(b) then []
    else
      var n := FromBigEndian(b[2], b[3]);
      [Option16(FromBigEndian(b[0], b[1]), b[4..4 + n])] + Cut(b[4 + n..])
  }

  function ToMap(os: seq<Option16>): OptionMap {
    if os == [] then map[] else ToMap(os[..|os| - 1])[os[|os| - 1].code := os[|os| - 1].value]
  }

  lemma ToMapPush(os: seq<Option16>, o: Option16)
    ensures ToMap(os + [o]) == ToMap(os)[o.code := o.value]
  {
    assert (os + [o])[..|os + [o]| - 1] == os;
  }

  lemma CutHead(b: Bytes)
    requires !Exhausted(b)
    ensures
      var n := FromBigEndian(b[2], b[3]);
      Cut(b) == [Option16(FromBigEndian(b[0], b[1]), b[4..4 + n])] + Cut(b[4 + n..])
  {
  }

  /** The options at the front of the bytes, inserted into a map one by one. */
  function InsertAll(m: OptionMap, b: Bytes): OptionMap
    decreases |b|
  {
    if Exhausted(b) then m
    else
      var n := FromBigEndian(b[2], b[3]);
      InsertAll(m[FromBigEndian(b[0], b[1]) := b[4..4 + n]], b[4 + n..])
  }

  lemma InsertStops(m: OptionMap, b: Bytes, i: nat)
    requires i <= |b| && (i + 4 > |b| || i + 4 + FromBigEndian(b[i + 2], b[i + 3]) > |b|)
    ensures InsertAll(m, b[i..]) == m
  {
    assert Exhausted(b[i..]);
  }

  lemma InsertOne(m: OptionMap, b: Bytes, i: nat, end: nat, code: u16, value: Payload)
    requires i + 4 <= end <= |b| && end == i + 4 + FromBigEndian(b[i + 2], b[i + 3])
    requires code == FromBigEndian(b[i], b[i + 1]) && value == b[i + 4..end]
    ensures InsertAll(m, b[i..]) == InsertAll(m[code := value], b[end..])
  {
    var here := b[i..];
    var n := FromBigEndian(here[2], here[3]);
    assert here[4..4 + n] == value && here[4 + n..] == b[end..];
  }

  /** Inserting one by one lets the last duplicate win. */
  lemma {:induction false} InsertAllIsMap(seen: seq<Option16>, b: Bytes)
    ensures InsertAll(ToMap(seen), b) == ToMap(seen + Cut(b))
    decreases |b|
  {
    if Exhausted(b) {
      assert seen + [] == seen;
    } else {
      var n := FromBigEndian(b[2], b[3]);
      var o, rest := Option16(FromBigEndian(b[0], b[1]), b[4..4 + n]), b[4 + n..];
      CutHead(b);
      ToMapPush(seen, o);
      InsertAllIsMap(seen + [o], rest);
      Assoc(seen, [o], Cut(rest));
    }
  }

  // ------------------------------------------------------------- the two loops

  method EdnsOptionsBlob(os: seq<Option16>) returns (blob: Bytes)
    ensures blob == Encode(os)
  {
    blob := [];
    var k := 0;
    ghost var whole := Encode(os);
    assert os[0..] == os && [] + whole == whole;
    while k < |os|
      invariant k <= |os|
      invariant blob + Encode(os[k..]) == whole
    {
      assert os[k..][0] == os[k] && os[k..][1..] == os[k + 1..];
      ghost var before := blob;
      blob := blob + BigEndian(os[k].code);
      blob := blob + BigEndian(|os[k].value|);
      blob := blob + os[k].value;
      assert blob == before + EncodeOne(os[k]);
      Assoc(before, EncodeOne(os[k]), Encode(os[k + 1..]));
      k := k + 1;
    }
    assert os[k..] == [] && blob + [] == blob;
  }

  lemma InsertAllStart(b: Bytes)
    ensures InsertAll(map[], b[0..]) == ToMap(Cut(b))
  {
    InsertAllIsMap([], b);
    assert [] + Cut(b) == Cut(b) && b[0..] == b;
  }

  method SetEdnsOptions(options: Bytes) returns (m: OptionMap)
    ensures m == ToMap(Cut(options))
  {
    m := map[];
    ghost var whole := ToMap(Cut(options));
    InsertAllStart(options);
    var i := 0;
    while i + 4 <= |options|
      invariant 0 <= i <= |options|
      invariant InsertAll(m, options[i..]) == whole
    {
      var code := FromBigEndian(options[i], options[i + 1]);
      var len := FromBigEndian(options[i + 2], options[i + 3]);
      var end := i + 4 + len;
      if end > |options| {
        break;
      }
      var value: Payload := options[i + 4..end];
      InsertOne(m, options, i, end, code, value);
      m := m[code := value];
      i := end;
    }
    InsertStops(m, options, i);
  }

  // ---------------------------------------------------------------- the codec

  lemma CutStep(o: Option16, rest: Bytes)
    ensures Cut(EncodeOne(o) + rest) == [o] + Cut(rest)
  {
    var b := EncodeOne(o) + rest;
    var n := |o.value|;
    BigEndianRoundTrip(o.code);
    BigEndianRoundTrip(n);
    assert b[0] == BigEndian(o.code)[0] && b[1] == BigEndian(o.code)[1];
    assert b[2] == BigEndian(n)[0] && b[3] == BigEndian(n)[1];
    assert b[4..4 + n] == o.value && b[4 + n..] == rest;
  }

  /** Encoded options followed by anything are read back first. */
  lemma {:induction false} CutEncoded(os: seq<Option16>, rest: Bytes)
    ensures Cut(Encode(os) + rest) == os + Cut(rest)
  {
    if os == [] {
      assert Encode(os) + rest == rest && os + Cut(rest) == Cut(rest);
    } else {
      var first, tail := EncodeOne(os[0]), Encode(os[1..]);
      Assoc(first, tail, rest);
      CutStep(os[0], tail + rest);
      CutEncoded(os[1..], rest);
      Assoc([os[0]], os[1..], Cut(rest));
      assert [os[0]] + os[1..] == os;
    }
  }

  lemma HeaderRoundTrip(hi: byte, lo: byte)
    ensures BigEndian(FromBigEndian(hi, lo)) == [hi, lo]
  {
  }

  lemma EncodeCons(o: Option16, os: seq<Option16>)
    ensures Encode([o] + os) == EncodeOne(o) + Encode(os)
  {
    assert ([o] + os)[1..] == os;
  }

  lemma HeadIsOption(b: Bytes)
    requires !Exhausted(b)
    ensures
      var n := FromBigEndian(b[2], b[3]);
      b == EncodeOne(Option16(FromBigEndian(b[0], b[1]), b[4..4 + n])) + b[4 + n..]
  {
    var n := FromBigEndian(b[2], b[3]);
    HeaderRoundTrip(b[0], b[1]);
    HeaderRoundTrip(b[2], b[3]);
    assert EncodeOne(Option16(FromBigEndian(b[0], b[1]), b[4..4 + n])) == b[..4 + n];
  }

  /** Any bytes are the encoding of the options cut from them plus an exhausted remainder: nothing that
      could still be read is skipped. */
  lemma {:induction false} CutIsLongest(b: Bytes) returns (rest: Bytes)
    ensures b == Encode(Cut(b)) + rest && Exhausted(rest)
    decreases |b|
  {
    if Exhausted(b) {
      rest := b;
    } else {
      var n := FromBigEndian(b[2], b[3]);
      var o := Option16(FromBigEndian(b[0], b[1]), b[4..4 + n]);
      rest := CutIsLongest(b[4 + n..]);
      CutHead(b);
      HeadIsOption(b);
      EncodeCons(o, Cut(b[4 + n..]));
      Assoc(EncodeOne(o), Encode(Cut(b[4 + n..])), rest);
    }
  }

  /** Any list of options that the bytes begin with is the beginning of what is cut from them. */
  lemma PrefixIsCut(b: Bytes, os: seq<Option16>)
    requires Encode(os) <= b
    ensures os <= Cut(b)
  {
    assert b == Encode(os) + b[|Encode(os)|..];
    CutEncoded(os, b[|Encode(os)|..]);
  }

  /** `os` lists the entries of the map, each once, in some order. */
  ghost predicate Enumerates(os: seq<Option16>, m: OptionMap) {
    && (forall i, j :: 0 <= i < j < |os| ==> os[i].code != os[j].code)
    && (forall i :: 0 <= i < |os| ==> os[i].code in m && m[os[i].code] == os[i].value)
    && (forall c :: c in m ==> exists i :: 0 <= i < |os| && os[i].code == c)
  }

  lemma {:induction false} ToMapHolds(os: seq<Option16>, i: nat)
    requires i < |os| && forall j :: i < j < |os| ==> os[j].code != os[i].code
    ensures os[i].code in ToMap(os) && ToMap(os)[os[i].code] == os[i].value
    decreases |os|
  {
    if i < |os| - 1 { ToMapHolds(os[..|os| - 1], i); }
  }

  lemma {:induction false} ToMapOnly(os: seq<Option16>, c: u16)
    requires c in ToMap(os)
    ensures exists i :: 0 <= i < |os| && os[i].code == c
    decreases |os|
  {
    var short := os[..|os| - 1];
    if os[|os| - 1].code != c {
      ToMapOnly(short, c);
      var i :| 0 <= i < |short| && short[i].code == c;
      assert os[i].code == c;
    }
  }

  lemma EnumeratedMap(os: seq<Option16>, m: OptionMap)
    requires Enumerates(os, m)
    ensures ToMap(os) == m
  {
    forall c | c in m
      ensures c in ToMap(os) && ToMap(os)[c] == m[c]
    {
      var i :| 0 <= i < |os| && os[i].code == c;
      ToMapHolds(os, i);
    }
    forall c | c in ToMap(os)
      ensures c in m
    {
      ToMapOnly(os, c);
    }
  }

  /** Flattening a map in any order and parsing the bytes gives the map back. */
  lemma OptionsRoundTrip(os: seq<Option16>, m: OptionMap)
    requires Enumerates(os, m)
    ensures ToMap(Cut(Encode(os))) == m
  {
    CutEncoded(os, []);
    assert Encode(os) + [] == Encode(os) && os + Cut([]) == os;
    EnumeratedMap(os, m);
  }
}
