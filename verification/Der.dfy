/**
 The DER walker that finds the validity period of a certificate (section 4.1 of RFC 5280)
 by definite lengths (section 8.1.3 of X.690).
 */
module Der {
  import opened Common
  import CertTime

  const WORD := 0x1_0000_0000_0000_0000  // one more than the largest machine length
  const WORD_BYTES := 8

  // ---------------------------------------------------------------- one element

  datatype Read = Bad | Read(tag: Byte, value: seq<Byte>, rest: seq<Byte>)

  function BigEndian(b: seq<Byte>): nat
    decreases |b|
  {
    if b == [] then 0 else BigEndian(b[..|b| - 1]) * 256 + b[|b| - 1]
  }

  /** The specification of the element reader, with exact arithmetic. */
  function ReadTlv(input: seq<Byte>): Read {
    if |input| < 2 then Bad
    else if input[1] < 128 then Split(input[0], input[1], input[2..])
    else
      var n := input[1] as int - 128;
      if n == 0 || n > WORD_BYTES || n > |input| - 2 then Bad
      else Split(input[0], BigEndian(input[2..2 + n]), input[2 + n..])
  }

  function Split(tag: Byte, length: nat, body: seq<Byte>): Read {
    if length > |body| then Bad else Read(tag, body[..length], body[length..])
  }

  function Power256(n: nat): nat {
    if n == 0 then 1 else 256 * Power256(n - 1)
  }

  lemma {:induction false} BigEndianBound(b: seq<Byte>)
    ensures BigEndian(b) < Power256(|b|)
    decreases |b|
  {
    if b != [] { BigEndianBound(b[..|b| - 1]); }
  }

  lemma {:induction false} Power256Monotone(m: nat, n: nat)
    requires m <= n
    ensures Power256(m) <= Power256(n)
  {
    if m < n { Power256Monotone(m, n - 1); }
  }

  lemma EightOctets()
    ensures Power256(WORD_BYTES) == WORD
  {
    assert Power256(2) == 0x1_0000;
    assert Power256(4) == 0x1_0000_0000;
    assert Power256(6) == 0x1_0000_0000_0000;
  }

  lemma ShortWordsFit(n: nat)
    requires n <= WORD_BYTES
    ensures Power256(n) <= WORD
  {
    Power256Monotone(n, WORD_BYTES);
    EightOctets();
  }

  /** The element reader as written: the length is accumulated in a machine word whose left
      shift silently drops high bits.  None are ever dropped and the addition never overflows,
      so the result is that of exact arithmetic. */
  method ReadDerTlv(data: seq<Byte>) returns (r: Read)
    ensures r == ReadTlv(data)
  {
    var input := data;
    if |input| == 0 { return Bad; }
    var tag := input[0];
    input := input[1..];
    if |input| == 0 { return Bad; }
    var first := input[0];
    input := input[1..];
    assert input == data[2..];
    var length: nat := 0;
    if first < 128 {
      length := first as int;
    } else {
      var lengthBytes := first as int - 128;
      if lengthBytes == 0 { return Bad; }
      if lengthBytes > WORD_BYTES || lengthBytes > |input| { return Bad; }
      var octets := input[..lengthBytes];
      for i := 0 to lengthBytes
        invariant length == BigEndian(octets[..i])
      {
        assert octets[..i + 1][..i] == octets[..i];
        BigEndianBound(octets[..i + 1]);
        ShortWordsFit(i + 1);
        var shifted := (length * 256) % WORD;
        if shifted + octets[i] as int >= WORD { return Bad; }
        length := shifted + octets[i] as int;
      }
      assert octets[..lengthBytes] == octets == data[2..2 + lengthBytes];
      input := input[lengthBytes..];
      assert input == data[2 + lengthBytes..];
    }
    if length > |input| { return Bad; }
    return Read(tag, input[..length], input[length..]);
  }

  /** Definite length octets that announce `n`: the short form, or up to eight octets. */
  predicate IsLength(l: seq<Byte>, n: nat) {
    || (|l| == 1 && l[0] < 128 && l[0] == n)
    || (2 <= |l| <= 1 + WORD_BYTES && l[0] as int == 128 + |l| - 1 && BigEndian(l[1..]) == n)
  }

  datatype Element = Element(tag: Byte, length: seq<Byte>, value: seq<Byte>) {
    predicate Valid() {
      IsLength(length, |value|)
    }

    function Octets(): seq<Byte> {
      [tag] + length + value
    }
  }

  /** A written element followed by anything is read back, and the rest is left over. */
  lemma WrittenIsRead(e: Element, rest: seq<Byte>)
    requires e.Valid()
    ensures ReadTlv(e.Octets() + rest) == Read(e.tag, e.value, rest)
  {
    var input := e.Octets() + rest;
    var k := 1 + |e.length|;
    assert input[1] == e.length[0];
    assert input[k..] == e.value + rest;
    assert input[1..k] == e.length;
    if |e.length| > 1 { assert input[2..k] == e.length[1..]; }
  }

  /** Whatever is read splits the input into tag, length, value and rest. */
  lemma ReadIsWritten(input: seq<Byte>) returns (e: Element)
    requires ReadTlv(input).Read?
    ensures e.Valid() && input == e.Octets() + ReadTlv(input).rest
    ensures e.tag == ReadTlv(input).tag && e.value == ReadTlv(input).value
  {
    var r := ReadTlv(input);
    var k := if input[1] < 128 then 2 else 2 + (input[1] as int - 128);
    e := Element(input[0], input[1..k], r.value);
    if k > 2 { assert e.length[1..] == input[2..k]; }
    assert input[k..] == r.value + r.rest;
  }

  // ---------------------------------------------------------------- the minimal encoder

  function Octets256(n: nat): seq<Byte> {
    if n == 0 then [] else Octets256(n / 256) + [n % 256]
  }

  function MinimalLength(n: nat): seq<Byte>
    requires n < WORD
  {
    if n < 128 then [n]
    else
      EightOctets();
      Octets256Size(n, WORD_BYTES);
      [128 + |Octets256(n)|] + Octets256(n)
  }

  lemma {:induction false} Octets256Size(n: nat, k: nat)
    requires n < Power256(k)
    ensures |Octets256(n)| <= k
  {
    if n > 0 { Octets256Size(n / 256, k - 1); }
  }

  lemma {:induction false} Octets256Value(n: nat)
    ensures BigEndian(Octets256(n)) == n
  {
    if n > 0 {
      Octets256Value(n / 256);
      var o := Octets256(n);
      assert o[..|o| - 1] == Octets256(n / 256);
    }
  }

  function Encode(tag: Byte, value: seq<Byte>): Element
    requires |value| < WORD
  {
    Element(tag, MinimalLength(|value|), value)
  }

  /** The encoder's elements, of any size a machine can hold, are read back exactly. */
  lemma EncodeThenRead(tag: Byte, value: seq<Byte>, rest: seq<Byte>)
    requires |value| < WORD
    ensures ReadTlv(Encode(tag, value).Octets() + rest) == Read(tag, value, rest)
  {
    var l := MinimalLength(|value|);
    if |value| >= 128 {
      EightOctets();
      Octets256Size(|value|, WORD_BYTES);
      Octets256Value(|value|);
      assert l[1..] == Octets256(|value|);
      assert Octets256(|value|) != [];
    }
    WrittenIsRead(Encode(tag, value), rest);
  }

  // ---------------------------------------------------------------- the certificate

  function ReadValue(input: seq<Byte>, tag: Byte): Read {
    var r := ReadTlv(input);
    if r.Read? && r.tag == tag then r else Bad
  }

  datatype Validity = NoValidity | Validity(notBefore: int, notAfter: int)

  function ReadTimes(validity: seq<Byte>): Validity {
    var nb := ReadTlv(validity);
    if nb.Bad? then NoValidity else
    var na := ReadTlv(nb.rest);
    if na.Bad? || na.rest != [] then NoValidity else
    var from := CertTime.ParseCertificateTime(nb.tag, nb.value);
    var to := CertTime.ParseCertificateTime(na.tag, na.value);
    if from.None? || to.None? || from.value > to.value then NoValidity
    else Validity(from.value, to.value)
  }

  function ReadTbs(tbs: seq<Byte>): Validity {
    var version := if tbs != [] && tbs[0] == 0xa0 then ReadValue(tbs, 0xa0) else Read(0xa0, [], tbs);
    if version.Bad? then NoValidity else
    var serial := ReadValue(version.rest, 0x02);
    if serial.Bad? then NoValidity else
    var algorithm := ReadValue(serial.rest, 0x30);
    if algorithm.Bad? then NoValidity else
    var issuer := ReadValue(algorithm.rest, 0x30);
    if issuer.Bad? then NoValidity else
    var validity := ReadValue(issuer.rest, 0x30);
    if validity.Bad? then NoValidity else ReadTimes(validity.value)
  }

  function ParseCertificateValidity(der: seq<Byte>): Validity {
    var certificate := ReadValue(der, 0x30);
    if certificate.Bad? || certificate.rest != [] then NoValidity else
    var tbs := ReadValue(certificate.value, 0x30);
    if tbs.Bad? then NoValidity else
    var algorithm := ReadValue(tbs.rest, 0x30);
    if algorithm.Bad? then NoValidity else
    var signature := ReadValue(algorithm.rest, 0x03);
    if signature.Bad? || signature.rest != [] then NoValidity else ReadTbs(tbs.value)
  }

  /** The skeleton of a certificate: every element the reader looks at, with whatever
      definite length octets it was written; `tail` is the rest of the signed part. */
  datatype Certificate = Certificate(
    outer: Element, tbs: Element, algorithm: Element, signature: Element,
    version: Option<Element>, serial: Element, tbsAlgorithm: Element, issuer: Element,
    validity: Element, notBefore: Element, notAfter: Element, tail: seq<Byte>)

  predicate Is(e: Element, tag: Byte) {
    e.Valid() && e.tag == tag
  }

  predicate TimesFormed(c: Certificate) {
    && c.notBefore.Valid() && c.notAfter.Valid()
    && c.validity.value == c.notBefore.Octets() + c.notAfter.Octets()
  }

  function AfterVersion(c: Certificate): seq<Byte> {
    c.serial.Octets() + (c.tbsAlgorithm.Octets() + (c.issuer.Octets() + (c.validity.Octets() + c.tail)))
  }

  predicate TbsFormed(c: Certificate) {
    && (c.version.Some? ==> Is(c.version.value, 0xa0))
    && Is(c.serial, 0x02) && Is(c.tbsAlgorithm, 0x30) && Is(c.issuer, 0x30) && Is(c.validity, 0x30)
    && c.tbs.value == (if c.version.Some? then c.version.value.Octets() else []) + AfterVersion(c)
  }

  predicate WellFormed(c: Certificate) {
    && Is(c.outer, 0x30) && Is(c.tbs, 0x30) && Is(c.algorithm, 0x30) && Is(c.signature, 0x03)
    && c.outer.value == c.tbs.Octets() + (c.algorithm.Octets() + c.signature.Octets())
    && TbsFormed(c) && TimesFormed(c)
  }

  /** What the two times of a skeleton say. */
  function Stated(c: Certificate): Validity {
    var from := CertTime.ParseCertificateTime(c.notBefore.tag, c.notBefore.value);
    var to := CertTime.ParseCertificateTime(c.notAfter.tag, c.notAfter.value);
    if from.None? || to.None? || from.value > to.value then NoValidity
    else Validity(from.value, to.value)
  }

  lemma TimesRead(c: Certificate)
    requires TimesFormed(c)
    ensures ReadTimes(c.validity.value) == Stated(c)
  {
    hide CertTime.ParseCertificateTime;
    hide ReadTlv;
    WrittenIsRead(c.notBefore, c.notAfter.Octets());
    assert c.notAfter.Octets() + [] == c.notAfter.Octets();
    WrittenIsRead(c.notAfter, []);
  }

  lemma TbsRead(c: Certificate)
    requires TbsFormed(c)
    ensures ReadTbs(c.tbs.value) == ReadTimes(c.validity.value)
  {
    hide ReadTlv, ReadTimes;
    var rest := AfterVersion(c);
    if c.version.Some? {
      WrittenIsRead(c.version.value, rest);
      assert c.tbs.value[0] == c.version.value.tag;
    } else {
      assert c.tbs.value == rest;
      assert rest[0] == c.serial.tag;
    }
    WrittenIsRead(c.validity, c.tail);
    WrittenIsRead(c.issuer, c.validity.Octets() + c.tail);
    WrittenIsRead(c.tbsAlgorithm, c.issuer.Octets() + (c.validity.Octets() + c.tail));
    WrittenIsRead(c.serial, c.tbsAlgorithm.Octets() + (c.issuer.Octets() + (c.validity.Octets() + c.tail)));
  }

  /** Writing any certificate skeleton and reading it returns exactly the encoded period. */
  lemma WriteThenReadCertificate(c: Certificate)
    requires WellFormed(c)
    ensures ParseCertificateValidity(c.outer.Octets()) == Stated(c)
  {
    hide ReadTlv, ReadTbs, ReadTimes, Stated;
    assert c.outer.Octets() + [] == c.outer.Octets();
    WrittenIsRead(c.outer, []);
    WrittenIsRead(c.tbs, c.algorithm.Octets() + c.signature.Octets());
    WrittenIsRead(c.algorithm, c.signature.Octets());
    assert c.signature.Octets() + [] == c.signature.Octets();
    WrittenIsRead(c.signature, []);
    TbsRead(c);
    TimesRead(c);
  }

  lemma ReadElement(input: seq<Byte>, tag: Byte) returns (e: Element, rest: seq<Byte>)
    requires ReadValue(input, tag).Read?
    ensures Is(e, tag) && input == e.Octets() + rest
    ensures ReadValue(input, tag) == Read(tag, e.value, rest)
  {
    hide ReadTlv;
    e := ReadIsWritten(input);
    rest := ReadTlv(input).rest;
  }

  /** Whatever is accepted is a certificate skeleton that states the answer. */
  lemma ReadCertificateIsWritten(der: seq<Byte>) returns (c: Certificate)
    requires ParseCertificateValidity(der).Validity?
    ensures WellFormed(c) && der == c.outer.Octets()
    ensures ParseCertificateValidity(der) == Stated(c)
  {
    hide ReadTlv, ReadTbs, ReadTimes, Stated;
    var outer, r0 := ReadElement(der, 0x30);
    assert r0 == [] && der == outer.Octets();
    var tbs, r1 := ReadElement(outer.value, 0x30);
    var algorithm, r2 := ReadElement(r1, 0x30);
    var signature, r3 := ReadElement(r2, 0x03);
    assert r3 == [] && r2 == signature.Octets();
    c := ReadTbsIsWritten(tbs);
    c := c.(outer := outer, algorithm := algorithm, signature := signature);
    WriteThenReadCertificate(c);
  }

  lemma ReadTbsIsWritten(tbs: Element) returns (c: Certificate)
    requires ReadTbs(tbs.value).Validity?
    ensures TbsFormed(c) && TimesFormed(c) && c.tbs == tbs
  {
    hide ReadTlv, CertTime.ParseCertificateTime;
    var input := tbs.value;
    var version := None;
    if input != [] && input[0] == 0xa0 {
      var v, rest := ReadElement(input, 0xa0);
      version := Some(v);
      input := rest;
    }
    var serial, r1 := ReadElement(input, 0x02);
    var algorithm, r2 := ReadElement(r1, 0x30);
    var issuer, r3 := ReadElement(r2, 0x30);
    var validity, tail := ReadElement(r3, 0x30);
    var notBefore := ReadIsWritten(validity.value);
    var notAfter := ReadIsWritten(ReadTlv(validity.value).rest);
    assert ReadTlv(validity.value).rest == notAfter.Octets();
    c := Certificate(tbs, tbs, tbs, tbs, version, serial, algorithm, issuer, validity, notBefore, notAfter, tail);
    assert input == AfterVersion(c);
    assert version.None? ==> tbs.value == [] + AfterVersion(c);
  }
}
