/** MagicDns::answer of src/dns.cpp, and the proof that what it sends is a well-formed response
    (RFC 1035 sections 4.1.1 to 4.1.3) and agrees with the records pushed in maps. */
module DnsAnswer {
  import opened Bytes
  import opened IpAlloc
  import opened StoreModel
  import opened DnsName
  import Netmap

  const TYPE_A: nat := 1
  const TYPE_AAAA: nat := 28
  const TYPE_ANY: nat := 255
  const CLASS_IN: nat := 1
  const TTL: nat := 30

  // ---------------------------------------------------------------- lookup

  /** std::tolower in the C locale. */
  function LowerChar(c: char): char {
    if 'A' <= c <= 'Z' then (c as int + 32) as char else c
  }

  function Lower(t: string): (l: string)
    ensures |l| == |t|
  {
    seq(|t|, i requires 0 <= i < |t| => LowerChar(t[i]))
  }

  predicate Matches(n: Node, want: string, domain: string) {
    var host := Lower(Netmap.HostLabel(n));
    var fqdn := host + "." + Lower(domain);
    want == host || want == fqdn || want == fqdn + "."
  }

  predicate SameLetter(a: char, b: char) {
    || a == b
    || ('A' <= a <= 'Z' && b as int == a as int + 32)
    || ('A' <= b <= 'Z' && a as int == b as int + 32)
  }

  /** Names that differ only in the case of ASCII letters are the same when compared, and no others. */
  lemma CaseIgnored(t: string, u: string)
    ensures Lower(t) == Lower(u) <==> |t| == |u| && forall i :: 0 <= i < |t| ==> SameLetter(t[i], u[i])
  {
    if Lower(t) == Lower(u) {
      forall i | 0 <= i < |t|
        ensures SameLetter(t[i], u[i])
      {
        assert LowerChar(t[i]) == Lower(t)[i] == Lower(u)[i] == LowerChar(u[i]);
      }
    }
  }

  /** A node answers to its host name, and to its qualified name with or without a final dot. */
  lemma AnswersTo(n: Node, want: string, domain: string)
    ensures var host := Lower(if n.hostname == "" then "node-" + n.stableId else n.hostname);
            var full := host + "." + Lower(domain);
            Matches(n, want, domain) <==> want in [host, full, full + "."]
  {
  }

  /** The first node whose host name or qualified name it is. */
  function Lookup(nodes: seq<Node>, want: string, domain: string): (r: Option<Node>)
    ensures r.Some? ==> r.value in nodes && Matches(r.value, want, domain)
    ensures r.None? ==> forall n :: n in nodes ==> !Matches(n, want, domain)
  {
    if nodes == [] then None
    else if Matches(nodes[0], want, domain) then Some(nodes[0])
    else Lookup(nodes[1..], want, domain)
  }

  method Find(nodes: seq<Node>, want: string, domain: string) returns (r: Option<Node>)
    ensures r == Lookup(nodes, want, domain)
  {
    for i := 0 to |nodes|
      invariant Lookup(nodes, want, domain) == Lookup(nodes[i..], want, domain)
    {
      if Matches(nodes[i], want, domain) {
        return Some(nodes[i]);
      }
      assert nodes[i..][1..] == nodes[i + 1..];
    }
    r := None;
  }

  // ---------------------------------------------------------------- the response

  /** A resource record whose owner is a pointer to the question's name at offset 12. */
  function RecordBytes(kind: nat, data: seq<byte>): seq<byte> {
    [0xc0, 0x0c] + Be16(kind) + Be16(CLASS_IN) + Be32(TTL) + Be16(|data|) + data
  }

  datatype Answer = Answer(kind: nat, data: seq<byte>)

  /** A record of that kind if it was asked for and the address text parses. */
  function AnswerOf(kind: nat, qtype: nat, parsed: Option<seq<byte>>): seq<Answer> {
    if (qtype == kind || qtype == TYPE_ANY) && parsed.Some? then [Answer(kind, parsed.value)] else []
  }

  /** inet_pton on a field that may be empty. */
  function Parsed(pton: string -> Option<seq<byte>>, text: string): Option<seq<byte>> {
    if text != "" then pton(text) else None
  }

  function AnswersFor(n: Node, qtype: nat, t: AddressText): seq<Answer> {
    AnswerOf(TYPE_A, qtype, Parsed(t.pton4, n.ipv4)) + AnswerOf(TYPE_AAAA, qtype, Parsed(t.pton6, n.ipv6))
  }

  function Parts(answers: seq<Answer>): seq<seq<byte>> {
    seq(|answers|, i requires 0 <= i < |answers| => RecordBytes(answers[i].kind, answers[i].data))
  }

  function AnswerBytes(answers: seq<Answer>): seq<byte> {
    Concat(Parts(answers))
  }

  function Header(q: seq<byte>, found: bool, answers: nat): (h: seq<byte>)
    requires |q| >= 12
    ensures |h| == 12
  {
    [q[0], q[1], 0x81, if found then 0x80 else 0x83, q[4], q[5]] + Be16(answers) + Zeros(4)
  }

  /** A question the server replies to: a query with at least one question whose name parses and
      is followed by a type and a class. */
  predicate Answerable(q: seq<byte>) {
    && |q| >= 12 && q[2] < 0x80 && FromBe16(q[4], q[5]) >= 1
    && NameAt(q, 12).Some? && NameAt(q, 12).value.1 + 4 <= |q|
  }

  function QuestionType(q: seq<byte>): nat
    requires Answerable(q)
  {
    var off := NameAt(q, 12).value.1;
    FromBe16(q[off], q[off + 1])
  }

  /** The question as copied into the response. */
  function QuestionBytes(q: seq<byte>): seq<byte>
    requires Answerable(q)
  {
    q[12..NameAt(q, 12).value.1 + 4]
  }

  function AnswerList(q: seq<byte>, nodes: seq<Node>, domain: string, t: AddressText): seq<Answer>
    requires Answerable(q)
  {
    match Lookup(nodes, Lower(NameAt(q, 12).value.0), domain)
    case None => []
    case Some(n) => AnswersFor(n, QuestionType(q), t)
  }

  function ResponseTo(q: seq<byte>, nodes: seq<Node>, domain: string, t: AddressText): Option<seq<byte>> {
    if !Answerable(q) then None else
    var found := Lookup(nodes, Lower(NameAt(q, 12).value.0), domain).Some?;
    var answers := AnswerList(q, nodes, domain, t);
    Some(Header(q, found, |answers|) + QuestionBytes(q) + AnswerBytes(answers))
  }

  /** Exactly these messages get no answer: those shorter than a header, those with the response bit,
      those that count no question, and those whose name does not parse or is not followed by the
      four octets of a type and a class. */
  lemma RefusedExactly(q: seq<byte>, nodes: seq<Node>, domain: string, t: AddressText)
    ensures ResponseTo(q, nodes, domain, t).None? <==>
            || |q| < 12 || q[2] >= 128 || (q[4] == 0 && q[5] == 0)
            || NameAt(q, 12).None? || NameAt(q, 12).value.1 + 4 > |q|
  {
  }

  /** A record on the wire: a pointer to offset 12, the type, class 1, 30 seconds, the length, the data. */
  lemma RecordWrittenOut(kind: nat, data: seq<byte>)
    requires kind < 0x1_0000 && |data| < 256
    ensures RecordBytes(kind, data)
            == [0xc0, 0x0c, kind / 256 % 256, kind % 256, 0, 1, 0, 0, 0, 30, 0, |data|] + data
  {
  }

  /** The header of a response: the query's id and question count, the response bit with recursion
      desired and available, "name error" exactly if no node has the name, and the number of records. */
  lemma HeaderWrittenOut(q: seq<byte>, nodes: seq<Node>, domain: string, t: AddressText)
    requires ResponseTo(q, nodes, domain, t).Some?
    ensures var r, name := ResponseTo(q, nodes, domain, t).value, NameAt(q, 12).value.0;
            && r[..3] == [q[0], q[1], 0x81] && r[4..7] == [q[4], q[5], 0] && r[8..12] == [0, 0, 0, 0]
            && r[3] == (if Lookup(nodes, Lower(name), domain).None? then 0x83 else 0x80)
            && r[7] == |AnswerList(q, nodes, domain, t)| <= 2
  {
  }

  /** A response is itself never answered, by this server or by another of its kind. */
  lemma ResponsesAreNotAnswered(q: seq<byte>, nodes: seq<Node>, domain: string, t: AddressText, others: seq<Node>,
                                elsewhere: string, u: AddressText)
    ensures var r := ResponseTo(q, nodes, domain, t);
            r.Some? ==> |r.value| >= 12 && r.value[2] >= 128 && ResponseTo(r.value, others, elsewhere, u).None?
  {
    var r := ResponseTo(q, nodes, domain, t);
    if r.Some? {
      assert r.value[2] == 0x81;
      RefusedExactly(r.value, others, elsewhere, u);
    }
  }

  method AnswerQuery(q: seq<byte>, nodes: seq<Node>, domain: string, t: AddressText) returns (r: Option<seq<byte>>)
    ensures r == ResponseTo(q, nodes, domain, t)
  {
    if |q| < 12 {
      return None;
    }
    if q[2] >= 0x80 {
      return None;
    }
    if FromBe16(q[4], q[5]) < 1 {
      return None;
    }
    var parsed := ParseQname(q, 12);
    if parsed.None? {
      return None;
    }
    var (qname, off) := parsed.value;
    if off + 4 > |q| {
      return None;
    }
    var qtype := FromBe16(q[off], q[off + 1]);
    off := off + 4;
    var rec := Find(nodes, Lower(qname), domain);

    var resp := ResponseHead(q, rec.Some?);
    resp := resp + q[12..off];
    if rec.None? {
      assert resp + [] == resp;
      return Some(resp);
    }
    ghost var before := resp;
    var answers;
    resp, answers := AddAnswers(resp, rec.value, qtype, t);
    resp := resp[6 := answers / 256 % 256][7 := answers % 256];
    CountPatched(q, q[12..off], AnswerBytes(AnswersFor(rec.value, qtype, t)), answers);
    r := Some(resp);
  }

  /** The query's header with the response flags set and the counts after the first cleared. */
  method ResponseHead(q: seq<byte>, found: bool) returns (resp: seq<byte>)
    requires |q| >= 12
    ensures resp == Header(q, found, 0)
  {
    resp := q[..12];
    resp := resp[2 := 0x81][3 := if found then 0x80 else 0x83];
    resp := resp[4 := q[4]][5 := q[5]];
    resp := resp[6 := 0][7 := 0][8 := 0][9 := 0][10 := 0][11 := 0];
  }

  lemma CountPatched(q: seq<byte>, question: seq<byte>, tail: seq<byte>, answers: nat)
    requires |q| >= 12
    ensures (Header(q, true, 0) + question + tail)[6 := answers / 256 % 256][7 := answers % 256]
            == Header(q, true, answers) + question + tail
  {
  }

  method AddAnswers(resp: seq<byte>, n: Node, qtype: nat, t: AddressText) returns (r: seq<byte>, answers: nat)
    ensures r == resp + AnswerBytes(AnswersFor(n, qtype, t))
    ensures answers == |AnswersFor(n, qtype, t)|
  {
    ghost var a4 := AnswerOf(TYPE_A, qtype, Parsed(t.pton4, n.ipv4));
    ghost var a6 := AnswerOf(TYPE_AAAA, qtype, Parsed(t.pton6, n.ipv6));
    var more;
    r, answers := AddAnswer(resp, TYPE_A, qtype, t.pton4, n.ipv4);
    r, more := AddAnswer(r, TYPE_AAAA, qtype, t.pton6, n.ipv6);
    answers := answers + more;
    AnswerBytesAppend(a4, a6);
    Assoc(resp, AnswerBytes(a4), AnswerBytes(a6));
  }

  method AddAnswer(resp: seq<byte>, kind: nat, qtype: nat, pton: string -> Option<seq<byte>>, text: string)
    returns (r: seq<byte>, answers: nat)
    ensures r == resp + AnswerBytes(AnswerOf(kind, qtype, Parsed(pton, text)))
    ensures answers == |AnswerOf(kind, qtype, Parsed(pton, text))|
  {
    r, answers := resp, 0;
    if (qtype == kind || qtype == TYPE_ANY) && text != "" {
      var address := pton(text);
      if address.Some? {
        r := AddRecord(r, kind, address.value);
        answers := answers + 1;
        OneAnswer(Answer(kind, address.value));
      }
    }
  }

  lemma OneAnswer(a: Answer)
    ensures AnswerBytes([a]) == RecordBytes(a.kind, a.data)
  {
    var part := RecordBytes(a.kind, a.data);
    assert Parts([a]) == [part];
    OnePart(part);
  }

  lemma OnePart(part: seq<byte>)
    ensures Concat([part]) == part
  {
    assert [part][1..] == [];
  }

  method AddRecord(resp: seq<byte>, kind: nat, data: seq<byte>) returns (r: seq<byte>)
    ensures r == resp + RecordBytes(kind, data)
  {
    r := resp + [0xc0];
    r := r + [0x0c];
    r := r + Be16(kind);
    r := r + Be16(CLASS_IN);
    r := r + Be32(TTL);
    r := r + Be16(|data|);
    r := r + data;
  }

  lemma AnswerBytesAppend(a: seq<Answer>, b: seq<Answer>)
    ensures AnswerBytes(a + b) == AnswerBytes(a) + AnswerBytes(b)
  {
    assert Parts(a + b) == Parts(a) + Parts(b);
    ConcatAppend(Parts(a), Parts(b));
  }
}
