/** Queries that the server answers with something that does not read back: a name that leaves the
    parser no step for the owner pointers, and a name spelled by octets that are not copied. */
module DnsGaps {
  import opened Bytes
  import opened IpAlloc
  import opened StoreModel
  import opened DnsName
  import opened DnsAnswer
  import opened DnsWalk

  /** A query for the addresses of a name, counting that many questions. */
  function QueryFor(labels: seq<seq<byte>>, questions: byte): (q: seq<byte>)
    requires ValidLabels(labels)
  {
    [0, 0, 1, 0, 0, questions, 0, 0, 0, 0, 0, 0] + Encode(labels) + [0, 1, 0, 1]
  }

  lemma SimpleFrom(head: seq<byte>, labels: seq<seq<byte>>, tail: seq<byte>)
    requires ValidLabels(labels) && |head| == 12 && head[2] < 0x80 && FromBe16(head[4], head[5]) >= 1 && |tail| == 4
    ensures var q := head + Encode(labels) + tail;
            && SimpleQuery(q, labels) && q[4] == head[4] && q[5] == head[5]
            && Be16At(q, 12 + EncodedLength(labels)) == FromBe16(tail[0], tail[1])
  {
    EncodePlaces(head, labels, tail);
  }

  lemma QueryIsSimple(labels: seq<seq<byte>>, questions: byte)
    requires ValidLabels(labels) && questions >= 1
    ensures var q := QueryFor(labels, questions);
            && SimpleQuery(q, labels) && FromBe16(q[4], q[5]) == questions
            && Be16At(q, 12 + EncodedLength(labels)) == TYPE_A
  {
    SimpleFrom([0, 0, 1, 0, 0, questions, 0, 0, 0, 0, 0, 0], labels, [0, 1, 0, 1]);
  }

  /** A node with that name and any address has an answer to it. */
  lemma NamedNodeAnswers(labels: seq<seq<byte>>, questions: byte, n: Node, domain: string, t: AddressText)
    requires Faithful(t) && ValidLabels(labels) && 1 <= |labels| <= 15 && questions >= 1
    requires n.hostname == Join(labels) != "" && n.ipv4 == t.ntop4([100, 64, 0, 1])
    ensures Answerable(QueryFor(labels, questions)) && AnswerList(QueryFor(labels, questions), [n], domain, t) != []
  {
    QueryIsSimple(labels, questions);
    AnswersAddress(QueryFor(labels, questions), labels, n, domain, t);
  }

  lemma AnswersAddress(q: seq<byte>, labels: seq<seq<byte>>, n: Node, domain: string, t: AddressText)
    requires Faithful(t) && SimpleQuery(q, labels) && |labels| <= 15
    requires Be16At(q, 12 + EncodedLength(labels)) == TYPE_A
    requires n.hostname == Join(labels) != "" && n.ipv4 == t.ntop4([100, 64, 0, 1])
    ensures Answerable(q) && AnswerList(q, [n], domain, t) != []
  {
    SimpleIsAnswerable(q, labels);
    OwnNameFound(n, domain);
    HasAddress(n, t);
  }

  lemma OwnNameFound(n: Node, domain: string)
    requires n.hostname != ""
    ensures Lookup([n], Lower(n.hostname), domain) == Some(n)
  {
    assert Matches(n, Lower(n.hostname), domain);
  }

  lemma HasAddress(n: Node, t: AddressText)
    requires Faithful(t) && n.ipv4 == t.ntop4([100, 64, 0, 1])
    ensures AnswersFor(n, TYPE_A, t) != []
  {
    assert Parsed(t.pton4, n.ipv4) == Some([100, 64, 0, 1]);
  }

  lemma LabelsNamed(labels: seq<seq<byte>>)
    requires ValidLabels(labels) && labels != []
    ensures Join(labels) != ""
  {
    assert |Text(labels[0])| == |labels[0]| >= 1;
  }

  /** A node whose host name is any name of 15 labels: asked for its address, the server answers,
      and the answer cannot be read, its owner being beyond the parser's budget. */
  lemma FifteenLabelsBreakOwners(labels: seq<seq<byte>>, n: Node, domain: string, t: AddressText)
    requires Faithful(t) && ValidLabels(labels) && |labels| == 15
    requires n.hostname == Join(labels) && n.ipv4 == t.ntop4([100, 64, 0, 1])
    ensures var q := QueryFor(labels, 1);
            && SimpleQuery(q, labels) && Answerable(q) && AnswerList(q, [n], domain, t) != []
            && Walk(ResponseTo(q, [n], domain, t).value).None?
  {
    var q := QueryFor(labels, 1);
    LabelsNamed(labels);
    QueryIsSimple(labels, 1);
    NamedNodeAnswers(labels, 1, n, domain, t);
    SimpleIsAnswerable(q, labels);
    NoStepForOwners(q, [n], domain, t);
  }

  /** Whatever the query, records whose owner is beyond the budget cannot be read. */
  lemma NoStepForOwners(q: seq<byte>, nodes: seq<Node>, domain: string, t: AddressText)
    requires Faithful(t) && Answerable(q) && Stays(q, 12, BUDGET, 12, EndOfAsked(q) + 4)
    requires FromBe16(q[4], q[5]) == 1 && AnswerList(q, nodes, domain, t) != [] && Expand(q, 12, BUDGET - 1).None?
    ensures Walk(ResponseTo(q, nodes, domain, t).value).None?
  {
    var msg, head, parts := ResponseParts(q, nodes, domain, t);
    SameSpelling(q, msg, head, Concat(parts));
    OwnersUnread(q, msg, head, parts, AnswerList(q, nodes, domain, t), Be16At(q, 0),
                 ResponseFlags(Found(nodes, AskedName(q), domain)));
  }

  lemma OwnersUnread(q: seq<byte>, msg: seq<byte>, head: seq<byte>, parts: seq<seq<byte>>, answers: seq<Answer>,
                     id: nat, flags: nat)
    requires Answerable(q) && Starts(msg, head, q, EndOfAsked(q), Concat(parts)) && AllLaid(parts, answers)
    requires HeaderSays(head, id, flags, 1, |answers|) && answers != []
    requires Spells(msg, AskedName(q)) && Expand(msg, 12, BUDGET - 1).None?
    ensures Walk(msg).None?
  {
    var off := EndOfAsked(q) + 4;
    HeaderCopied(q, msg, head, EndOfAsked(q), Concat(parts), id, flags, 1, |answers|);
    QuestionReadBack(q, msg, head, Concat(parts));
    OneQuestion(msg, 12, AskedQuestion(q), off);
    OwnersPointBack(msg, off, parts, answers);
    OwnerRead(msg, off, AskedName(q));
    NoFirstRecord(msg, id, flags, AskedQuestion(q), off, |answers|);
  }

  lemma OwnersPointBack(msg: seq<byte>, off: nat, parts: seq<seq<byte>>, answers: seq<Answer>)
    requires AllLaid(parts, answers) && answers != [] && off <= |msg| && msg[off..] == Concat(parts)
    ensures off + 1 < |msg| && IsPointer(msg[off]) && PointerTarget(msg[off], msg[off + 1]) == 12
  {
    FrontOf(msg, off, parts[0], Concat(parts[1..]));
    assert msg[off + 0] == parts[0][0] && msg[off + 1] == parts[0][1];
  }

  /** The name a.a.a and so on, 15 times. */
  const FIFTEEN: seq<seq<byte>> := seq(15, _ => [97])

  function FifteenNode(t: AddressText): Node {
    NewNode(1, Registration("mkey", "nkey", Join(FIFTEEN), false, "", true), t.ntop4([100, 64, 0, 1]), "")
  }

  /** A query and a node of this kind. */
  lemma FifteenLabelsExample(domain: string, t: AddressText)
    requires Faithful(t)
    ensures var q, n := QueryFor(FIFTEEN, 1), FifteenNode(t);
            Answerable(q) && AnswerList(q, [n], domain, t) != [] && Walk(ResponseTo(q, [n], domain, t).value).None?
  {
    LabelsNamed(FIFTEEN);
    FifteenLabelsBreakOwners(FIFTEEN, FifteenNode(t), domain, t);
  }

  // ---------------------------------------------------------------- names beyond the question

  /** One question for the address of "a", whose name is a pointer to octets after the question. */
  const STRAY: seq<byte> := [0, 7, 1, 0, 0, 1, 0, 0, 0, 0, 0, 0] + [0xc0, 0x12, 0, 1, 0, 1] + [1, 97, 0]

  lemma StrayReads()
    ensures Answerable(STRAY) && AskedName(STRAY) == "a" && EndOfAsked(STRAY) == 14 && QuestionType(STRAY) == TYPE_A
    ensures STRAY[12] == 0xc0 && STRAY[13] == 0x12 && FromBe16(STRAY[4], STRAY[5]) == 1
  {
    assert Expand(STRAY, 20, BUDGET - 2) == Some([]);
    assert STRAY[19..20] == [97];
    var labels: seq<seq<byte>> := [STRAY[19..20]] + [];
    assert labels == [[97]];
    assert Expand(STRAY, 18, BUDGET - 1) == Some([[97]]);
    assert Expand(STRAY, 12, BUDGET) == Some([[97]]);
    assert Text([97]) == "a";
  }

  /** Two pointers to each other spell nothing, whatever the budget. */
  lemma {:induction false} PointersLoop(msg: seq<byte>, a: nat, b: nat, steps: nat)
    requires a + 1 < |msg| && IsPointer(msg[a]) && PointerTarget(msg[a], msg[a + 1]) == b
    requires b + 1 < |msg| && IsPointer(msg[b]) && PointerTarget(msg[b], msg[b + 1]) == a
    ensures Expand(msg, a, steps).None?
    decreases steps
  {
    if steps > 0 {
      PointersLoop(msg, b, a, steps - 1);
    }
  }

  /** It is answered, and the first record takes the place of the octets that spelled the name: the
      question points to the record's owner, which points to the question. */
  lemma StrayNameBreaks(n: Node, domain: string, t: AddressText)
    requires Faithful(t) && n.hostname == "a" && n.ipv4 == t.ntop4([100, 64, 0, 1])
    ensures Answerable(STRAY) && AnswerList(STRAY, [n], domain, t) != []
    ensures Walk(ResponseTo(STRAY, [n], domain, t).value).None?
  {
    StrayReads();
    OwnNameFound(n, domain);
    HasAddress(n, t);
    var answers := AnswerList(STRAY, [n], domain, t);
    var msg, head, parts := ResponseParts(STRAY, [n], domain, t);
    OwnersPointBack(msg, 18, parts, answers);
    assert msg[12] == STRAY[12] && msg[13] == STRAY[13];
    PointersLoop(msg, 12, 18, BUDGET);
    NothingSpelled(msg, head, Concat(parts), Be16At(STRAY, 0), ResponseFlags(Found([n], "a", domain)), |answers|);
  }

  lemma NothingSpelled(msg: seq<byte>, head: seq<byte>, tail: seq<byte>, id: nat, flags: nat, answers: nat)
    requires Answerable(STRAY) && Starts(msg, head, STRAY, EndOfAsked(STRAY), tail)
    requires HeaderSays(head, id, flags, 1, answers) && Expand(msg, 12, BUDGET).None?
    ensures Walk(msg).None?
  {
    HeaderCopied(STRAY, msg, head, EndOfAsked(STRAY), tail, id, flags, 1, answers);
    assert QuestionAt(msg, 12).None? && QuestionsAt(msg, 12, 1).None?;
  }
}
