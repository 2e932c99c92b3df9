/** Reading a DNS message back (RFC 1035 sections 4.1.1 to 4.1.3), and the proof that every
    response of `DnsAnswer` reads back as the question asked and the records meant. */
module DnsWalk {
  import opened Bytes
  import opened IpAlloc
  import opened StoreModel
  import opened DnsName
  import opened DnsAnswer
  import Netmap

  datatype Question = Question(name: string, kind: nat, cls: nat)

  datatype ResourceRecord = ResourceRecord(owner: string, kind: nat, cls: nat, ttl: nat, data: seq<byte>)

  datatype Message = Message(id: nat, flags: nat, questions: seq<Question>, answers: seq<ResourceRecord>)

  function Be16At(msg: seq<byte>, off: nat): nat
    requires off + 2 <= |msg|
  {
    FromBe16(msg[off], msg[off + 1])
  }

  function QuestionAt(msg: seq<byte>, off: nat): (r: Option<(Question, nat)>)
    ensures r.Some? ==> off < r.value.1 <= |msg|
  {
    match NameAt(msg, off)
    case None => None
    case Some((name, e)) =>
      if e + 4 > |msg| then None else Some((Question(name, Be16At(msg, e), Be16At(msg, e + 2)), e + 4))
  }

  function RecordAt(msg: seq<byte>, off: nat): (r: Option<(ResourceRecord, nat)>)
    ensures r.Some? ==> off < r.value.1 <= |msg|
  {
    match NameAt(msg, off)
    case None => None
    case Some((owner, e)) => RecordAfter(msg, owner, e)
  }

  /** The fields that follow the owner. */
  function RecordAfter(msg: seq<byte>, owner: string, e: nat): (r: Option<(ResourceRecord, nat)>)
    ensures r.Some? ==> e < r.value.1 <= |msg|
  {
    if e + 10 > |msg| || e + 10 + Be16At(msg, e + 8) > |msg| then None else
    var next := e + 10 + Be16At(msg, e + 8);
    Some((ResourceRecord(owner, Be16At(msg, e), Be16At(msg, e + 2),
                         FromBe32(msg[e + 4], msg[e + 5], msg[e + 6], msg[e + 7]), msg[e + 10..next]), next))
  }

  function QuestionsAt(msg: seq<byte>, off: nat, n: nat): Option<(seq<Question>, nat)>
    decreases n
  {
    if n == 0 then Some(([], off)) else
    match QuestionAt(msg, off)
    case None => None
    case Some((first, next)) =>
      match QuestionsAt(msg, next, n - 1)
      case None => None
      case Some((rest, end)) => Some(([first] + rest, end))
  }

  function RecordsAt(msg: seq<byte>, off: nat, n: nat): Option<(seq<ResourceRecord>, nat)>
    decreases n
  {
    if n == 0 then Some(([], off)) else
    match RecordAt(msg, off)
    case None => None
    case Some((first, next)) =>
      match RecordsAt(msg, next, n - 1)
      case None => None
      case Some((rest, end)) => Some(([first] + rest, end))
  }

  /** A whole message without authority or additional records, with nothing after its end. */
  function Walk(msg: seq<byte>): Option<Message> {
    if |msg| < 12 || Be16At(msg, 8) != 0 || Be16At(msg, 10) != 0 then None else
    match QuestionsAt(msg, 12, Be16At(msg, 4))
    case None => None
    case Some((questions, off)) =>
      match RecordsAt(msg, off, Be16At(msg, 6))
      case None => None
      case Some((answers, end)) =>
        if end != |msg| then None else Some(Message(Be16At(msg, 0), Be16At(msg, 2), questions, answers))
  }

  // ---------------------------------------------------------------- records

  /** The octets of a record whose owner is a pointer to offset 12. */
  predicate Laid(b: seq<byte>, a: Answer) {
    && |b| == 12 + |a.data|
    && IsPointer(b[0]) && PointerTarget(b[0], b[1]) == 12
    && Be16At(b, 2) == a.kind && Be16At(b, 4) == CLASS_IN
    && FromBe32(b[6], b[7], b[8], b[9]) == TTL
    && Be16At(b, 10) == |a.data| && b[12..] == a.data
  }

  predicate AllLaid(parts: seq<seq<byte>>, answers: seq<Answer>) {
    |parts| == |answers| && forall i :: 0 <= i < |parts| ==> Laid(parts[i], answers[i])
  }

  lemma RecordLayout(a: Answer)
    requires a.kind < 0x1_0000 && |a.data| < 0x1_0000
    ensures Laid(RecordBytes(a.kind, a.data), a)
  {
    assert RecordBytes(a.kind, a.data)[12..] == a.data;
  }

  /** A name at the question's place that leaves a step of the budget: what owners point to. */
  predicate OwnerName(msg: seq<byte>, owner: string) {
    Expand(msg, 12, BUDGET - 1).Some? && Join(Expand(msg, 12, BUDGET - 1).value) == owner
  }

  lemma OwnerRead(msg: seq<byte>, off: nat, owner: string)
    requires off + 1 < |msg| && IsPointer(msg[off]) && PointerTarget(msg[off], msg[off + 1]) == 12
    ensures NameAt(msg, off).Some? <==> Expand(msg, 12, BUDGET - 1).Some?
    ensures OwnerName(msg, owner) ==> NameAt(msg, off) == Some((owner, off + 2))
  {
  }

  /** A record of the response is read as written, its owner through the pointer. */
  lemma RecordReadBack(msg: seq<byte>, off: nat, owner: string, b: seq<byte>, a: Answer)
    requires OwnerName(msg, owner) && Laid(b, a)
    requires off + |b| <= |msg| && forall k :: 0 <= k < |b| ==> msg[off + k] == b[k]
    ensures RecordAt(msg, off) == Some((ResourceRecord(owner, a.kind, CLASS_IN, TTL, a.data), off + |b|))
  {
    assert NameAt(msg, off) == Some((owner, off + 2)) by {
      assert msg[off + 0] == b[0] && msg[off + 1] == b[1];
      OwnerRead(msg, off, owner);
    }
    RecordBody(msg, off, b, a, owner);
  }

  lemma RecordBody(msg: seq<byte>, off: nat, b: seq<byte>, a: Answer, owner: string)
    requires Laid(b, a)
    requires off + |b| <= |msg| && forall k :: 0 <= k < |b| ==> msg[off + k] == b[k]
    ensures RecordAfter(msg, owner, off + 2)
            == Some((ResourceRecord(owner, a.kind, CLASS_IN, TTL, a.data), off + |b|))
  {
    FixedFields(msg, off, b);
    assert msg[off + 12..off + 12 + |a.data|] == b[12..];
  }

  /** The fields between the owner and the data, at their distance from the owner's end. */
  lemma FixedFields(msg: seq<byte>, off: nat, b: seq<byte>)
    requires |b| >= 12 && off + |b| <= |msg| && forall k :: 0 <= k < |b| ==> msg[off + k] == b[k]
    ensures var e := off + 2;
            && Be16At(msg, e) == Be16At(b, 2) && Be16At(msg, e + 2) == Be16At(b, 4)
            && Be16At(msg, e + 8) == Be16At(b, 10)
            && FromBe32(msg[e + 4], msg[e + 5], msg[e + 6], msg[e + 7]) == FromBe32(b[6], b[7], b[8], b[9])
  {
    assert msg[off + 2] == b[2] && msg[off + 3] == b[3] && msg[off + 4] == b[4] && msg[off + 5] == b[5];
    assert msg[off + 6] == b[6] && msg[off + 7] == b[7] && msg[off + 8] == b[8] && msg[off + 9] == b[9];
    assert msg[off + 10] == b[10] && msg[off + 11] == b[11];
  }

  function ReadBack(owner: string, answers: seq<Answer>): seq<ResourceRecord> {
    seq(|answers|, i requires 0 <= i < |answers| =>
      ResourceRecord(owner, answers[i].kind, CLASS_IN, TTL, answers[i].data))
  }

  /** The first record of the rest of a message. */
  lemma FirstReadBack(msg: seq<byte>, off: nat, owner: string, parts: seq<seq<byte>>, answers: seq<Answer>)
    requires OwnerName(msg, owner) && AllLaid(parts, answers) && answers != []
    requires off <= |msg| && msg[off..] == Concat(parts)
    ensures var a, next := answers[0], off + |parts[0]|;
            && RecordAt(msg, off) == Some((ResourceRecord(owner, a.kind, CLASS_IN, TTL, a.data), next))
            && next <= |msg| && msg[next..] == Concat(parts[1..])
  {
    FrontOf(msg, off, parts[0], Concat(parts[1..]));
    RecordReadBack(msg, off, owner, parts[0], answers[0]);
  }

  lemma {:induction false} RecordsReadBack(msg: seq<byte>, off: nat, owner: string, parts: seq<seq<byte>>,
                                           answers: seq<Answer>)
    requires OwnerName(msg, owner) && AllLaid(parts, answers)
    requires off <= |msg| && msg[off..] == Concat(parts)
    ensures RecordsAt(msg, off, |answers|) == Some((ReadBack(owner, answers), |msg|))
    decreases |answers|
  {
    if answers == [] {
      assert ReadBack(owner, answers) == [];
    } else {
      var a, next := answers[0], off + |parts[0]|;
      FirstReadBack(msg, off, owner, parts, answers);
      LaidTail(parts, answers);
      RecordsReadBack(msg, next, owner, parts[1..], answers[1..]);
      FirstRecord(msg, off, |answers|, ResourceRecord(owner, a.kind, CLASS_IN, TTL, a.data), next,
                  ReadBack(owner, answers[1..]), |msg|);
      ReadBackFirst(owner, answers);
    }
  }

  lemma ReadBackFirst(owner: string, answers: seq<Answer>)
    requires answers != []
    ensures var first := ResourceRecord(owner, answers[0].kind, CLASS_IN, TTL, answers[0].data);
            ReadBack(owner, answers) == [first] + ReadBack(owner, answers[1..])
  {
  }

  lemma LaidTail(parts: seq<seq<byte>>, answers: seq<Answer>)
    requires AllLaid(parts, answers) && parts != []
    ensures AllLaid(parts[1..], answers[1..])
  {
    forall i | 0 <= i < |parts| - 1
      ensures Laid(parts[1..][i], answers[1..][i])
    {
      assert parts[1..][i] == parts[i + 1] && answers[1..][i] == answers[i + 1];
    }
  }

  lemma FirstRecord(msg: seq<byte>, off: nat, n: nat, first: ResourceRecord, next: nat, rest: seq<ResourceRecord>,
                    end: nat)
    requires n > 0 && RecordAt(msg, off) == Some((first, next)) && RecordsAt(msg, next, n - 1) == Some((rest, end))
    ensures RecordsAt(msg, off, n) == Some(([first] + rest, end))
  {
  }

  lemma FrontOf(msg: seq<byte>, off: nat, b: seq<byte>, tail: seq<byte>)
    requires off <= |msg| && msg[off..] == b + tail
    ensures off + |b| <= |msg| && msg[off + |b|..] == tail
    ensures forall k :: 0 <= k < |b| ==> msg[off + k] == b[k]
  {
    assert forall k :: 0 <= k < |b| ==> msg[off..][k] == msg[off + k];
    assert msg[off..][|b|..] == msg[off + |b|..];
  }

  // ---------------------------------------------------------------- responses

  predicate HeaderSays(msg: seq<byte>, id: nat, flags: nat, questions: nat, answers: nat) {
    && |msg| >= 12 && Be16At(msg, 0) == id && Be16At(msg, 2) == flags
    && Be16At(msg, 4) == questions && Be16At(msg, 6) == answers && Be16At(msg, 8) == 0 && Be16At(msg, 10) == 0
  }

  /** Response, recursion desired and available; name error where nothing was found. */
  function ResponseFlags(found: bool): nat {
    if found then 0x8180 else 0x8183
  }

  lemma HeaderLayout(q: seq<byte>, found: bool, answers: nat)
    requires |q| >= 12 && answers < 0x1_0000
    ensures HeaderSays(Header(q, found, answers), Be16At(q, 0), ResponseFlags(found), Be16At(q, 4), answers)
  {
  }

  /** A message that starts with these twelve octets and goes on with the query's question. */
  ghost predicate Starts(msg: seq<byte>, head: seq<byte>, q: seq<byte>, end: nat, tail: seq<byte>) {
    && |head| == 12 && 12 <= end && end + 4 <= |q|
    && |msg| == end + 4 + |tail| && msg[end + 4..] == tail
    && (forall k :: 0 <= k < 12 ==> msg[k] == head[k])
    && (forall k :: 12 <= k < end + 4 ==> msg[k] == q[k])
  }

  lemma CopiedQuestion(q: seq<byte>, head: seq<byte>, tail: seq<byte>, end: nat)
    requires 12 <= end && end + 4 <= |q| && |head| == 12
    ensures Starts(head + q[12..end + 4] + tail, head, q, end, tail)
  {
  }

  lemma HeaderCopied(q: seq<byte>, msg: seq<byte>, head: seq<byte>, end: nat, tail: seq<byte>, id: nat, flags: nat,
                     questions: nat, answers: nat)
    requires Starts(msg, head, q, end, tail) && HeaderSays(head, id, flags, questions, answers)
    ensures HeaderSays(msg, id, flags, questions, answers)
  {
  }

  lemma OneQuestion(msg: seq<byte>, off: nat, question: Question, end: nat)
    requires QuestionAt(msg, off) == Some((question, end))
    ensures QuestionsAt(msg, off, 1) == Some(([question], end))
  {
    assert QuestionsAt(msg, end, 0) == Some(([], end));
    assert [question] + [] == [question];
  }

  lemma WalkSections(msg: seq<byte>, id: nat, flags: nat, questions: seq<Question>, off: nat,
                     records: seq<ResourceRecord>)
    requires HeaderSays(msg, id, flags, |questions|, |records|)
    requires QuestionsAt(msg, 12, |questions|) == Some((questions, off))
    requires RecordsAt(msg, off, |records|) == Some((records, |msg|))
    ensures Walk(msg) == Some(Message(id, flags, questions, records))
  {
  }

  lemma AnswersLaid(q: seq<byte>, nodes: seq<Node>, domain: string, t: AddressText)
    requires Faithful(t) && Answerable(q)
    ensures var answers := AnswerList(q, nodes, domain, t);
            AllLaid(Parts(answers), answers) && |answers| <= 2
  {
    var answers := AnswerList(q, nodes, domain, t);
    forall i | 0 <= i < |answers|
      ensures Laid(Parts(answers)[i], answers[i])
    {
      RecordLayout(answers[i]);
    }
  }

  /** The name that a query asks for, and where it ends. */
  function AskedName(q: seq<byte>): string
    requires Answerable(q)
  {
    NameAt(q, 12).value.0
  }

  function EndOfAsked(q: seq<byte>): (end: nat)
    requires Answerable(q)
    ensures end + 4 <= |q|
  {
    NameAt(q, 12).value.1
  }

  function AskedQuestion(q: seq<byte>): Question
    requires Answerable(q)
  {
    Question(AskedName(q), Be16At(q, EndOfAsked(q)), Be16At(q, EndOfAsked(q) + 2))
  }

  predicate Found(nodes: seq<Node>, name: string, domain: string) {
    Lookup(nodes, Lower(name), domain).Some?
  }

  /** What the response is meant to say: the query's id and question, and the records, each owned by
      the name asked for. */
  function Meant(q: seq<byte>, nodes: seq<Node>, domain: string, t: AddressText): Message
    requires Answerable(q)
  {
    Message(Be16At(q, 0), ResponseFlags(Found(nodes, AskedName(q), domain)), [AskedQuestion(q)],
            ReadBack(AskedName(q), AnswerList(q, nodes, domain, t)))
  }

  lemma ResponseHeadAndTail(q: seq<byte>, found: bool, answers: nat, end: nat, tail: seq<byte>)
    returns (msg: seq<byte>, head: seq<byte>)
    requires |q| >= 12 && 12 <= end && end + 4 <= |q| && answers < 0x1_0000
    ensures msg == Header(q, found, answers) + q[12..end + 4] + tail
    ensures HeaderSays(head, Be16At(q, 0), ResponseFlags(found), Be16At(q, 4), answers)
    ensures Starts(msg, head, q, end, tail)
  {
    head := Header(q, found, answers);
    msg := head + q[12..end + 4] + tail;
    HeaderLayout(q, found, answers);
    CopiedQuestion(q, head, tail, end);
  }

  lemma ResponseShape(q: seq<byte>, nodes: seq<Node>, domain: string, t: AddressText)
    requires Answerable(q)
    ensures var answers := AnswerList(q, nodes, domain, t);
            ResponseTo(q, nodes, domain, t)
            == Some(Header(q, Found(nodes, AskedName(q), domain), |answers|)
                    + q[12..EndOfAsked(q) + 4] + Concat(Parts(answers)))
  {
  }

  lemma AskedNameInPlace(q: seq<byte>)
    requires Answerable(q)
    ensures 12 < EndOfAsked(q)
  {
    EndCopied(q, q, 12, BUDGET);
  }

  /** A response is a header, the question and the records, laid out as they should be. */
  lemma ResponseParts(q: seq<byte>, nodes: seq<Node>, domain: string, t: AddressText)
    returns (msg: seq<byte>, head: seq<byte>, parts: seq<seq<byte>>)
    requires Faithful(t) && Answerable(q)
    ensures ResponseTo(q, nodes, domain, t) == Some(msg)
    ensures AllLaid(parts, AnswerList(q, nodes, domain, t))
    ensures HeaderSays(head, Be16At(q, 0), ResponseFlags(Found(nodes, AskedName(q), domain)), Be16At(q, 4),
                       |AnswerList(q, nodes, domain, t)|)
    ensures Starts(msg, head, q, EndOfAsked(q), Concat(parts))
  {
    var answers := AnswerList(q, nodes, domain, t);
    AnswersLaid(q, nodes, domain, t);
    AskedNameInPlace(q);
    parts := Parts(answers);
    msg, head := ResponseHeadAndTail(q, Found(nodes, AskedName(q), domain), |answers|, EndOfAsked(q), Concat(parts));
    ResponseShape(q, nodes, domain, t);
  }

  // ---------------------------------------------------------------- reading responses back

  /** The question is found where it was, with whatever name its octets now spell. */
  lemma QuestionReadBack(q: seq<byte>, msg: seq<byte>, head: seq<byte>, tail: seq<byte>)
    requires Answerable(q) && Starts(msg, head, q, EndOfAsked(q), tail)
    ensures QuestionAt(msg, 12)
            == match Expand(msg, 12, BUDGET)
               case None => None
               case Some(labels) => Some((AskedQuestion(q).(name := Join(labels)), EndOfAsked(q) + 4))
  {
    EndCopied(q, msg, 12, BUDGET);
    assert msg[EndOfAsked(q)] == q[EndOfAsked(q)] && msg[EndOfAsked(q) + 1] == q[EndOfAsked(q) + 1];
    assert msg[EndOfAsked(q) + 2] == q[EndOfAsked(q) + 2] && msg[EndOfAsked(q) + 3] == q[EndOfAsked(q) + 3];
  }

  lemma NoFirstRecord(msg: seq<byte>, id: nat, flags: nat, question: Question, off: nat, answers: nat)
    requires HeaderSays(msg, id, flags, 1, answers) && answers > 0
    requires QuestionsAt(msg, 12, 1) == Some(([question], off)) && NameAt(msg, off).None?
    ensures Walk(msg).None?
  {
    assert RecordAt(msg, off).None?;
  }

  lemma {:induction false} QuestionsCounted(msg: seq<byte>, off: nat, n: nat)
    ensures QuestionsAt(msg, off, n).Some? ==> |QuestionsAt(msg, off, n).value.0| == n
    decreases n
  {
    if n > 0 && QuestionAt(msg, off).Some? {
      QuestionsCounted(msg, QuestionAt(msg, off).value.1, n - 1);
    }
  }

  /** A message whose header counts another number of questions reads as another message. */
  lemma OtherCount(msg: seq<byte>, id: nat, flags: nat, questions: nat, answers: nat, meant: Message)
    requires HeaderSays(msg, id, flags, questions, answers) && |meant.questions| != questions
    ensures Walk(msg) != Some(meant)
  {
    QuestionsCounted(msg, 12, questions);
  }

  /** One question and the records after it: the message is read as meant if and only if the name is
      spelled as asked, and is complete with a step to spare if any record refers to it. */
  lemma SectionsIff(msg: seq<byte>, id: nat, flags: nat, question: Question, name: string, off: nat,
                    parts: seq<seq<byte>>, answers: seq<Answer>)
    requires HeaderSays(msg, id, flags, 1, |answers|) && AllLaid(parts, answers)
    requires Expand(msg, 12, BUDGET).Some? && QuestionAt(msg, 12) == Some((question, off))
    requires question.name == Join(Expand(msg, 12, BUDGET).value)
    requires off <= |msg| && msg[off..] == Concat(parts)
    ensures Walk(msg) == Some(Message(id, flags, [question.(name := name)], ReadBack(name, answers)))
            <==> question.name == name && (answers == [] || Expand(msg, 12, BUDGET - 1).Some?)
  {
    OneQuestion(msg, 12, question, off);
    if answers != [] && Expand(msg, 12, BUDGET - 1).None? {
      FrontOf(msg, off, parts[0], Concat(parts[1..]));
      assert msg[off + 0] == parts[0][0] && msg[off + 1] == parts[0][1];
      OwnerRead(msg, off, name);
      NoFirstRecord(msg, id, flags, question, off, |answers|);
    } else {
      if answers == [] {
        assert ReadBack(question.name, answers) == [] && RecordsAt(msg, off, 0) == Some(([], off));
      } else {
        ExpandMore(msg, 12, BUDGET - 1, BUDGET);
        RecordsReadBack(msg, off, question.name, parts, answers);
      }
      WalkSections(msg, id, flags, [question], off, ReadBack(question.name, answers));
      assert [question][0].name == question.name;
    }
  }

  lemma AssembledIff(q: seq<byte>, msg: seq<byte>, head: seq<byte>, parts: seq<seq<byte>>, answers: seq<Answer>,
                     id: nat, flags: nat, questions: nat)
    requires Answerable(q) && Starts(msg, head, q, EndOfAsked(q), Concat(parts)) && AllLaid(parts, answers)
    requires HeaderSays(head, id, flags, questions, |answers|)
    ensures Walk(msg) == Some(Message(id, flags, [AskedQuestion(q)], ReadBack(AskedName(q), answers)))
            <==> questions == 1 && Spells(msg, AskedName(q)) && (answers == [] || Expand(msg, 12, BUDGET - 1).Some?)
  {
    var end, meant := EndOfAsked(q), Message(id, flags, [AskedQuestion(q)], ReadBack(AskedName(q), answers));
    HeaderCopied(q, msg, head, end, Concat(parts), id, flags, questions, |answers|);
    QuestionReadBack(q, msg, head, Concat(parts));
    if questions != 1 {
      OtherCount(msg, id, flags, questions, |answers|, meant);
    } else if Expand(msg, 12, BUDGET).None? {
      assert QuestionsAt(msg, 12, 1).None?;
    } else {
      var question := AskedQuestion(q).(name := Join(Expand(msg, 12, BUDGET).value));
      SectionsIff(msg, id, flags, question, AskedName(q), end + 4, parts, answers);
      assert question.(name := AskedName(q)) == AskedQuestion(q);
    }
  }

  /** The octets at the question's place spell this name. */
  predicate Spells(msg: seq<byte>, name: string) {
    Expand(msg, 12, BUDGET).Some? && Join(Expand(msg, 12, BUDGET).value) == name
  }

  /** Every query that is answered: reading the response gives exactly what was meant if and only if
      the query counted one question, the response copying one whatever the count; the copied
      question still spells the name, which a pointer to octets that are not copied need not do;
      and there is nothing to answer or the name leaves one step of the parser's budget, which the
      pointer of a record's owner takes. */
  lemma ResponseReadsBackIff(q: seq<byte>, nodes: seq<Node>, domain: string, t: AddressText)
    requires Faithful(t) && Answerable(q)
    ensures ResponseTo(q, nodes, domain, t).Some?
    ensures var r := ResponseTo(q, nodes, domain, t).value;
            Walk(r) == Some(Meant(q, nodes, domain, t))
            <==> && FromBe16(q[4], q[5]) == 1 && Spells(r, AskedName(q))
                 && (AnswerList(q, nodes, domain, t) == [] || Expand(r, 12, BUDGET - 1).Some?)
  {
    var msg, head, parts := ResponseParts(q, nodes, domain, t);
    AssembledIff(q, msg, head, parts, AnswerList(q, nodes, domain, t), Be16At(q, 0),
                 ResponseFlags(Found(nodes, AskedName(q), domain)), Be16At(q, 4));
  }

  /** For a query whose name is spelled by octets of the question alone, pointers included, the
      condition is one of the query: one question, and 15 steps for the name or nothing to answer. */
  lemma CopiedNameReadsBackIff(q: seq<byte>, nodes: seq<Node>, domain: string, t: AddressText)
    requires Faithful(t) && Answerable(q) && Stays(q, 12, BUDGET, 12, EndOfAsked(q) + 4)
    ensures ResponseTo(q, nodes, domain, t).Some?
    ensures Walk(ResponseTo(q, nodes, domain, t).value) == Some(Meant(q, nodes, domain, t))
            <==> FromBe16(q[4], q[5]) == 1
                 && (AnswerList(q, nodes, domain, t) == [] || Expand(q, 12, BUDGET - 1).Some?)
  {
    var msg, head, parts := ResponseParts(q, nodes, domain, t);
    SameSpelling(q, msg, head, Concat(parts));
    ResponseReadsBackIff(q, nodes, domain, t);
  }

  lemma SameSpelling(q: seq<byte>, msg: seq<byte>, head: seq<byte>, tail: seq<byte>)
    requires Answerable(q) && Stays(q, 12, BUDGET, 12, EndOfAsked(q) + 4) && Starts(msg, head, q, EndOfAsked(q), tail)
    ensures Spells(msg, AskedName(q))
    ensures Expand(msg, 12, BUDGET - 1).Some? <==> Expand(q, 12, BUDGET - 1).Some?
  {
    ExpandCopied(q, msg, 12, BUDGET, 12, EndOfAsked(q) + 4, BUDGET);
    ExpandCopied(q, msg, 12, BUDGET, 12, EndOfAsked(q) + 4, BUDGET - 1);
  }

  // ---------------------------------------------------------------- names without pointers

  /** A query for one name, written without pointers and followed by a type and a class. */
  ghost predicate SimpleQuery(q: seq<byte>, labels: seq<seq<byte>>) {
    && |q| >= 12 && q[2] < 0x80 && FromBe16(q[4], q[5]) >= 1
    && EncodedAt(q, 12, labels) && 12 + EncodedLength(labels) + 4 <= |q|
  }

  lemma SimpleIsAnswerable(q: seq<byte>, labels: seq<seq<byte>>)
    requires SimpleQuery(q, labels)
    ensures Answerable(q) <==> |labels| <= 15
    ensures |labels| <= 15 ==> AskedName(q) == Join(labels) && EndOfAsked(q) == 12 + EncodedLength(labels)
    ensures |labels| <= 15 ==> Stays(q, 12, BUDGET, 12, EndOfAsked(q) + 4)
    ensures Expand(q, 12, BUDGET - 1).Some? <==> |labels| <= 14
  {
    NameEncoded(q, 12, labels);
    ExpandEncoded(q, 12, labels, BUDGET - 1);
    if |labels| <= 15 {
      EncodedStays(q, 12, labels, BUDGET, 12, EndOfAsked(q) + 4);
    }
  }

  /** A query for a pointer-free name is answered if and only if it has at most 15 labels, and the
      response reads back as meant if and only if the query counted one question and the name has
      at most 14 labels or there is nothing to answer. */
  lemma SimpleReadsBackIff(q: seq<byte>, labels: seq<seq<byte>>, nodes: seq<Node>, domain: string, t: AddressText)
    requires Faithful(t) && SimpleQuery(q, labels)
    ensures ResponseTo(q, nodes, domain, t).Some? <==> |labels| <= 15
    ensures |labels| <= 15 ==>
              && Answerable(q) && AskedName(q) == Join(labels)
              && (Walk(ResponseTo(q, nodes, domain, t).value) == Some(Meant(q, nodes, domain, t))
                  <==> FromBe16(q[4], q[5]) == 1 && (|labels| <= 14 || AnswerList(q, nodes, domain, t) == []))
  {
    SimpleIsAnswerable(q, labels);
    if |labels| <= 15 {
      CopiedNameReadsBackIff(q, nodes, domain, t);
    }
  }

  /** For a node with the addresses of a host of the pool, the records carry exactly those
      addresses: A for type 1, AAAA for type 28, both for type 255, none otherwise. */
  lemma AnswersCarryAddresses(n: Node, qtype: nat, p: Pool, index: nat)
    requires ValidPool(p) && Address(p.alloc, p.text, index) == Some((n.ipv4, n.ipv6))
    ensures var v4, v6 := Answer(1, Be32(p.alloc.base4 + index)), Answer(28, p.alloc.base6[..12] + Be32(index));
            AnswersFor(n, qtype, p.text)
            == if qtype == 1 then [v4] else if qtype == 28 then [v6] else if qtype == 255 then [v4, v6] else []
  {
    NoWrap(p.alloc, index);
    assert p.text.pton4(n.ipv4) == Some(Be32(HostV4(p.alloc, index)));
    assert p.text.pton6(n.ipv6) == Some(HostV6(p.alloc, index));
  }

  // ---------------------------------------------------------------- agreement with maps

  predicate DotFree(t: string) {
    '.' !in t
  }

  /** Host names, as the resolver compares them, are dot-free and pairwise different. */
  predicate DistinctHosts(nodes: seq<Node>) {
    && (forall i :: 0 <= i < |nodes| ==> DotFree(Netmap.HostLabel(nodes[i])))
    && (forall i, j :: 0 <= i < j < |nodes| ==>
          Lower(Netmap.HostLabel(nodes[i])) != Lower(Netmap.HostLabel(nodes[j])))
  }

  lemma LowerKeepsDots(t: string)
    ensures '.' in Lower(t) <==> '.' in t
  {
    assert forall i :: 0 <= i < |t| ==> (Lower(t)[i] == '.' <==> t[i] == '.');
    if '.' in t {
      var i :| 0 <= i < |t| && t[i] == '.';
      assert Lower(t)[i] == '.';
    }
  }

  lemma LowerConcat(a: string, b: string)
    ensures Lower(a + b) == Lower(a) + Lower(b)
  {
  }

  /** Text before the first dot determines itself. */
  lemma FirstDot(a: string, b: string, x: string, y: string)
    requires DotFree(a) && DotFree(b) && a + "." + x == b + "." + y
    ensures a == b && x == y
  {
    var s := a + "." + x;
    assert s[|a|] == '.' && s[|b|] == '.';
    assert forall k :: 0 <= k < |b| ==> s[k] == b[k];
    assert forall k :: 0 <= k < |a| ==> s[k] == a[k];
    assert |a| == |b|;
    assert s[..|a|] == a && s[..|b|] == b;
    assert s[|a| + 1..] == x && s[|b| + 1..] == y;
  }

  /** Only the node that owns a qualified name matches it. */
  lemma MatchIsOwner(owner: Node, n: Node, domain: string)
    requires DotFree(Netmap.HostLabel(owner)) && DotFree(Netmap.HostLabel(n))
    requires Matches(n, Lower(Netmap.HostLabel(owner) + "." + domain), domain)
    ensures Lower(Netmap.HostLabel(n)) == Lower(Netmap.HostLabel(owner))
  {
    var want := Netmap.HostLabel(owner) + "." + domain;
    var h, g, d := Lower(Netmap.HostLabel(owner)), Lower(Netmap.HostLabel(n)), Lower(domain);
    LowerKeepsDots(Netmap.HostLabel(owner));
    LowerKeepsDots(Netmap.HostLabel(n));
    LowerConcat(Netmap.HostLabel(owner) + ".", domain);
    LowerConcat(Netmap.HostLabel(owner), ".");
    assert Lower(".") == ".";
    assert Lower(want) == h + "." + d;
    assert Lower(want)[|h|] == '.';
    assert Lower(want) != g;
    if Lower(want) == g + "." + d {
      FirstDot(h, g, d, d);
    } else {
      assert g + "." + d + "." == g + "." + (d + ".");
      FirstDot(h, g, d, d + ".");
    }
  }

  lemma QualifiedMatches(n: Node, domain: string)
    ensures Matches(n, Lower(Netmap.HostLabel(n) + "." + domain), domain)
  {
    LowerConcat(Netmap.HostLabel(n) + ".", domain);
    LowerConcat(Netmap.HostLabel(n), ".");
    assert Lower(".") == ".";
  }

  lemma OwnerFound(nodes: seq<Node>, n: Node, domain: string)
    requires DistinctHosts(nodes) && n in nodes
    ensures Lookup(nodes, Lower(Netmap.HostLabel(n) + "." + domain), domain) == Some(n)
  {
    QualifiedMatches(n, domain);
    var found := Lookup(nodes, Lower(Netmap.HostLabel(n) + "." + domain), domain).value;
    MatchIsOwner(n, found, domain);
  }

  /** The resolver agrees with pushed records: looking up the name of any ExtraRecords entry of any
      map over the same nodes finds the node whose address that entry carries. */
  lemma ResolverAgrees(self: Node, nodes: seq<Node>, domain: string, r: Netmap.DnsRecord)
    requires DistinctHosts(nodes)
    requires r in Netmap.MapFor(self, nodes, domain).records
    ensures var found := Lookup(nodes, Lower(r.name), domain);
            found.Some? && r.value == if r.kind.A? then found.value.ipv4 else found.value.ipv6
  {
    Netmap.MapMentionsOnlyVisible(self, nodes, domain);
    var n :| n in nodes && Netmap.Visible(self, n) && r in Netmap.RecordsOf(n, domain);
    OwnerFound(nodes, n, domain);
  }
}
