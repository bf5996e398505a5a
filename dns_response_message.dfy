/** Decoding a whole response: the header, at most one question, then the answer records
    (`dns/src/response_message.rs`). Authority and additional records are never read. */
module DnsResponseMessage {
  import opened Bytes
  import opened Wrappers
  import opened Cursors
  import DnsHeader
  import DnsQuestion
  import DnsResourceRecord
  import DnsUtils
  import Utf8

  type Header = DnsHeader.Header
  type Question = DnsQuestion.Question
  type ResourceRecord = DnsResourceRecord.ResourceRecord

  datatype ResponseMessage = ResponseMessage(header: Header, question: Option<Question>,
                                             answers: seq<ResourceRecord>)

  /** `n` values read one after another by `step` from `pos`, in order; the first read that
      fails is the failure of the whole. */
  function Repeat<T>(step: nat -> Result<Read<T>>, pos: nat, n: nat): (r: Result<Read<seq<T>>>)
    ensures r.Ok? ==> |r.value.value| == n
    ensures n == 0 ==> r == Ok(Read([], pos))
  {
    if n == 0 then Ok(Read([], pos))
    else
      var prev :- Repeat(step, pos, n - 1);
      var x :- step(prev.next);
      Ok(Read(prev.value + [x.value], x.next))
  }

  /** Once a read has failed, reading more values fails the same way. */
  lemma {:induction false} RepeatFails<T>(step: nat -> Result<Read<T>>, pos: nat, i: nat, j: nat)
    requires Repeat(step, pos, i).Err? && i <= j
    ensures Repeat(step, pos, j) == Repeat(step, pos, i)
    decreases j
  {
    if j > i {
      RepeatFails(step, pos, i, j - 1);
    }
  }

  /** One read more: what `step` reads where the previous values ended. */
  lemma RepeatNext<T>(step: nat -> Result<Read<T>>, pos: nat, i: nat, xs: seq<T>, q: nat)
    requires Repeat(step, pos, i) == Ok(Read(xs, q))
    ensures Repeat(step, pos, i + 1) == match step(q)
      case Ok(x) => Ok(Read(xs + [x.value], x.next))
      case Err(e) => Err(e)
  {
  }

  /** The `n` answer records at `pos`. */
  function RecordsAt(data: seq<uint8>, pos: nat, n: nat): (r: Result<Read<seq<ResourceRecord>>>)
    ensures r.Ok? ==> |r.value.value| == n
  {
    Repeat(p => DnsResourceRecord.RecordAt(data, p), pos, n)
  }

  /** The question part: one question when the header announces exactly one, else none. */
  function QuestionPartAt(data: seq<uint8>, pos: nat, qdCount: uint16): (r: Result<Read<Option<Question>>>)
    ensures qdCount != 1 ==> r == Ok(Read(None, pos))
    ensures qdCount == 1 ==> r.Ok? == DnsQuestion.QuestionAt(data, pos).Ok?
    ensures r.Ok? && qdCount == 1 ==> r.value == Read(Some(DnsQuestion.QuestionAt(data, pos).value.value),
                                                      DnsQuestion.QuestionAt(data, pos).value.next)
  {
    if qdCount == 1 then
      var q :- DnsQuestion.QuestionAt(data, pos);
      Ok(Read(Some(q.value), q.next))
    else Ok(Read(None, pos))
  }

  /** The message `parse_response` decodes: the header at offset 0; a question only when the
      header announces exactly one; then as many answer records as the header announces. */
  function ResponseOf(bytes: seq<uint8>): (r: Result<ResponseMessage>)
    ensures |bytes| < 12 ==> r == Err(UnexpectedEof)
    ensures r.Ok? ==> && r.value.header == DnsHeader.HeaderAt(bytes, 0).value.value
                      && (r.value.question.Some? <==> r.value.header.qdCount == 1)
                      && |r.value.answers| == r.value.header.anCount as int
  {
    var header :- DnsHeader.HeaderAt(bytes, 0);
    var question :- QuestionPartAt(bytes, header.next, header.value.qdCount);
    var answers :- RecordsAt(bytes, question.next, header.value.anCount as int);
    Ok(ResponseMessage(header.value, question.value, answers.value))
  }

  /** The `if` around `Question::parse_from_reader`. */
  method ReadQuestionPart(reader: Cursor, qdCount: uint16) returns (r: Result<Option<Question>>)
    modifies reader
    ensures r == Value(QuestionPartAt(reader.data, old(reader.pos), qdCount))
    ensures r.Ok? ==> reader.pos == QuestionPartAt(reader.data, old(reader.pos), qdCount).value.next
  {
    if qdCount == 1 {
      var q :- DnsQuestion.ParseFromReader(reader);
      r := Ok(Some(q));
    } else {
      r := Ok(None);
    }
  }

  /** The loop that pushes `answer_count` records. */
  method ReadRecords(reader: Cursor, n: uint16) returns (r: Result<seq<ResourceRecord>>)
    modifies reader
    ensures r == Value(RecordsAt(reader.data, old(reader.pos), n as int))
    ensures r.Ok? ==> reader.pos == RecordsAt(reader.data, old(reader.pos), n as int).value.next
  {
    ghost var start := reader.pos;
    ghost var step := p => DnsResourceRecord.RecordAt(reader.data, p);
    var answers: seq<ResourceRecord> := [];
    for i := 0 to n as int
      invariant Repeat(step, start, i) == Ok(Read(answers, reader.pos))
    {
      RepeatNext(step, start, i, answers, reader.pos);
      var record := DnsResourceRecord.ParseFromReader(reader);
      if record.Err? {
        RepeatFails(step, start, i + 1, n as int);
        return Err(record.error);
      }
      answers := answers + [record.value];
    }
    r := Ok(answers);
  }

  /** `parse_response`: a fresh cursor over the response, read from its start. */
  method ParseResponse(response: seq<uint8>) returns (r: Result<ResponseMessage>)
    ensures r == ResponseOf(response)
  {
    var reader := new Cursor(response);
    var header :- DnsHeader.ParseFromReader(reader);
    var question :- ReadQuestionPart(reader, header.qdCount);
    var answers :- ReadRecords(reader, header.anCount);
    r := Ok(ResponseMessage(header, question, answers));
  }

  /** The first four data bytes of a record, if it has at least four: the four `rdata.get(i)?`
      of `first_address`, `last_address` and `addresses`. */
  function AddressOf(rr: ResourceRecord): (a: Option<seq<uint8>>)
    ensures a.Some? <==> |rr.rdata| >= 4
    ensures a.Some? ==> |a.value| == 4 && rr.rdata == a.value + rr.rdata[4..]
  {
    if |rr.rdata| >= 4 then Some(rr.rdata[..4]) else None
  }

  /** `first_address`: the address in the first answer; `None` without answers. */
  function FirstAddress(m: ResponseMessage): (a: Option<seq<uint8>>)
    ensures a.Some? <==> m.answers != [] && |m.answers[0].rdata| >= 4
    ensures a.Some? ==> m.answers != [] && |m.answers[0].rdata| >= 4
                        && a.value == m.answers[0].rdata[..4]
  {
    if m.answers == [] then None else AddressOf(m.answers[0])
  }

  /** `last_address`: the address in the last answer; `None` without answers. */
  function LastAddress(m: ResponseMessage): (a: Option<seq<uint8>>)
    ensures a.Some? <==> m.answers != [] && |m.answers[|m.answers| - 1].rdata| >= 4
    ensures a.Some? ==> m.answers != [] && |m.answers[|m.answers| - 1].rdata| >= 4
                        && a.value == m.answers[|m.answers| - 1].rdata[..4]
  {
    if m.answers == [] then None else AddressOf(m.answers[|m.answers| - 1])
  }

  /** `addresses`: the address of each answer, in order. */
  function AddressList(rrs: seq<ResourceRecord>): (r: seq<Option<seq<uint8>>>)
    ensures |r| == |rrs|
    ensures forall i :: 0 <= i < |rrs| ==> r[i] == AddressOf(rrs[i])
  {
    if rrs == [] then [] else [AddressOf(rrs[0])] + AddressList(rrs[1..])
  }

  function Addresses(m: ResponseMessage): (r: seq<Option<seq<uint8>>>)
    ensures |r| == |m.answers|
  {
    AddressList(m.answers)
  }

  /** The first and the last address are the ends of the address list. */
  lemma AddressesEnds(m: ResponseMessage)
    ensures FirstAddress(m) == if Addresses(m) == [] then None else Addresses(m)[0]
    ensures LastAddress(m) == if Addresses(m) == [] then None else Addresses(m)[|Addresses(m)| - 1]
  {
  }

  /** The response to the query for "z.cnn" from the `test_no_answers` test: the name does not exist,
      the header announces one question and no answers, and one authority record follows. */
  const NoAnswersHeader: seq<uint8> := [209, 183, 129, 131, 0, 1, 0, 0, 0, 1, 0, 0]
  const NoAnswersQuestion: seq<uint8> := [1, 122, 3, 99, 110, 110, 0, 0, 1, 0, 1]
  const NoAnswersAuthority: seq<uint8> := [
    0, 0, 6, 0, 1, 0, 0, 2, 58, 0, 64, 1, 97, 12,
    114, 111, 111, 116, 45, 115, 101, 114, 118, 101, 114, 115, 3, 110, 101, 116, 0, 5, 110,
    115, 116, 108, 100, 12, 118, 101, 114, 105, 115, 105, 103, 110, 45, 103, 114, 115, 3, 99,
    111, 109, 0, 120, 164, 113, 48, 0, 0, 7, 8, 0, 0, 3, 132, 0, 9, 58, 128, 0, 1, 81, 128]
  const NoAnswersResponse: seq<uint8> := NoAnswersHeader + NoAnswersQuestion + NoAnswersAuthority

  /** The qname 1 'z' 3 'c' 'n' 'n' 0 decodes to "z.cnn". */
  lemma ZCnnName()
    ensures DnsUtils.DomainOf([1, 122, 3, 99, 110, 110, 0]) == Ok([122, 0x2E, 99, 110, 110])
  {
    var z: seq<uint8> := [122];
    var cnn: seq<uint8> := [99, 110, 110];
    var ls := [z, cnn];
    assert ls[1..] == [cnn];
    assert DnsUtils.Runs([cnn]) == [3] + cnn by {
      assert [cnn][1..] == [];
    }
    assert DnsUtils.Runs(ls) == [1] + z + DnsUtils.Runs([cnn]);
    DnsUtils.LabelsOfRuns(ls, [0]);
    assert DnsUtils.Runs(ls) + [0] == [1, 122, 3, 99, 110, 110, 0];
    Utf8.LossyAscii(z);
    Utf8.LossyAscii(cnn);
    assert DnsUtils.MapLossy(ls) == ls;
    assert DnsUtils.Join([cnn], DnsUtils.Dot) == cnn;
    assert DnsUtils.Join(ls, DnsUtils.Dot) == z + [DnsUtils.Dot] + cnn;
    var q: seq<uint8> := [1, 122, 3, 99, 110, 110, 0];
    assert DnsUtils.LabelsOf(q) == Ok(ls);
    assert DnsUtils.DomainOf(q) == Ok(DnsUtils.Join(DnsUtils.MapLossy(ls), DnsUtils.Dot));
    assert z + [DnsUtils.Dot] + cnn == [122, 0x2E, 99, 110, 110];
  }

  /** The question for "z.cnn", type A, class IN, read from the bytes that encode it. */
  lemma ZCnnQuestion(data: seq<uint8>, pos: nat)
    requires pos + 11 <= |data|
    requires data[pos..pos + 11] == [1, 122, 3, 99, 110, 110, 0, 0, 1, 0, 1]
    ensures DnsQuestion.QuestionAt(data, pos)
      == Ok(Read(DnsQuestion.Question([122, 0x2E, 99, 110, 110], 1, 1), pos + 11))
  {
    var run: seq<uint8> := [1, 122, 3, 99, 110, 110];
    var w := data[pos..pos + 11];
    assert data[pos..pos + 6] == w[..6] == run;
    assert data[pos + 6] == w[6] == 0;
    UntilZeroStops(data, pos, run);
    assert run + [0] == [1, 122, 3, 99, 110, 110, 0];
    ZCnnName();
    assert data[pos + 7] == w[7] && data[pos + 8] == w[8];
    assert data[pos + 9] == w[9] && data[pos + 10] == w[10];
  }

  /** It decodes, with the question for "z.cnn", type A, class IN, and no first address. */
  lemma NoAnswers()
    ensures ResponseOf(NoAnswersResponse).Ok?
    ensures ResponseOf(NoAnswersResponse).value.question
      == Some(DnsQuestion.Question([122, 0x2E, 99, 110, 110], 1, 1))
    ensures FirstAddress(ResponseOf(NoAnswersResponse).value) == None
  {
    var data := NoAnswersResponse;
    assert data[..12] == NoAnswersHeader;
    assert data[4] == NoAnswersHeader[4] && data[5] == NoAnswersHeader[5];
    assert data[6] == NoAnswersHeader[6] && data[7] == NoAnswersHeader[7];
    var h := DnsHeader.HeaderAt(data, 0).value.value;
    assert h.qdCount == 1 && h.anCount == 0;
    assert data[12..23] == NoAnswersQuestion;
    ZCnnQuestion(data, 12);
  }
}
