/** Answering a resend request from the stored bytes. */
module Resending {
  import opened Decimal
  import opened Wire
  import opened Fields
  import opened Layouts
  import opened Messages
  import opened Reading
  import opened Builder
  import opened Timestamps
  import opened Outbound

  /** What a session knows: its dictionary and its identity. Its own separator is the one the
      builder was configured with; generated messages always use the default. `accurate` is
      how sending times are judged on arrival, against a clock that is not part of the model. */
  datatype Context = Context(builder: MessageBuilder, session: Session, accurate: Timestamp -> bool)

  /** A stored message that cannot be read at all, or has no usable number; the second case
      is a panic. */
  datatype Failure = StoredMessageParse | NoSequenceNumber

  datatype Stored = Stored(message: Parts, number: nat)

  predicate Admin(m: Parts) {
    HasTag(m.header.fields, MSG_TYPE) && IsAdmin(GetRaw(m.header.fields, MSG_TYPE).value)
  }

  function ReadStored(c: Context, raw: seq<byte>): Result<Stored, Failure>
    requires WellFormedBuilder(c.builder)
  {
    match Build(c.builder, raw).IntoMessage()
    case None => Err(StoredMessageParse)
    case Some(m) =>
      match GetNumber(m.header.fields, MSG_SEQ_NUM)
      case None => Err(NoSequenceNumber)
      case Some(n) => Ok(Stored(m, n))
  }

  /** A stored message is read from a valid build, and from the header of an invalid one; a
      garbled one stops the answer, and so does one without a number. */
  lemma ReadExactly(c: Context, raw: seq<byte>)
    requires WellFormedBuilder(c.builder)
    ensures var r, built := ReadStored(c, raw), Build(c.builder, raw);
            && (r == Err(StoredMessageParse) <==> built.Garbled?)
            && (r == Err(NoSequenceNumber) <==>
                !built.Garbled? && GetNumber(built.message.header.fields, MSG_SEQ_NUM).None?)
            && (r.Ok? ==>
                  r.value.message == built.message
                  && Some(r.value.number) == GetNumber(built.message.header.fields, MSG_SEQ_NUM))
  {
    hide Build, GetNumber;
  }

  function GapFillBytes(c: Context, begin: nat, newSeqNo: nat, now: Moment): seq<byte> {
    Encoded(GapFillParts(c.session, begin, newSeqNo, now), SOH)
  }

  function ResentBytes(c: Context, m: Parts, now: Moment): seq<byte> {
    Encoded(ResentParts(m, now), c.builder.config.separator)
  }

  /** The gap fill that closes an open run, if there is one. */
  function Fill(c: Context, pending: Option<nat>, newSeqNo: nat, clock: nat -> Moment, k: nat): seq<seq<byte>> {
    if pending.Some? then [GapFillBytes(c, pending.value, newSeqNo, clock(k))] else []
  }

  datatype Answer = Answer(sent: seq<seq<byte>>, failure: Option<Failure>)

  /** The rest of the answer: `pending` is the first number of the open administrative run,
      `last` the number read last, `k` how many messages have been sent; the clock is read
      once per message sent. */
  function AnswerFrom(c: Context, raws: seq<seq<byte>>, pending: Option<nat>, last: nat, k: nat,
                      clock: nat -> Moment): Answer
    requires WellFormedBuilder(c.builder)
    decreases |raws|
  {
    if raws == [] then Answer(Fill(c, pending, last, clock, k), None)
    else
      match ReadStored(c, raws[0])
      case Err(e) => Answer([], Some(e))
      case Ok(Stored(m, n)) =>
        if Admin(m) then
          AnswerFrom(c, raws[1..], if pending.None? then Some(n) else pending, n, k, clock)
        else
          var fill := Fill(c, pending, n, clock, k);
          var k' := k + |fill|;
          var rest := AnswerFrom(c, raws[1..], None, n, k' + 1, clock);
          Answer(fill + [ResentBytes(c, m, clock(k'))] + rest.sent, rest.failure)
  }

  /** `send_sequence_reset`. */
  method SendSequenceReset(c: Context, begin: nat, end: nat, now: Moment) returns (raw: seq<byte>)
    ensures raw == GapFillBytes(c, begin, end, now)
  {
    hide Encoded, Stamped;
    raw := GenerateMessage(c.session, begin, now, GapFillPayload(end, now));
  }

  /** The message is marked and encoded; whatever went wrong in marking it is ignored. */
  method SendAgain(c: Context, m: Parts, now: Moment) returns (raw: seq<byte>)
    ensures raw == ResentBytes(c, m, now)
  {
    hide Encoded, AfterEncode, ResentHeader;
    var msg := new Message([], []);
    msg.header, msg.body, msg.trailer := m.header, m.body, m.trailer;
    var _ := PrepareMessageForResend(msg, now);
    raw := msg.Encode(c.builder.config.separator);
  }

  lemma AnswerAdmin(c: Context, raws: seq<seq<byte>>, pending: Option<nat>, last: nat, k: nat, clock: nat -> Moment,
                    m: Parts, n: nat)
    requires WellFormedBuilder(c.builder) && raws != [] && ReadStored(c, raws[0]) == Ok(Stored(m, n)) && Admin(m)
    ensures AnswerFrom(c, raws, pending, last, k, clock)
            == AnswerFrom(c, raws[1..], if pending.None? then Some(n) else pending, n, k, clock)
  {
    hide Admin, ReadStored, Fill, ResentBytes, WellFormedBuilder;
  }

  lemma AnswerApplication(c: Context, raws: seq<seq<byte>>, pending: Option<nat>, last: nat, k: nat,
                          clock: nat -> Moment, m: Parts, n: nat)
    requires WellFormedBuilder(c.builder) && raws != [] && ReadStored(c, raws[0]) == Ok(Stored(m, n)) && !Admin(m)
    ensures var fill := Fill(c, pending, n, clock, k);
            var rest := AnswerFrom(c, raws[1..], None, n, k + |fill| + 1, clock);
            AnswerFrom(c, raws, pending, last, k, clock)
            == Answer(fill + [ResentBytes(c, m, clock(k + |fill|))] + rest.sent, rest.failure)
  {
    hide Admin, ReadStored, Fill, ResentBytes, WellFormedBuilder;
  }

  /** `resend_messages`, on the slice the store returned. */
  method ResendMessages(c: Context, raws: seq<seq<byte>>, clock: nat -> Moment)
    returns (sent: seq<seq<byte>>, failure: Option<Failure>)
    requires WellFormedBuilder(c.builder)
    ensures Answer(sent, failure) == AnswerFrom(c, raws, None, 0, 0, clock)
  {
    hide Admin, ReadStored, GapFillBytes, ResentBytes;
    sent, failure := [], None;
    var resetStart: Option<nat> := None;
    var sequenceNumber := 0;
    ghost var whole := AnswerFrom(c, raws, None, 0, 0, clock);
    for i := 0 to |raws|
      invariant var rest := AnswerFrom(c, raws[i..], resetStart, sequenceNumber, |sent|, clock);
                whole == Answer(sent + rest.sent, rest.failure)
    {
      ghost var rest := raws[i..];
      assert rest[0] == raws[i] && rest[1..] == raws[i + 1..];
      var stored, error := LoadStored(c, raws[i]);
      if error.Some? {
        failure := error;
        return;
      }
      sequenceNumber, resetStart, sent := ReplayOne(c, rest, clock, stored, sequenceNumber, resetStart, sent);
    }
    if resetStart.Some? {
      var raw := SendSequenceReset(c, resetStart.value, sequenceNumber, clock(|sent|));
      sent := sent + [raw];
    }
  }

  method LoadStored(c: Context, raw: seq<byte>) returns (stored: Stored, error: Option<Failure>)
    requires WellFormedBuilder(c.builder)
    ensures if error.Some? then ReadStored(c, raw) == Err(error.value) else ReadStored(c, raw) == Ok(stored)
  {
    hide Build;
    var parsed := BuildMessage(c.builder, raw);
    var message := parsed.IntoMessage();
    stored := Stored(Parts(EMPTY, EMPTY, EMPTY), 0);
    if message.None? {
      error := Some(StoredMessageParse);
      return;
    }
    var number := GetNumber(message.value.header.fields, MSG_SEQ_NUM);
    if number.None? {
      error := Some(NoSequenceNumber);
      return;
    }
    stored, error := Stored(message.value, number.value), None;
  }

  /** An application message goes out again, behind a gap fill if a run is open. */
  method SendBoth(c: Context, m: Parts, n: nat, pending: Option<nat>, clock: nat -> Moment, sent: seq<seq<byte>>)
    returns (out: seq<seq<byte>>)
    ensures out == sent + Fill(c, pending, n, clock, |sent|)
            + [ResentBytes(c, m, clock(|sent| + |Fill(c, pending, n, clock, |sent|)|))]
  {
    hide GapFillBytes, ResentBytes;
    out := sent;
    if pending.Some? {
      var raw := SendSequenceReset(c, pending.value, n, clock(|out|));
      out := out + [raw];
    }
    var raw := SendAgain(c, m, clock(|out|));
    out := out + [raw];
  }

  lemma Regroup(a: seq<seq<byte>>, b: seq<seq<byte>>, c: seq<seq<byte>>, d: seq<seq<byte>>)
    ensures a + (b + c + d) == a + b + c + d
  {}

  /** One round of the loop. */
  method ReplayOne(c: Context, ghost raws: seq<seq<byte>>, clock: nat -> Moment, stored: Stored, ghost last: nat,
                   pending: Option<nat>, sent: seq<seq<byte>>)
    returns (sequenceNumber: nat, resetStart: Option<nat>, out: seq<seq<byte>>)
    requires WellFormedBuilder(c.builder) && raws != [] && ReadStored(c, raws[0]) == Ok(stored)
    ensures var before := AnswerFrom(c, raws, pending, last, |sent|, clock);
            var after := AnswerFrom(c, raws[1..], resetStart, sequenceNumber, |out|, clock);
            sent + before.sent == out + after.sent && before.failure == after.failure
  {
    hide *;
    var m := stored.message;
    sequenceNumber, resetStart, out := stored.number, pending, sent;
    if Admin(m) {
      AnswerAdmin(c, raws, pending, last, |sent|, clock, m, sequenceNumber);
      if resetStart.None? {
        resetStart := Some(sequenceNumber);
      }
    } else {
      AnswerApplication(c, raws, pending, last, |sent|, clock, m, sequenceNumber);
      out := SendBoth(c, m, sequenceNumber, pending, clock, sent);
      resetStart := None;
      ghost var fill := Fill(c, pending, sequenceNumber, clock, |sent|);
      ghost var again := ResentBytes(c, m, clock(|sent| + |fill|));
      assert |out| == |sent| + |fill| + 1;
      Regroup(sent, fill, [again], AnswerFrom(c, raws[1..], None, sequenceNumber, |out|, clock).sent);
    }
  }
}
