/** Messages on their way out: stamping a new message, filling a gap, and preparing a stored
    message to be sent again. */
module Outbound {
  import opened Decimal
  import opened Fields
  import opened Wire
  import opened Messages
  import opened Reading
  import opened Timestamps

  const MSG_SEQ_NUM: Tag := 34
  const NEW_SEQ_NO: Tag := 36
  const POSS_DUP_FLAG: Tag := 43
  const SENDER_COMP_ID: Tag := 49
  const SENDING_TIME: Tag := 52
  const TARGET_COMP_ID: Tag := 56
  const ORIG_SENDING_TIME: Tag := 122
  const GAP_FILL_FLAG: Tag := 123

  const YES: seq<byte> := [89]
  const NO: seq<byte> := [78]

  const LOGON: seq<byte> := [65]
  const HEARTBEAT: seq<byte> := [48]
  const TEST_REQUEST: seq<byte> := [49]
  const RESEND_REQUEST: seq<byte> := [50]
  const REJECT: seq<byte> := [51]
  const SEQUENCE_RESET: seq<byte> := [52]
  const LOGOUT: seq<byte> := [53]

  predicate IsAdmin(messageType: seq<byte>) {
    messageType in [LOGON, HEARTBEAT, TEST_REQUEST, RESEND_REQUEST, REJECT, SEQUENCE_RESET, LOGOUT]
  }

  type Moment = t: Timestamp | Legal(t) witness Timestamp(Date(2024, 1, 1), Time(0, 0, 0, 0))

  /** Who talks to whom, and in which version. */
  datatype Session = Session(beginString: seq<byte>, senderCompId: seq<byte>, targetCompId: seq<byte>)

  // ----- reading typed values -----

  function GetBool(fields: seq<Field>, tag: Tag): Option<bool> {
    match GetRaw(fields, tag)
    case None => None
    case Some(data) => if data == YES then Some(true) else if data == NO then Some(false) else None
  }

  /** A flag is one of two letters, and nothing else is read. */
  lemma FlagRead(fields: seq<Field>, tag: Tag)
    ensures GetBool(fields, tag) == Some(true) <==> GetRaw(fields, tag) == Some([89])
    ensures GetBool(fields, tag) == Some(false) <==> GetRaw(fields, tag) == Some([78])
  {
    hide GetRaw;
  }

  function GetNumber(fields: seq<Field>, tag: Tag): (r: Option<nat>)
    ensures r.Some? ==> r.value < U64_LIMIT
  {
    match GetRaw(fields, tag)
    case None => None
    case Some(data) => ParseUnsigned(data, U64_LIMIT)
  }

  function GetTime(fields: seq<Field>, tag: Tag): (r: Option<Timestamp>)
    ensures r.Some? ==> Legal(r.value)
  {
    match GetRaw(fields, tag)
    case None => None
    case Some(data) => ParseTime(data)
  }

  // ----- new messages -----

  /** What an outbound message writes: its type, header fields of its own, and its body. */
  datatype Payload = Payload(messageType: seq<byte>, header: seq<Field>, body: FieldMap)

  function StampedHeader(s: Session, n: nat, now: Moment, messageType: seq<byte>): seq<Field> {
    [Field(BEGIN_STRING, s.beginString), Field(MSG_TYPE, messageType), Field(SENDER_COMP_ID, s.senderCompId),
     Field(TARGET_COMP_ID, s.targetCompId), Field(MSG_SEQ_NUM, Print(n)), Field(SENDING_TIME, PrintTime(now))]
  }

  function Stamped(s: Session, n: nat, now: Moment, p: Payload): Parts {
    Parts(FieldMap(InsertAll(StampedHeader(s, n, now, p.messageType), p.header), []), p.body, EMPTY)
  }

  /** A gap fill claims to have been sent at the time it is sent. */
  function GapFillPayload(newSeqNo: nat, now: Moment): Payload {
    Payload(SEQUENCE_RESET,
            [Field(ORIG_SENDING_TIME, PrintTime(now)), Field(POSS_DUP_FLAG, YES)],
            FieldMap([Field(GAP_FILL_FLAG, YES), Field(NEW_SEQ_NO, Print(newSeqNo))], []))
  }

  function GapFillParts(s: Session, begin: nat, newSeqNo: nat, now: Moment): Parts {
    Stamped(s, begin, now, GapFillPayload(newSeqNo, now))
  }

  method SetHeaderFields(msg: Message, fields: seq<Field>)
    modifies msg
    ensures msg.Value() == old(msg.Value()).(header := old(msg.header).(fields := InsertAll(old(msg.header.fields),
            fields)))
  {
    ghost var before := msg.header.fields;
    for i := 0 to |fields|
      invariant msg.body == old(msg.body) && msg.trailer == old(msg.trailer)
                && msg.header.groups == old(msg.header.groups)
      invariant InsertAll(before, fields) == InsertAll(msg.header.fields, fields[i..])
    {
      assert fields[i..][0] == fields[i] && fields[i..][1..] == fields[i + 1..];
      msg.header := SetField(msg.header, fields[i]);
    }
  }

  lemma StampedInTurn(s: Session, n: nat, now: Moment, messageType: seq<byte>)
    ensures var h := FieldMap([Field(BEGIN_STRING, s.beginString), Field(MSG_TYPE, messageType)], []);
            SetField(SetField(SetField(SetField(h, Field(SENDER_COMP_ID, s.senderCompId)),
              Field(TARGET_COMP_ID, s.targetCompId)),
                              Field(MSG_SEQ_NUM, Print(n))),
                     Field(SENDING_TIME, PrintTime(now)))
            == FieldMap(StampedHeader(s, n, now, messageType), [])
  {}

  /** A message with the fields every message has. */
  method StampMessage(s: Session, n: nat, now: Moment, messageType: seq<byte>) returns (msg: Message)
    ensures fresh(msg) && msg.Value() == Parts(FieldMap(StampedHeader(s, n, now, messageType), []), EMPTY, EMPTY)
  {
    hide InsertField, Print, PrintTime, StampedHeader;
    msg := new Message(s.beginString, messageType);
    msg.header := SetField(msg.header, Field(SENDER_COMP_ID, s.senderCompId));
    msg.header := SetField(msg.header, Field(TARGET_COMP_ID, s.targetCompId));
    msg.header := SetField(msg.header, Field(MSG_SEQ_NUM, Print(n)));
    msg.header := SetField(msg.header, Field(SENDING_TIME, PrintTime(now)));
    StampedInTurn(s, n, now, messageType);
  }

  /** `generate_message`. */
  method GenerateMessage(s: Session, n: nat, now: Moment, p: Payload) returns (raw: seq<byte>)
    ensures raw == Encoded(Stamped(s, n, now, p), SOH)
  {
    hide Encoded, InsertAll, StampedHeader, AfterEncode;
    var msg := StampMessage(s, n, now, p.messageType);
    SetHeaderFields(msg, p.header);
    msg.body := p.body;
    raw := msg.Encode(SOH);
  }

  // ----- sending again -----

  datatype ResendError = MissingSendingTime | InvalidSendingTime

  /** The header as it goes out again. If SendingTime does not parse it is lost on the way. */
  function ResentHeader(header: FieldMap, now: Moment): FieldMap {
    match GetRaw(header.fields, SENDING_TIME)
    case None => header
    case Some(data) =>
      var popped := PopField(header, SENDING_TIME);
      if GetBool(header.fields, POSS_DUP_FLAG) == Some(true) && HasTag(header.fields, ORIG_SENDING_TIME) then
        SetField(popped, Field(SENDING_TIME, PrintTime(now)))
      else
        match ParseTime(data)
        case None => popped
        case Some(t) =>
          SetField(SetField(SetField(popped, Field(ORIG_SENDING_TIME, PrintTime(t))),
                            Field(SENDING_TIME, PrintTime(now))),
                   Field(POSS_DUP_FLAG, YES))
  }

  function ResentParts(m: Parts, now: Moment): Parts {
    m.(header := ResentHeader(m.header, now))
  }

  /** When preparing reports no error. */
  predicate Resendable(header: FieldMap) {
    && HasTag(header.fields, SENDING_TIME)
    && ((GetBool(header.fields, POSS_DUP_FLAG) == Some(true) && HasTag(header.fields, ORIG_SENDING_TIME))
        || GetTime(header.fields, SENDING_TIME).Some?)
  }

  /** `prepare_message_for_resend`. */
  method PrepareMessageForResend(msg: Message, now: Moment) returns (error: Option<ResendError>)
    modifies msg
    ensures msg.Value() == ResentParts(old(msg.Value()), now)
    ensures error.None? <==> Resendable(old(msg.header))
  {
    var sendingTime := GetRaw(msg.header.fields, SENDING_TIME);
    if sendingTime.None? {
      return Some(MissingSendingTime);
    }
    var alreadyPossDup := GetBool(msg.header.fields, POSS_DUP_FLAG) == Some(true);
    var hasOrigSendingTime := GetRaw(msg.header.fields, ORIG_SENDING_TIME).Some?;
    msg.header := PopField(msg.header, SENDING_TIME);
    if alreadyPossDup && hasOrigSendingTime {
      msg.header := SetField(msg.header, Field(SENDING_TIME, PrintTime(now)));
      return None;
    }
    var original := ParseTime(sendingTime.value);
    if original.None? {
      return Some(InvalidSendingTime);
    }
    msg.header := SetField(msg.header, Field(ORIG_SENDING_TIME, PrintTime(original.value)));
    msg.header := SetField(msg.header, Field(SENDING_TIME, PrintTime(now)));
    msg.header := SetField(msg.header, Field(POSS_DUP_FLAG, YES));
    return None;
  }

  lemma {:induction false} RemovedLookup(fields: seq<Field>, tag: Tag, t: Tag)
    requires UniqueTags(fields)
    ensures GetRaw(RemoveTag(fields, tag), t) == if t == tag then None else GetRaw(fields, t)
  {
    RemovedTag(fields, tag);
    hide RemoveTag, UniqueTags;
    var r := RemoveTag(fields, tag);
    if HasTag(fields, t) && t != tag {
      var f := fields[IndexOf(fields, t)];
      RemovedMembers(fields, tag, f);
      LookupMember(r, f);
    } else if HasTag(r, t) {
      RemovedMembers(fields, tag, r[IndexOf(r, t)]);
    }
  }

  lemma RemovedLookups(fields: seq<Field>, tag: Tag)
    requires UniqueTags(fields)
    ensures UniqueTags(RemoveTag(fields, tag))
    ensures forall t: Tag :: GetRaw(RemoveTag(fields, tag), t) == if t == tag then None else GetRaw(fields, t)
  {
    RemovedTag(fields, tag);
    forall t: Tag ensures GetRaw(RemoveTag(fields, tag), t) == if t == tag then None else GetRaw(fields, t) {
      RemovedLookup(fields, tag, t);
    }
  }

  lemma SetLookups(fm: FieldMap, f: Field)
    requires UniqueTags(fm.fields)
    ensures UniqueTags(SetField(fm, f).fields)
    ensures forall t: Tag :: GetRaw(SetField(fm, f).fields, t) == if t == f.tag then Some(f.data)
            else GetRaw(fm.fields, t)
  {
    InsertedField(fm.fields, f);
  }

  /** The time a message was first sent, as the resent copy reports it. */
  function OriginalTime(header: FieldMap): Option<Timestamp> {
    if GetBool(header.fields, POSS_DUP_FLAG) == Some(true) && HasTag(header.fields, ORIG_SENDING_TIME) then
      GetTime(header.fields, ORIG_SENDING_TIME)
    else
      GetTime(header.fields, SENDING_TIME)
  }

  /** What a resent header says: sent now, a possible duplicate, of the original time; nothing
      else changes. */
  lemma {:induction false} ResentLookup(header: FieldMap, now: Moment, t: Tag)
    requires UniqueTags(header.fields) && Resendable(header)
    ensures var h := ResentHeader(header, now);
            && UniqueTags(h.fields) && h.groups == header.groups
            && GetTime(h.fields, SENDING_TIME) == Some(now)
            && GetBool(h.fields, POSS_DUP_FLAG) == Some(true)
            && GetTime(h.fields, ORIG_SENDING_TIME) == OriginalTime(header)
            && (t !in [SENDING_TIME, POSS_DUP_FLAG, ORIG_SENDING_TIME]
               ==> GetRaw(h.fields, t) == GetRaw(header.fields, t))
  {
    hide GetRaw, UniqueTags, InsertField, RemoveTag, PrintTime, ParseTime;
    TimeRoundTrip(now);
    RemovedLookups(header.fields, SENDING_TIME);
    var popped := PopField(header, SENDING_TIME);
    var sent := Field(SENDING_TIME, PrintTime(now));
    if GetBool(header.fields, POSS_DUP_FLAG) == Some(true) && HasTag(header.fields, ORIG_SENDING_TIME) {
      SetLookups(popped, sent);
    } else {
      var original := GetTime(header.fields, SENDING_TIME).value;
      TimeRoundTrip(original);
      var first := Field(ORIG_SENDING_TIME, PrintTime(original));
      SetLookups(popped, first);
      SetLookups(SetField(popped, first), sent);
      SetLookups(SetField(SetField(popped, first), sent), Field(POSS_DUP_FLAG, YES));
    }
  }

  /** However often a message is sent again, it keeps reporting the time it was first sent. */
  lemma {:induction false} OriginalTimeKept(header: FieldMap, times: seq<Moment>)
    requires UniqueTags(header.fields) && Resendable(header) && OriginalTime(header).Some?
    ensures UniqueTags(ResentOften(header, times).fields) && Resendable(ResentOften(header, times))
    ensures OriginalTime(ResentOften(header, times)) == OriginalTime(header)
  {
    if times != [] {
      var before := ResentOften(header, times[..|times| - 1]);
      OriginalTimeKept(header, times[..|times| - 1]);
      ResentLookup(before, times[|times| - 1], MSG_TYPE);
      hide ResentHeader;
    }
  }

  function ResentOften(header: FieldMap, times: seq<Moment>): FieldMap {
    if times == [] then header else ResentHeader(ResentOften(header, times[..|times| - 1]), times[|times| - 1])
  }

  /** A message that could not be prepared goes out as it was exactly if it had no SendingTime;
      one whose SendingTime does not parse loses it. A message goes out with a SendingTime exactly
      if it could be prepared. */
  lemma UnpreparedSent(header: FieldMap, now: Moment)
    requires UniqueTags(header.fields)
    ensures HasTag(ResentHeader(header, now).fields, SENDING_TIME) <==> Resendable(header)
    ensures !Resendable(header) ==> (ResentHeader(header, now) == header <==> !HasTag(header.fields, SENDING_TIME))
    ensures !Resendable(header) ==> ResentHeader(header, now) == PopField(header, SENDING_TIME)
  {
    if Resendable(header) {
      ResentLookup(header, now, MSG_TYPE);
    } else {
      RemovedTag(header.fields, SENDING_TIME);
    }
    hide RemoveTag, InsertField;
  }

  /** A header with field 52 set to a date without a time: what goes out has no field 52. */
  lemma DateOnlyLost(now: Moment)
    ensures var date: seq<byte> := [50, 48, 50, 52, 48, 49, 48, 49];
            var header := FieldMap([Field(MSG_SEQ_NUM, [55]), Field(SENDING_TIME, date)], []);
            && !Resendable(header)
            && ResentHeader(header, now) == FieldMap([Field(MSG_SEQ_NUM, [55])], [])
  {
    var date: seq<byte> := [50, 48, 50, 52, 48, 49, 48, 49];
    var fields := [Field(MSG_SEQ_NUM, [55]), Field(SENDING_TIME, date)];
    assert fields[1].tag == SENDING_TIME && IndexOf(fields, SENDING_TIME) == 1;
    assert ParseTime(date) == None;
    assert !HasTag(fields, POSS_DUP_FLAG);
    UnpreparedSent(FieldMap(fields, []), now);
    assert fields[..1] + fields[2..] == [fields[0]];
  }
}
