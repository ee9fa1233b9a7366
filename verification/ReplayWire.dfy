/** The answer to a resend request as bytes on the wire, read and judged by a peer that runs
    the same code with the roles of the two parties exchanged. */
module ReplayWire {
  import opened Decimal
  import opened Fields
  import opened Layouts
  import opened Wire
  import opened Encoder
  import opened Lengths
  import opened Grammar
  import opened Alignment
  import opened Messages
  import opened BodyLengths
  import opened Reading
  import opened BodyGrammar
  import opened RoundTrip
  import opened Rereading
  import opened Timestamps
  import opened Outbound
  import opened Verification
  import opened Resending
  import opened Replay

  // ----- the peer -----

  function Mirror(s: Session): Session {
    Session(s.beginString, s.targetCompId, s.senderCompId)
  }

  /** What a peer expecting `expected` does with an application message or a sequence reset:
      it reads it, verifies it and moves its number. Other administrative messages are never
      part of an answer. */
  function Take(peer: Context, expected: nat, raw: seq<byte>): (Reception, nat)
    requires WellFormedBuilder(peer.builder)
  {
    match Build(peer.builder, raw)
    case Valid(m) => Process(ReceiverOf(peer), expected, m)
    case Invalid(_, _) => (Unreadable, expected)
    case Garbled(_) => (Unreadable, expected)
  }

  function ReceiverOf(peer: Context): Receiver {
    Receiver(peer.session, peer.accurate)
  }

  function Process(receiver: Receiver, expected: nat, m: Parts): (Reception, nat) {
    var messageType := GetOr(m.header.fields, MSG_TYPE);
    match VerifyMessage(m, receiver, expected, FlagsFor(messageType, m))
    case Some(issue) => (Flagged(issue), expected)
    case None => if messageType == SEQUENCE_RESET then OnSequenceReset(expected, m) else (Accepted, expected + 1)
  }

  /** `on_sequence_reset`. */
  function OnSequenceReset(expected: nat, m: Parts): (Reception, nat) {
    match GetNumber(m.body.fields, NEW_SEQ_NO)
    case None => (ResetRefused, expected)
    case Some(end) => if end <= expected then (ResetRefused, expected) else (Accepted, end)
  }

  function TakeAll(peer: Context, expected: nat, raws: seq<seq<byte>>): (seq<Reception>, nat)
    requires WellFormedBuilder(peer.builder)
    decreases |raws|
  {
    if raws == [] then ([], expected)
    else
      var (r, next) := Take(peer, expected, raws[0]);
      var (rs, last) := TakeAll(peer, next, raws[1..]);
      ([r] + rs, last)
  }

  // ----- hypotheses -----

  const SESSION_TAGS: set<Tag> := {MSG_SEQ_NUM, POSS_DUP_FLAG, SENDER_COMP_ID, SENDING_TIME, TARGET_COMP_ID,
    ORIG_SENDING_TIME}

  /** The dictionary has the standard header fields and the SequenceReset message. */
  ghost predicate KnowsSession(b: MessageBuilder) {
    && b.config.separator == SOH
    && SESSION_TAGS <= b.headerTags && GAP_FILL_FLAG !in b.headerTags
    && GAP_FILL_FLAG in b.fieldTags && NEW_SEQ_NO in b.fieldTags && CHECK_SUM in b.trailerTags
    && SEQUENCE_RESET in b.messages
    && var l := b.messages[SEQUENCE_RESET];
       && Declares(l, GAP_FILL_FLAG) && Declares(l, NEW_SEQ_NO)
       && GroupFor(l, GAP_FILL_FLAG).None? && GroupFor(l, NEW_SEQ_NO).None?
       && !Absorbs(b, l, CHECK_SUM)
  }

  ghost predicate Ready(c: Context) {
    && WellFormedBuilder(c.builder) && KnowsSession(c.builder)
    && SOH !in c.session.beginString && SOH !in c.session.senderCompId && SOH !in c.session.targetCompId
  }

  /** A stored message: sendable, from this session to that peer, under number `n`, and if it
      is an application message, first sent at a time that can be read and has passed. */
  ghost predicate Storable(c: Context, m: Parts, n: nat, clock: nat -> Moment)
    requires WellFormedBuilder(c.builder)
  {
    && Sendable(c.builder, m)
    && GetNumber(m.header.fields, MSG_SEQ_NUM) == Some(n)
    && CheckParties(m.header.fields, Mirror(c.session)).None?
    && (!Admin(m) ==> Timely(m.header, clock))
  }

  ghost predicate Timely(header: FieldMap, clock: nat -> Moment) {
    && HasTag(header.fields, SENDING_TIME)
    && OriginalTime(header).Some?
    && forall k :: AtMost(OriginalTime(header).value, clock(k))
  }

  /** With a clock that does not go back, having been sent before the first reading is enough. */
  lemma {:induction false} TimelyByClock(header: FieldMap, clock: nat -> Moment)
    requires HasTag(header.fields, SENDING_TIME) && OriginalTime(header).Some?
    requires AtMost(OriginalTime(header).value, clock(0)) && forall k: nat :: AtMost(clock(k), clock(k + 1))
    ensures Timely(header, clock)
  {
    hide AtMost, OriginalTime;
    forall k: nat ensures AtMost(OriginalTime(header).value, clock(k)) {
      StillPast(OriginalTime(header).value, clock, k);
    }
  }

  lemma {:induction false} StillPast(t: Timestamp, clock: nat -> Moment, k: nat)
    requires AtMost(t, clock(0)) && forall k: nat :: AtMost(clock(k), clock(k + 1))
    ensures AtMost(t, clock(k))
  {
    hide AtMost;
    if k > 0 {
      StillPast(t, clock, k - 1);
      assert AtMost(clock(k - 1), clock(k - 1 + 1));
      AtMostTransitive(t, clock(k - 1), clock(k));
    }
  }

  lemma {:induction false} ShortSendable(b: MessageBuilder, m: Parts)
    requires WellFormedBuilder(b) && Describable(b, m) && Short(Encoded(m, b.config.separator))
    ensures Sendable(b, m)
  {
    SendableValid(b, m);
    SendableNoOrphans(b, m);
    hide Describable, Encoded, BodyLength, Prepared;
    LengthOfEncoded(m, b.config.separator);
  }

  // ----- reading what was sent -----

  /** The peer reads a sendable message as it was sent. */
  lemma {:induction false} TakeSendable(peer: Context, expected: nat, m: Parts)
    requires WellFormedBuilder(peer.builder) && Sendable(peer.builder, m)
    ensures var sep := peer.builder.config.separator;
            Take(peer, expected, Encoded(m, sep)) == Process(ReceiverOf(peer), expected, AsRead(m, sep))
  {
    hide Build, Sendable, Process, Encoded, AsRead;
    EncodeThenBuild(peer.builder, m);
  }

  /** Everything a peer looks at in a header. */
  predicate SameHeader(a: seq<Field>, c: seq<Field>) {
    forall t: Tag :: t != BODY_LENGTH ==> GetRaw(a, t) == GetRaw(c, t)
  }

  lemma {:induction false} AsReadSame(b: MessageBuilder, m: Parts)
    requires WellFormedBuilder(b) && Sendable(b, m)
    ensures GoodHeader(b, AsRead(m, b.config.separator).header)
    ensures SameHeader(AsRead(m, b.config.separator).header.fields, m.header.fields)
    ensures AsRead(m, b.config.separator).body.fields == m.body.fields
  {
    AsReadForm(m, b.config.separator);
    hide AsRead, GoodHeader, Sendable, GetRaw, AfterEncode, Arranged, AlignedRuns;
    AsReadHeader(b, m, MSG_TYPE);
    forall t: Tag | t != BODY_LENGTH
      ensures GetRaw(AsRead(m, b.config.separator).header.fields, t) == GetRaw(m.header.fields, t)
    {
      AsReadHeader(b, m, t);
    }
  }

  /** Processing depends on the header's values and the body's own fields only. */
  lemma SameProcess(receiver: Receiver, expected: nat, a: Parts, c: Parts)
    requires SameHeader(a.header.fields, c.header.fields) && a.body.fields == c.body.fields
    ensures Process(receiver, expected, a) == Process(receiver, expected, c)
  {
    hide GetRaw, ParseTime, ParseUnsigned, AtMost;
    var x, y := a.header.fields, c.header.fields;
    assert GetRaw(x, MSG_TYPE) == GetRaw(y, MSG_TYPE) && GetRaw(x, POSS_DUP_FLAG) == GetRaw(y, POSS_DUP_FLAG);
    assert GetRaw(x, BEGIN_STRING) == GetRaw(y, BEGIN_STRING) && GetRaw(x, SENDER_COMP_ID) == GetRaw(y, SENDER_COMP_ID);
    assert GetRaw(x, TARGET_COMP_ID) == GetRaw(y, TARGET_COMP_ID) && GetRaw(x, SENDING_TIME) == GetRaw(y, SENDING_TIME);
    assert GetRaw(x, ORIG_SENDING_TIME) == GetRaw(y, ORIG_SENDING_TIME)
      && GetRaw(x, MSG_SEQ_NUM) == GetRaw(y, MSG_SEQ_NUM);
    assert CheckParties(x, receiver.session) == CheckParties(y, receiver.session);
    assert forall check :: CheckTimes(x, check, receiver.accurate) == CheckTimes(y, check, receiver.accurate);
    assert GetNumber(x, MSG_SEQ_NUM) == GetNumber(y, MSG_SEQ_NUM);
    assert FlagsFor(GetOr(x, MSG_TYPE), a) == FlagsFor(GetOr(y, MSG_TYPE), c);
    hide CheckParties, CheckTimes, GetNumber, FlagsFor;
  }

  lemma {:induction false} TakeAsSent(peer: Context, expected: nat, m: Parts)
    requires WellFormedBuilder(peer.builder) && Sendable(peer.builder, m)
    ensures Take(peer, expected, Encoded(m, peer.builder.config.separator)) == Process(ReceiverOf(peer), expected, m)
  {
    hide *;
    TakeSendable(peer, expected, m);
    AsReadSame(peer.builder, m);
    SameProcess(ReceiverOf(peer), expected, AsRead(m, peer.builder.config.separator), m);
  }

  // ----- a resent message -----

  function Peer(c: Context): Context {
    Context(c.builder, Mirror(c.session), c.accurate)
  }

  lemma {:induction false} ResentGood(b: MessageBuilder, header: FieldMap, now: Moment)
    requires GoodHeader(b, header) && KnowsSession(b)
    ensures GoodHeader(b, ResentHeader(header, now))
  {
    var sent, flag := Field(SENDING_TIME, PrintTime(now)), Field(POSS_DUP_FLAG, YES);
    CarriedTime(b, SENDING_TIME, now);
    assert POSS_DUP_FLAG in SESSION_TAGS;
    assert Carried(b, flag);
    hide GoodHeader, Carried, SetField, PopField, PrintTime, ParseTime, KnowsSession;
    var popped := PopField(header, SENDING_TIME);
    GoodPop(b, header, SENDING_TIME);
    GoodSet(b, popped, sent);
    forall t: Moment {:trigger PrintTime(t)}
      ensures GoodHeader(b, SetField(SetField(SetField(popped, Field(ORIG_SENDING_TIME, PrintTime(t))), sent), flag))
    {
      var first := Field(ORIG_SENDING_TIME, PrintTime(t));
      CarriedTime(b, ORIG_SENDING_TIME, t);
      GoodSet(b, popped, first);
      GoodSet(b, SetField(popped, first), sent);
      GoodSet(b, SetField(SetField(popped, first), sent), flag);
    }
  }

  lemma CarriedTime(b: MessageBuilder, tag: Tag, t: Moment)
    requires KnowsSession(b) && tag in SESSION_TAGS
    ensures Carried(b, Field(tag, PrintTime(t)))
  {
    TimeClean(t, SOH);
    hide PrintTime;
  }

  lemma {:induction false} ResentDescribable(b: MessageBuilder, m: Parts, now: Moment)
    requires WellFormedBuilder(b) && KnowsSession(b) && Sendable(b, m) && HasTag(m.header.fields, SENDING_TIME)
             && OriginalTime(m.header).Some?
    ensures Describable(b, ResentParts(AsRead(m, b.config.separator), now))
  {
    var read := AsRead(m, b.config.separator);
    AsReadSame(b, m);
    assert HasTag(m.header.fields, BEGIN_STRING) by {
      hide BodyLength, AllSeparable, SendableBody;
    }
    hide *;
    ResentGood(b, read.header, now);
    SameTimes(read.header, m.header);
    ResentKeeps(b, read.header, now, BEGIN_STRING);
    ResentKeeps(b, read.header, now, MSG_TYPE);
    SameAt(read.header.fields, m.header.fields, BEGIN_STRING);
    SameAt(read.header.fields, m.header.fields, MSG_TYPE);
    ReheadedDescribable(b, m, ResentHeader(read.header, now));
    ResentForm(read, now);
  }

  lemma ResentForm(m: Parts, now: Moment)
    ensures ResentParts(m, now) == m.(header := ResentHeader(m.header, now))
  {}

  lemma SameAt(a: seq<Field>, c: seq<Field>, t: Tag)
    requires SameHeader(a, c) && t != BODY_LENGTH
    ensures GetRaw(a, t) == GetRaw(c, t) && (HasTag(a, t) <==> HasTag(c, t))
  {
    assert GetRaw(a, t) == GetRaw(c, t);
    hide SameHeader;
  }

  lemma SameTimes(a: FieldMap, c: FieldMap)
    requires SameHeader(a.fields, c.fields)
    ensures OriginalTime(a) == OriginalTime(c) && (Resendable(a) <==> Resendable(c))
    ensures HasTag(a.fields, SENDING_TIME) <==> HasTag(c.fields, SENDING_TIME)
    ensures OriginalTime(a).Some? && HasTag(a.fields, SENDING_TIME) ==> Resendable(a)
  {
    SameAt(a.fields, c.fields, SENDING_TIME);
    SameAt(a.fields, c.fields, ORIG_SENDING_TIME);
    SameAt(a.fields, c.fields, POSS_DUP_FLAG);
    hide GetRaw, SameHeader, ParseTime;
  }

  lemma ResentKeeps(b: MessageBuilder, header: FieldMap, now: Moment, t: Tag)
    requires GoodHeader(b, header) && Resendable(header)
    requires t != SENDING_TIME && t != POSS_DUP_FLAG && t != ORIG_SENDING_TIME
    ensures GetRaw(ResentHeader(header, now).fields, t) == GetRaw(header.fields, t)
    ensures HasTag(ResentHeader(header, now).fields, t) <==> HasTag(header.fields, t)
  {
    ResentLookup(header, now, t);
    hide ResentHeader, GoodHeader, Resendable;
  }

  /** What the peer does, from what it finds in the message. */
  lemma ProcessFrom(receiver: Receiver, expected: nat, m: Parts, messageType: seq<byte>, n: nat, flags: Flags)
    requires GetRaw(m.header.fields, MSG_TYPE) == Some(messageType)
    requires CheckParties(m.header.fields, receiver.session).None?
    requires FlagsFor(messageType, m) == flags
    requires CheckTimes(m.header.fields, flags.checkOrigSendingTime, receiver.accurate).None?
    requires GetNumber(m.header.fields, MSG_SEQ_NUM) == Some(n)
    ensures Process(receiver, expected, m) ==
            match CheckSequenceNumber(n, expected, flags.checkTooHigh, flags.checkTooLow)
            case Some(issue) => (Flagged(issue), expected)
            case None => if messageType == SEQUENCE_RESET then OnSequenceReset(expected, m)
              else (Accepted, expected + 1)
  {
    hide GetRaw, CheckParties, CheckTimes, GetNumber, FlagsFor, OnSequenceReset;
  }

  lemma ReceivedResend(expected: nat, n: nat)
    ensures Receive(expected, Resend(n)) ==
            if n < expected then (Flagged(SeqNumberTooLow(expected, n)), expected)
            else if n > expected then (Flagged(SequenceGap(expected, n)), expected)
            else (Accepted, expected + 1)
  {
    ReceivedExactly(expected, Resend(n));
  }

  /** A message from or for somebody else is flagged and changes nothing, whatever else it says. */
  lemma {:induction false} WrongPartiesFlagged(peer: Context, expected: nat, m: Parts)
    requires WellFormedBuilder(peer.builder) && Sendable(peer.builder, m)
             && CheckParties(m.header.fields, peer.session).Some?
    ensures Take(peer, expected, Encoded(m, peer.builder.config.separator))
            == (Flagged(CheckParties(m.header.fields, peer.session).value), expected)
  {
    hide Take, Sendable, Encoded, CheckParties;
    TakeAsSent(peer, expected, m);
  }

  /** A SequenceReset is taken exactly if it has a NewSeqNo that leads forward. */
  lemma ResetHandled(expected: nat, m: Parts)
    ensures var n := GetNumber(m.body.fields, NEW_SEQ_NO);
            var (r, next) := OnSequenceReset(expected, m);
            && (n.Some? && n.value > expected ==> r == Accepted && next == n.value)
            && (n.None? || n.value <= expected ==> r == ResetRefused && next == expected)
  {
    hide GetNumber;
  }

  /** A message sent again is received as the application message it is, under its number. */
  lemma {:induction false} ProcessResent(c: Context, b: MessageBuilder, m: Parts, n: nat, now: Moment, expected: nat)
    requires GoodHeader(b, m.header)
    requires GetNumber(m.header.fields, MSG_SEQ_NUM) == Some(n)
             && CheckParties(m.header.fields, Mirror(c.session)).None?
    requires HasTag(m.header.fields, MSG_TYPE) && !Admin(m) && Resendable(m.header)
    requires OriginalTime(m.header).Some? && AtMost(OriginalTime(m.header).value, now)
    requires c.accurate(now)
    ensures Process(ReceiverOf(Peer(c)), expected, ResentParts(m, now)) == Receive(expected, Resend(n))
  {
    var h, t, m' := ResentHeader(m.header, now), GetOr(m.header.fields, MSG_TYPE), ResentParts(m, now);
    assert UniqueTags(m.header.fields) && m'.header == h;
    ResentTimes(m.header, now, c.accurate);
    ResentFacts(c, b, m.header, now);
    ApplicationFlags(m', t);
    hide *;
    PeerIs(c);
    ProcessFrom(ReceiverOf(Peer(c)), expected, m', t, n,
      Flags(true, true, GetBool(h.fields, POSS_DUP_FLAG) == Some(true)));
    ReceiveResend(expected, n);
  }

  lemma ReceiveResend(expected: nat, n: nat)
    ensures Receive(expected, Resend(n)) ==
            match CheckSequenceNumber(n, expected, true, true)
            case Some(issue) => (Flagged(issue), expected)
            case None => (Accepted, expected + 1)
  {}

  lemma ApplicationFlags(m: Parts, messageType: seq<byte>)
    requires !IsAdmin(messageType)
    ensures messageType != SEQUENCE_RESET
    ensures FlagsFor(messageType, m) == Flags(true, true, GetBool(m.header.fields, POSS_DUP_FLAG) == Some(true))
  {
    hide GetBool;
  }

  /** Sending a message again changes nothing its receiver tells it by. */
  lemma {:induction false} ResentFacts(c: Context, b: MessageBuilder, header: FieldMap, now: Moment)
    requires GoodHeader(b, header) && Resendable(header)
    ensures var h := ResentHeader(header, now).fields;
            && GetRaw(h, MSG_TYPE) == GetRaw(header.fields, MSG_TYPE)
            && GetNumber(h, MSG_SEQ_NUM) == GetNumber(header.fields, MSG_SEQ_NUM)
            && CheckParties(h, Mirror(c.session)) == CheckParties(header.fields, Mirror(c.session))
  {
    hide ResentHeader, GetRaw, GoodHeader, Resendable, HasTag;
    ResentKeeps(b, header, now, MSG_TYPE);
    ResentKeeps(b, header, now, BEGIN_STRING);
    ResentKeeps(b, header, now, SENDER_COMP_ID);
    ResentKeeps(b, header, now, TARGET_COMP_ID);
    ResentKeeps(b, header, now, MSG_SEQ_NUM);
  }

  lemma {:induction false} TakeResent(c: Context, m: Parts, n: nat, now: Moment, expected: nat)
    requires Ready(c) && Sendable(c.builder, m) && !Admin(m)
    requires GetNumber(m.header.fields, MSG_SEQ_NUM) == Some(n)
             && CheckParties(m.header.fields, Mirror(c.session)).None?
    requires HasTag(m.header.fields, SENDING_TIME) && OriginalTime(m.header).Some?
             && AtMost(OriginalTime(m.header).value, now)
    requires Short(ResentBytes(c, AsRead(m, SOH), now)) && c.accurate(now)
    ensures Take(Peer(c), expected, ResentBytes(c, AsRead(m, SOH), now)) == Receive(expected, Resend(n))
    ensures Take(Peer(c), expected, ResentBytes(c, AsRead(m, SOH), now)) ==
            if n < expected then (Flagged(SeqNumberTooLow(expected, n)), expected)
            else if n > expected then (Flagged(SequenceGap(expected, n)), expected)
            else (Accepted, expected + 1)
    ensures var r := Build(c.builder, ResentBytes(c, AsRead(m, SOH), now)); r.Valid? && Carries(r.message, m, now)
  {
    var b, read := c.builder, AsRead(m, SOH);
    assert b.config.separator == SOH;
    assert HasTag(m.header.fields, MSG_TYPE) by {
      hide BodyLength, AllSeparable, SendableBody;
    }
    AsReadSame(b, m);
    SameTimes(read.header, m.header);
    SameAdmin(c, read.header.fields, m.header.fields);
    ResentDescribable(b, m, now);
    assert ResentBytes(c, read, now) == Encoded(ResentParts(read, now), SOH);
    assert Admin(read) <==> Admin(m);
    assert WellFormedBuilder(b);
    hide *;
    ShortSendable(b, ResentParts(read, now));
    ProcessResent(c, b, read, n, now, expected);
    PeerIs(c);
    TakeAsSent(Peer(c), expected, ResentParts(read, now));
    ReceivedResend(expected, n);
    ResentContent(c, m, now);
  }

  // ----- what the peer receives -----

  const RESTAMPED: set<Tag> := {BODY_LENGTH, SENDING_TIME, POSS_DUP_FLAG, ORIG_SENDING_TIME}

  /** `r` is `m` sent again: the same body and trailer, the header restamped and otherwise
      the same. */
  ghost predicate Carries(r: Parts, m: Parts, now: Moment) {
    && r.body == Aligned(m.body)
    && RemoveTag(r.trailer.fields, CHECK_SUM) == RemoveTag(m.trailer.fields, CHECK_SUM)
    && GetTime(r.header.fields, SENDING_TIME) == Some(now)
    && GetBool(r.header.fields, POSS_DUP_FLAG) == Some(true)
    && GetTime(r.header.fields, ORIG_SENDING_TIME) == OriginalTime(m.header)
    && forall t: Tag :: t !in RESTAMPED ==> GetRaw(r.header.fields, t) == GetRaw(m.header.fields, t)
  }

  /** Building a resent byte string gives the message that was first sent, marked as a possible
      duplicate. */
  lemma {:induction false} ResentContent(c: Context, m: Parts, now: Moment)
    requires Ready(c) && Sendable(c.builder, m) && HasTag(m.header.fields, SENDING_TIME) && OriginalTime(m.header).Some?
    requires Short(ResentBytes(c, AsRead(m, SOH), now))
    ensures var r := Build(c.builder, ResentBytes(c, AsRead(m, SOH), now)); r.Valid? && Carries(r.message, m, now)
  {
    hide *;
    ReadyFacts(c);
    var b, read := c.builder, AsRead(m, SOH);
    var again := ResentParts(read, now);
    ResentForm(read, now);
    ResentIs(c, read, now);
    ResentDescribable(b, m, now);
    ShortSendable(b, again);
    EncodeThenBuild(b, again);
    AsReadSame(b, m);
    AsReadSame(b, again);
    BodyTwice(b, m, again);
    TrailerTwice(b, m, again);
    HeaderTwice(b, m, now, AsRead(again, SOH).header.fields);
    CarriesFrom(AsRead(again, SOH), m, now);
  }

  lemma ResentIs(c: Context, m: Parts, now: Moment)
    ensures ResentBytes(c, m, now) == Encoded(ResentParts(m, now), c.builder.config.separator)
  {
    hide Encoded;
  }

  lemma {:induction false} BodyTwice(b: MessageBuilder, m: Parts, again: Parts)
    requires WellFormedBuilder(b) && Sendable(b, m) && again.body == AsRead(m, SOH).body
    ensures AsRead(again, SOH).body == Aligned(m.body)
  {
    var l := b.messages[FieldOf(m.header.fields, MSG_TYPE).data];
    assert WellFormed(l);
    hide *;
    BodyShape(b, m, l);
    AsReadForm(m, SOH);
    AsReadForm(again, SOH);
    AlignedAgain(l, m.body);
  }

  lemma {:induction false} TrailerTwice(b: MessageBuilder, m: Parts, again: Parts)
    requires WellFormedBuilder(b) && Sendable(b, m) && again.trailer == AsRead(m, SOH).trailer
    ensures RemoveTag(AsRead(again, SOH).trailer.fields, CHECK_SUM) == RemoveTag(m.trailer.fields, CHECK_SUM)
  {
    assert Fields.Valid(m.trailer) && m.trailer.groups == [];
    hide *;
    AsReadTrailer(m, SOH);
    AsReadTrailer(again, SOH);
  }

  lemma {:induction false} HeaderTwice(b: MessageBuilder, m: Parts, now: Moment, fields: seq<Field>)
    requires WellFormedBuilder(b) && GoodHeader(b, AsRead(m, SOH).header)
             && SameHeader(AsRead(m, SOH).header.fields, m.header.fields)
    requires HasTag(m.header.fields, SENDING_TIME) && OriginalTime(m.header).Some?
    requires SameHeader(fields, ResentHeader(AsRead(m, SOH).header, now).fields)
    ensures GetTime(fields, SENDING_TIME) == Some(now) && GetBool(fields, POSS_DUP_FLAG) == Some(true)
    ensures GetTime(fields, ORIG_SENDING_TIME) == OriginalTime(m.header)
    ensures forall t: Tag :: t !in RESTAMPED ==> GetRaw(fields, t) == GetRaw(m.header.fields, t)
  {
    var header := AsRead(m, SOH).header;
    var h := ResentHeader(header, now).fields;
    assert UniqueTags(header.fields);
    SameTimes(header, m.header);
    ResentLookup(header, now, MSG_TYPE);
    SameAt(fields, h, SENDING_TIME);
    SameAt(fields, h, POSS_DUP_FLAG);
    SameAt(fields, h, ORIG_SENDING_TIME);
    hide ResentHeader, AsRead, GetRaw, SameHeader, UniqueTags, ParseTime, OriginalTime, Resendable;
    forall t: Tag | t !in RESTAMPED ensures GetRaw(fields, t) == GetRaw(m.header.fields, t) {
      ResentKeeps(b, header, now, t);
      SameAt(fields, h, t);
      SameAt(header.fields, m.header.fields, t);
    }
  }

  lemma CarriesFrom(r: Parts, m: Parts, now: Moment)
    requires r.body == Aligned(m.body)
    requires RemoveTag(r.trailer.fields, CHECK_SUM) == RemoveTag(m.trailer.fields, CHECK_SUM)
    requires GetTime(r.header.fields, SENDING_TIME) == Some(now)
             && GetBool(r.header.fields, POSS_DUP_FLAG) == Some(true)
    requires GetTime(r.header.fields, ORIG_SENDING_TIME) == OriginalTime(m.header)
    requires forall t: Tag :: t !in RESTAMPED ==> GetRaw(r.header.fields, t) == GetRaw(m.header.fields, t)
    ensures Carries(r, m, now)
  {
    hide RemoveTag, GetTime, GetBool, GetRaw, OriginalTime, Aligned;
  }

  lemma PeerIs(c: Context)
    ensures Peer(c).builder == c.builder && Peer(c).session == Mirror(c.session) && Peer(c).accurate == c.accurate
    ensures ReceiverOf(Peer(c)) == Receiver(Mirror(c.session), c.accurate)
  {}

  lemma SameAdmin(c: Context, x: seq<Field>, y: seq<Field>)
    requires SameHeader(x, y)
    ensures GetRaw(x, MSG_TYPE) == GetRaw(y, MSG_TYPE) && (HasTag(x, MSG_TYPE) <==> HasTag(y, MSG_TYPE))
    ensures GetNumber(x, MSG_SEQ_NUM) == GetNumber(y, MSG_SEQ_NUM)
    ensures CheckParties(x, Mirror(c.session)) == CheckParties(y, Mirror(c.session))
  {
    SameAt(x, y, MSG_TYPE);
    SameAt(x, y, MSG_SEQ_NUM);
    SameAt(x, y, BEGIN_STRING);
    SameAt(x, y, SENDER_COMP_ID);
    SameAt(x, y, TARGET_COMP_ID);
    hide GetRaw, SameHeader;
  }

  // ----- a gap fill -----

  lemma {:induction false} GapFillHeader(s: Session, begin: nat, newSeqNo: nat, now: Moment)
    ensures var fields := GapFillParts(s, begin, newSeqNo, now).header.fields;
            UniqueTags(fields) && fields
              == StampedHeader(s, begin, now, SEQUENCE_RESET) + GapFillPayload(newSeqNo, now).header
  {
    var stamped, more := StampedHeader(s, begin, now, SEQUENCE_RESET), GapFillPayload(newSeqNo, now).header;
    assert UniqueTags(stamped + more) by {
      hide Print, PrintTime;
    }
    hide StampedHeader, UniqueTags;
    InsertAllDistinct(stamped, more);
  }

  lemma DigitsClean(n: nat)
    ensures SOH !in Print(n)
  {
    assert forall i :: 0 <= i < |Print(n)| ==> IsDigit(Print(n)[i]);
  }

  lemma {:induction false} GapFillGood(c: Context, begin: nat, newSeqNo: nat, now: Moment)
    requires Ready(c)
    ensures GoodHeader(c.builder, GapFillParts(c.session, begin, newSeqNo, now).header)
  {
    var b, s := c.builder, c.session;
    var header := GapFillParts(s, begin, newSeqNo, now).header;
    GapFillHeader(s, begin, newSeqNo, now);
    CarriedTime(b, SENDING_TIME, now);
    CarriedTime(b, ORIG_SENDING_TIME, now);
    DigitsClean(begin);
    assert header.groups == [];
    assert SESSION_TAGS <= b.headerTags && b.config.separator == SOH;
    hide Print, PrintTime, GapFillParts, KnowsSession;
    assert Carried(b, Field(POSS_DUP_FLAG, YES)) && Carried(b, Field(MSG_SEQ_NUM, Print(begin)));
    assert Carried(b, Field(BEGIN_STRING, s.beginString)) && Carried(b, Field(MSG_TYPE, SEQUENCE_RESET));
    assert Carried(b, Field(SENDER_COMP_ID, s.senderCompId)) && Carried(b, Field(TARGET_COMP_ID, s.targetCompId));
    hide Carried, UniqueTags;
  }

  function GapFillBody(newSeqNo: nat): FieldMap {
    FieldMap([Field(GAP_FILL_FLAG, YES), Field(NEW_SEQ_NO, Print(newSeqNo))], [])
  }

  lemma {:induction false} GapFillBodySendable(b: MessageBuilder, l: Layout, newSeqNo: nat)
    requires KnowsSession(b) && WellFormed(l) && l == b.messages[SEQUENCE_RESET]
    ensures SendableBody(b, l, GapFillBody(newSeqNo), []) && AllSeparable(FlatNodes(Nodes(GapFillBody(newSeqNo))), SOH)
  {
    var body := GapFillBody(newSeqNo);
    DigitsClean(newSeqNo);
    FlatPlain(body);
    assert RunsOrphans([], body.fields) == 0;
    assert Labelled(l, body);
    var nodes := Nodes(body);
    assert nodes == [Node(body.fields[0], []), Node(body.fields[1], [])];
    hide Print, Nodes, Labelled, MapOrphans;
    forall i | 0 <= i < |nodes| ensures BodyNodeConforms(b, l, nodes[i], NextTag(nodes, i, CHECK_SUM)) {}
    assert PrefixConforms(b, l, nodes, CHECK_SUM);
  }

  lemma {:induction false} GapFillDescribable(c: Context, begin: nat, newSeqNo: nat, now: Moment)
    requires Ready(c)
    ensures Describable(c.builder, GapFillParts(c.session, begin, newSeqNo, now))
  {
    hide *;
    var b, m := c.builder, GapFillParts(c.session, begin, newSeqNo, now);
    ReadyFacts(c);
    GapFillParties(c.session, begin, newSeqNo, now);
    GapFillGood(c, begin, newSeqNo, now);
    GoodSendable(b, m.header);
    GapFillBodySendable(b, b.messages[SEQUENCE_RESET], newSeqNo);
    DescribableFrom(b, m, SEQUENCE_RESET);
  }

  lemma ReadyFacts(c: Context)
    requires Ready(c)
    ensures WellFormedBuilder(c.builder) && KnowsSession(c.builder) && c.builder.config.separator == SOH
    ensures SEQUENCE_RESET in c.builder.messages && WellFormed(c.builder.messages[SEQUENCE_RESET])
  {
    hide Declares, GroupFor, Absorbs;
  }

  lemma {:induction false} GapFillParties(s: Session, begin: nat, newSeqNo: nat, now: Moment)
    ensures var m := GapFillParts(s, begin, newSeqNo, now);
            && HasTag(m.header.fields, BEGIN_STRING) && HasTag(m.header.fields, MSG_TYPE)
            && FieldOf(m.header.fields, MSG_TYPE).data == SEQUENCE_RESET
            && m.body == GapFillBody(newSeqNo) && m.trailer == EMPTY
  {
    hide UniqueTags, InsertAll, Print, PrintTime;
    var fields := GapFillParts(s, begin, newSeqNo, now).header.fields;
    GapFillHeader(s, begin, newSeqNo, now);
    LookupMember(fields, Field(BEGIN_STRING, s.beginString));
    LookupMember(fields, Field(MSG_TYPE, SEQUENCE_RESET));
  }

  /** A message without a trailer of its own. */
  lemma DescribableFrom(b: MessageBuilder, m: Parts, messageType: seq<byte>)
    requires WellFormedBuilder(b) && b.config.separator == SOH && messageType in b.messages
    requires SendableHeader(b, m.header) && AllSeparable(Unpicked(m.header.fields, [BODY_LENGTH]), SOH)
    requires FieldOf(m.header.fields, MSG_TYPE).data == messageType
    requires SendableBody(b, b.messages[messageType], m.body, []) && AllSeparable(FlatNodes(Nodes(m.body)), SOH)
    requires m.trailer == EMPTY
    ensures Describable(b, m)
  {
    assert RemoveTag(EMPTY.fields, CHECK_SUM) == [];
    hide SendableBody, SendableHeader, FlatNodes, Nodes, Unpicked;
  }

  /** What a receiver finds in a stamped header. */
  lemma {:induction false} StampedFacts(s: Session, n: nat, now: Moment, messageType: seq<byte>, fields: seq<Field>)
    requires n < U64_LIMIT && UniqueTags(fields)
    requires forall f :: f in StampedHeader(s, n, now, messageType) ==> f in fields
    ensures GetRaw(fields, MSG_TYPE) == Some(messageType)
    ensures CheckParties(fields, Mirror(s)).None?
    ensures GetNumber(fields, MSG_SEQ_NUM) == Some(n) && GetTime(fields, SENDING_TIME) == Some(now)
  {
    TimeRoundTrip(now);
    ParsePrinted(n, 0, U64_LIMIT);
    StampedLookups(s, n, now, messageType, fields);
    hide Print, PrintTime, ParseTime, ParseUnsigned, UniqueTags, GetRaw, HasTag, StampedHeader;
  }

  lemma {:induction false} StampedLookups(s: Session, n: nat, now: Moment, messageType: seq<byte>, fields: seq<Field>)
    requires UniqueTags(fields) && forall f :: f in StampedHeader(s, n, now, messageType) ==> f in fields
    ensures GetRaw(fields, BEGIN_STRING) == Some(s.beginString) && GetRaw(fields, MSG_TYPE) == Some(messageType)
    ensures GetRaw(fields, SENDER_COMP_ID) == Some(s.senderCompId)
            && GetRaw(fields, TARGET_COMP_ID) == Some(s.targetCompId)
    ensures GetRaw(fields, MSG_SEQ_NUM) == Some(Print(n)) && GetRaw(fields, SENDING_TIME) == Some(PrintTime(now))
  {
    hide Print, PrintTime, UniqueTags, GetRaw, HasTag;
    var stamped := StampedHeader(s, n, now, messageType);
    assert stamped[0] == Field(BEGIN_STRING, s.beginString) && stamped[1] == Field(MSG_TYPE, messageType);
    assert stamped[2] == Field(SENDER_COMP_ID, s.senderCompId) && stamped[3] == Field(TARGET_COMP_ID, s.targetCompId);
    assert stamped[4] == Field(MSG_SEQ_NUM, Print(n)) && stamped[5] == Field(SENDING_TIME, PrintTime(now));
    hide StampedHeader;
    LookupMember(fields, stamped[0]);
    LookupMember(fields, stamped[1]);
    LookupMember(fields, stamped[2]);
    LookupMember(fields, stamped[3]);
    LookupMember(fields, stamped[4]);
    LookupMember(fields, stamped[5]);
  }

  lemma {:induction false} GapFillNumber(s: Session, begin: nat, newSeqNo: nat, now: Moment)
    requires newSeqNo < U64_LIMIT
    ensures GetNumber(GapFillParts(s, begin, newSeqNo, now).body.fields, NEW_SEQ_NO) == Some(newSeqNo)
  {
    var body := GapFillBody(newSeqNo).fields;
    assert UniqueTags(body) && body[1] == Field(NEW_SEQ_NO, Print(newSeqNo));
    LookupMember(body, Field(NEW_SEQ_NO, Print(newSeqNo)));
    ParsePrinted(newSeqNo, 0, U64_LIMIT);
    hide Print, ParseUnsigned, GetRaw, InsertAll, StampedHeader;
  }

  /** A gap fill is received as what it announces. */
  lemma {:induction false} ProcessGapFill(c: Context, begin: nat, newSeqNo: nat, now: Moment, expected: nat)
    requires begin < U64_LIMIT && newSeqNo < U64_LIMIT && c.accurate(now)
    ensures Process(ReceiverOf(Peer(c)), expected, GapFillParts(c.session, begin, newSeqNo, now))
            == Receive(expected, GapFill(begin, newSeqNo))
  {
    var s := c.session;
    var m := GapFillParts(s, begin, newSeqNo, now);
    GapFillNumber(s, begin, newSeqNo, now);
    assert OnSequenceReset(expected, m) == if newSeqNo <= expected then (ResetRefused, expected)
      else (Accepted, newSeqNo);
    hide GapFillParts, StampedHeader, GapFillPayload, UniqueTags, GetRaw, CheckParties, GetNumber, FlagsFor,
      OnSequenceReset, Process, Print, PrintTime;
    GapFillHeader(s, begin, newSeqNo, now);
    GapFillFlags(s, begin, newSeqNo, now);
    StampedFacts(s, begin, now, SEQUENCE_RESET, m.header.fields);
    assert CheckTimes(m.header.fields, false, c.accurate).None?;
    PeerIs(c);
    ProcessFrom(ReceiverOf(Peer(c)), expected, m, SEQUENCE_RESET, begin, Flags(true, true, false));
  }

  /** `r` fills the gap from `begin` up to `newSeqNo`, as a possible duplicate of itself. */
  ghost predicate Announces(r: Parts, begin: nat, newSeqNo: nat, now: Moment) {
    && GetRaw(r.header.fields, MSG_TYPE) == Some(SEQUENCE_RESET)
    && GetNumber(r.header.fields, MSG_SEQ_NUM) == Some(begin)
    && GetBool(r.body.fields, GAP_FILL_FLAG) == Some(true)
    && GetNumber(r.body.fields, NEW_SEQ_NO) == Some(newSeqNo)
    && GetBool(r.header.fields, POSS_DUP_FLAG) == Some(true)
    && GetTime(r.header.fields, SENDING_TIME) == Some(now)
    && GetTime(r.header.fields, ORIG_SENDING_TIME) == Some(now)
  }

  lemma {:induction false} GapFillContent(c: Context, begin: nat, newSeqNo: nat, now: Moment)
    requires Ready(c) && begin < U64_LIMIT && newSeqNo < U64_LIMIT && Short(GapFillBytes(c, begin, newSeqNo, now))
    ensures var r := Build(c.builder, GapFillBytes(c, begin, newSeqNo, now));
            r.Valid? && Announces(r.message, begin, newSeqNo, now)
  {
    hide *;
    ReadyFacts(c);
    var b, m := c.builder, GapFillParts(c.session, begin, newSeqNo, now);
    GapFillIs(c, begin, newSeqNo, now);
    GapFillDescribable(c, begin, newSeqNo, now);
    ShortSendable(b, m);
    EncodeThenBuild(b, m);
    AsReadSame(b, m);
    GapFillAnnounces(c.session, begin, newSeqNo, now, AsRead(m, SOH));
  }

  lemma GapFillIs(c: Context, begin: nat, newSeqNo: nat, now: Moment)
    ensures GapFillBytes(c, begin, newSeqNo, now) == Encoded(GapFillParts(c.session, begin, newSeqNo, now), SOH)
  {
    hide Encoded, GapFillParts;
  }

  lemma {:induction false} GapFillAnnounces(s: Session, begin: nat, newSeqNo: nat, now: Moment, r: Parts)
    requires begin < U64_LIMIT && newSeqNo < U64_LIMIT
    requires var m := GapFillParts(s, begin, newSeqNo, now);
             SameHeader(r.header.fields, m.header.fields) && r.body.fields == m.body.fields
    ensures Announces(r, begin, newSeqNo, now)
  {
    var m := GapFillParts(s, begin, newSeqNo, now);
    GapFillFlags(s, begin, newSeqNo, now);
    assert GetBool(m.body.fields, GAP_FILL_FLAG) == Some(true);
    hide GapFillParts, StampedHeader, GapFillPayload, UniqueTags, GetRaw, CheckParties, ParseUnsigned, SameHeader,
      Print, PrintTime;
    GapFillNumber(s, begin, newSeqNo, now);
    GapFillHeader(s, begin, newSeqNo, now);
    StampedFacts(s, begin, now, SEQUENCE_RESET, m.header.fields);
    SameAt(r.header.fields, m.header.fields, MSG_TYPE);
    SameAt(r.header.fields, m.header.fields, MSG_SEQ_NUM);
    SameAt(r.header.fields, m.header.fields, SENDING_TIME);
    SameAt(r.header.fields, m.header.fields, POSS_DUP_FLAG);
    SameAt(r.header.fields, m.header.fields, ORIG_SENDING_TIME);
    GapFillMarks(s, begin, newSeqNo, now);
  }

  lemma {:induction false} GapFillMarks(s: Session, begin: nat, newSeqNo: nat, now: Moment)
    ensures var h := GapFillParts(s, begin, newSeqNo, now).header.fields;
            GetBool(h, POSS_DUP_FLAG) == Some(true) && GetTime(h, ORIG_SENDING_TIME) == Some(now)
  {
    GapFillHeader(s, begin, newSeqNo, now);
    TimeRoundTrip(now);
    hide GapFillParts, StampedHeader, UniqueTags, GetRaw, PrintTime, ParseTime, Print;
    var h, more := GapFillParts(s, begin, newSeqNo, now).header.fields, GapFillPayload(newSeqNo, now).header;
    assert more[0] == Field(ORIG_SENDING_TIME, PrintTime(now)) && more[1] == Field(POSS_DUP_FLAG, YES);
    LookupMember(h, more[0]);
    LookupMember(h, more[1]);
  }

  lemma {:induction false} TakeGapFill(c: Context, begin: nat, newSeqNo: nat, now: Moment, expected: nat)
    requires Ready(c) && c.accurate(now) && begin < U64_LIMIT && newSeqNo < U64_LIMIT
    requires Short(GapFillBytes(c, begin, newSeqNo, now))
    ensures Take(Peer(c), expected, GapFillBytes(c, begin, newSeqNo, now))
            == Receive(expected, GapFill(begin, newSeqNo))
  {
    var m := GapFillParts(c.session, begin, newSeqNo, now);
    assert c.builder.config.separator == SOH && WellFormedBuilder(c.builder);
    assert GapFillBytes(c, begin, newSeqNo, now) == Encoded(m, SOH);
    hide *;
    GapFillDescribable(c, begin, newSeqNo, now);
    ShortSendable(c.builder, m);
    ProcessGapFill(c, begin, newSeqNo, now, expected);
    PeerIs(c);
    TakeAsSent(Peer(c), expected, m);
  }
}

/** The whole answer, from the stored bytes to the peer's verdict. */
module ReplayAccepted {
  import opened Decimal
  import opened Wire
  import opened Fields
  import opened Layouts
  import opened Messages
  import opened Reading
  import opened RoundTrip
  import opened Timestamps
  import opened Outbound
  import opened Verification
  import opened Resending
  import opened Replay
  import opened ReplayBytes
  import opened ReplayWire

  function AsReadAll(ms: seq<Parts>): (msgs: seq<Parts>)
    ensures |msgs| == |ms|
  {
    seq(|ms|, i requires 0 <= i < |ms| => AsRead(ms[i], SOH))
  }

  /** Storable messages under consecutive numbers, to be sent by a clock the peer agrees with. */
  ghost predicate AllStorable(c: Context, ms: seq<Parts>, begin: nat, clock: nat -> Moment)
    requires WellFormedBuilder(c.builder)
  {
    && JudgedAccurate(c, clock)
    && forall i :: 0 <= i < |ms| ==> Storable(c, ms[i], begin + i, clock)
  }

  /** The peer finds what is sent by this clock accurate. */
  ghost predicate JudgedAccurate(c: Context, clock: nat -> Moment) {
    forall k :: c.accurate(clock(k))
  }

  ghost predicate AllShort(raws: seq<seq<byte>>) {
    forall i :: 0 <= i < |raws| ==> Short(raws[i])
  }

  lemma {:induction false} ReadEncoded(c: Context, m: Parts, n: nat, clock: nat -> Moment)
    requires Ready(c) && Storable(c, m, n, clock)
    ensures ReadStored(c, Encoded(m, SOH)) == Ok(Stored(AsRead(m, SOH), n))
    ensures Admin(AsRead(m, SOH)) <==> Admin(m)
  {
    assert c.builder.config.separator == SOH;
    hide Build, Sendable, Encoded, AsRead, GetRaw, SameHeader, KnowsSession, Timely, HasTag, GetNumber, CheckParties;
    EncodeThenBuild(c.builder, m);
    AsReadSame(c.builder, m);
    SameAdmin(c, AsRead(m, SOH).header.fields, m.header.fields);
  }

  lemma {:induction false} AllRead(c: Context, ms: seq<Parts>, begin: nat, clock: nat -> Moment)
    requires Ready(c) && AllStorable(c, ms, begin, clock)
    ensures ReadsAs(c, EncodeAll(ms), AsReadAll(ms), begin) && ItemsOf(AsReadAll(ms), begin) == ItemsOf(ms, begin)
  {
    hide ReadStored, Encoded, AsRead, Admin, Storable, Contiguous;
    var raws, msgs := EncodeAll(ms), AsReadAll(ms);
    forall i | 0 <= i < |ms|
      ensures ReadStored(c, raws[i]) == Ok(Stored(msgs[i], begin + i))
              && ItemsOf(msgs, begin)[i] == ItemsOf(ms, begin)[i]
    {
      ReadEncoded(c, ms[i], begin + i, clock);
    }
  }

  // ----- event by event -----

  /** An event of the replay: what it resends is an application message of the range, what it
      fills lies inside the range. */
  ghost predicate Sound(ms: seq<Parts>, begin: nat, e: Event) {
    match e
    case Resend(n) => begin <= n < begin + |ms| && !Admin(ms[n - begin])
    case GapFill(x, y) => begin <= x < begin + |ms| && begin <= y < begin + |ms|
  }

  lemma {:induction false} WantedSound(ms: seq<Parts>, begin: nat, e: Event)
    requires Wanted(ItemsOf(ms, begin), e)
    ensures Sound(ms, begin, e)
  {
    hide Admin;
    var k, z := WantedPosition(ItemsOf(ms, begin), begin, e);
  }

  lemma StorableAt(c: Context, ms: seq<Parts>, begin: nat, clock: nat -> Moment, n: nat)
    requires Ready(c) && AllStorable(c, ms, begin, clock) && begin <= n < begin + |ms|
    ensures Storable(c, ms[n - begin], n, clock) && n < U64_LIMIT
  {
    assert Storable(c, ms[n - begin], begin + (n - begin), clock);
    hide Ready, Sendable, CheckParties, Timely;
  }

  lemma AccurateAt(c: Context, ms: seq<Parts>, begin: nat, clock: nat -> Moment, k: nat)
    requires Ready(c) && AllStorable(c, ms, begin, clock)
    ensures c.accurate(clock(k))
  {
    hide Ready, Storable;
  }

  lemma {:induction false} TakeStored(c: Context, m: Parts, n: nat, clock: nat -> Moment, k: nat, expected: nat)
    requires Ready(c) && Storable(c, m, n, clock) && !Admin(m) && Short(ResentBytes(c, AsRead(m, SOH), clock(k)))
    requires c.accurate(clock(k))
    ensures Take(Peer(c), expected, ResentBytes(c, AsRead(m, SOH), clock(k))) == Receive(expected, Resend(n))
  {
    assert Timely(m.header, clock) && AtMost(OriginalTime(m.header).value, clock(k));
    hide Ready, Sendable, Admin, Take, Receive, ResentBytes, AsRead, OriginalTime, CheckParties, GetNumber, HasTag,
      Timely, Short;
    TakeResent(c, m, n, clock(k), expected);
  }

  lemma {:induction false} TakeEvent(c: Context, ms: seq<Parts>, begin: nat, clock: nat -> Moment, e: Event, k: nat,
                                     expected: nat)
    requires Ready(c) && AllStorable(c, ms, begin, clock) && Sound(ms, begin, e)
    requires Short(EventBytes(c, AsReadAll(ms), begin, e, clock(k)))
    ensures Take(Peer(c), expected, EventBytes(c, AsReadAll(ms), begin, e, clock(k))) == Receive(expected, e)
  {
    hide Ready, AllStorable, Storable, Admin, Take, Receive, ResentBytes, GapFillBytes, AsRead, Short;
    AccurateAt(c, ms, begin, clock, k);
    match e
    case Resend(n) =>
      StorableAt(c, ms, begin, clock, n);
      TakeStored(c, ms[n - begin], n, clock, k, expected);
    case GapFill(x, y) =>
      StorableAt(c, ms, begin, clock, x);
      StorableAt(c, ms, begin, clock, y);
      TakeGapFill(c, x, y, clock(k), expected);
  }

  /** What the peer makes of the bytes is what it would make of the events they stand for. */
  lemma {:induction false} TakeEvents(c: Context, ms: seq<Parts>, begin: nat, clock: nat -> Moment, events: seq<Event>,
                                      k: nat, expected: nat)
    requires Ready(c) && AllStorable(c, ms, begin, clock)
    requires forall i :: 0 <= i < |events| ==> Sound(ms, begin, events[i])
    requires AllShort(BytesOf(c, AsReadAll(ms), begin, events, k, clock))
    ensures TakeAll(Peer(c), expected, BytesOf(c, AsReadAll(ms), begin, events, k, clock))
            == ReceiveAll(expected, events)
    decreases |events|
  {
    hide *;
    PeerReady(c);
    if events == [] {
      NothingTaken(c, AsReadAll(ms), begin, k, clock, expected);
    } else {
      var e, later, msgs := events[0], events[1..], AsReadAll(ms);
      BytesHead(c, msgs, begin, events, k, clock);
      TakeEvent(c, ms, begin, clock, e, k, expected);
      TakeEvents(c, ms, begin, clock, later, k + 1, Receive(expected, e).1);
      Prepend(c, expected, EventBytes(c, msgs, begin, e, clock(k)), e, BytesOf(c, msgs, begin, later, k + 1, clock),
        later);
    }
  }

  lemma PeerReady(c: Context)
    requires Ready(c)
    ensures WellFormedBuilder(c.builder) && WellFormedBuilder(Peer(c).builder)
  {}

  lemma NothingTaken(c: Context, msgs: seq<Parts>, begin: nat, k: nat, clock: nat -> Moment, expected: nat)
    requires WellFormedBuilder(Peer(c).builder)
    ensures TakeAll(Peer(c), expected, BytesOf(c, msgs, begin, [], k, clock)) == ReceiveAll(expected, [])
  {}

  lemma BytesHead(c: Context, msgs: seq<Parts>, begin: nat, events: seq<Event>, k: nat, clock: nat -> Moment)
    requires events != [] && AllShort(BytesOf(c, msgs, begin, events, k, clock))
    ensures var e, later := events[0], events[1..];
            var raw, rest := EventBytes(c, msgs, begin, e, clock(k)), BytesOf(c, msgs, begin, later, k + 1, clock);
            && events == [e] + later && BytesOf(c, msgs, begin, events, k, clock) == [raw] + rest
            && Short(raw) && AllShort(rest)
  {
    hide *;
    BytesOfCons(c, msgs, begin, events[0], events[1..], k, clock);
    assert events == [events[0]] + events[1..];
    ShortHead(EventBytes(c, msgs, begin, events[0], clock(k)), BytesOf(c, msgs, begin, events[1..], k + 1, clock));
  }

  lemma ShortHead(raw: seq<byte>, rest: seq<seq<byte>>)
    requires AllShort([raw] + rest)
    ensures Short(raw) && AllShort(rest)
  {
    hide Short;
    var all := [raw] + rest;
    assert Short(all[0]);
    assert forall i :: 0 <= i < |rest| ==> rest[i] == all[i + 1];
  }

  /** One message in front on both sides. */
  lemma {:induction false} Prepend(c: Context, expected: nat, raw: seq<byte>, e: Event, raws: seq<seq<byte>>,
                                   events: seq<Event>)
    requires WellFormedBuilder(Peer(c).builder) && Take(Peer(c), expected, raw) == Receive(expected, e)
    requires var next := Receive(expected, e).1; TakeAll(Peer(c), next, raws) == ReceiveAll(next, events)
    ensures TakeAll(Peer(c), expected, [raw] + raws) == ReceiveAll(expected, [e] + events)
  {
    hide Take, Receive, WellFormedBuilder, Peer;
    assert ([raw] + raws)[1..] == raws && ([e] + events)[1..] == events;
  }

  /** The bytes of an event bring the peer what the event stands for: an application message as
      it was first sent, or the announced gap. */
  ghost predicate Delivers(c: Context, ms: seq<Parts>, begin: nat, e: Event, raw: seq<byte>, now: Moment)
    requires WellFormedBuilder(c.builder)
  {
    var r := Build(c.builder, raw);
    && r.Valid?
    && match e
       case Resend(n) => begin <= n < begin + |ms| && Carries(r.message, ms[n - begin], now)
       case GapFill(x, y) => Announces(r.message, x, y, now)
  }

  lemma {:induction false} StoredContent(c: Context, m: Parts, n: nat, clock: nat -> Moment, k: nat)
    requires Ready(c) && Storable(c, m, n, clock) && !Admin(m) && Short(ResentBytes(c, AsRead(m, SOH), clock(k)))
    ensures var r := Build(c.builder, ResentBytes(c, AsRead(m, SOH), clock(k)));
            r.Valid? && Carries(r.message, m, clock(k))
  {
    hide Ready, Sendable, Admin, Build, ResentBytes, AsRead, OriginalTime, CheckParties, GetNumber, HasTag, AtMost,
      Short, Carries;
    assert Timely(m.header, clock);
    ResentContent(c, m, clock(k));
  }

  lemma {:induction false} EventDelivers(c: Context, ms: seq<Parts>, begin: nat, clock: nat -> Moment, e: Event, k: nat)
    requires Ready(c) && AllStorable(c, ms, begin, clock) && Sound(ms, begin, e)
    requires Short(EventBytes(c, AsReadAll(ms), begin, e, clock(k)))
    ensures Delivers(c, ms, begin, e, EventBytes(c, AsReadAll(ms), begin, e, clock(k)), clock(k))
  {
    hide Ready, AllStorable, Storable, Admin, Build, ResentBytes, GapFillBytes, AsRead, Short, Carries, Announces;
    match e
    case Resend(n) =>
      StorableAt(c, ms, begin, clock, n);
      StoredContent(c, ms[n - begin], n, clock, k);
    case GapFill(x, y) =>
      StorableAt(c, ms, begin, clock, x);
      StorableAt(c, ms, begin, clock, y);
      GapFillContent(c, x, y, clock(k));
  }

  lemma {:induction false} AllDelivered(c: Context, ms: seq<Parts>, begin: nat, clock: nat -> Moment,
                                        events: seq<Event>, sent: seq<seq<byte>>)
    requires Ready(c) && AllStorable(c, ms, begin, clock)
    requires forall i :: 0 <= i < |events| ==> Sound(ms, begin, events[i])
    requires sent == BytesOf(c, AsReadAll(ms), begin, events, 0, clock) && AllShort(sent)
    ensures |sent| == |events|
    ensures forall j :: 0 <= j < |events| ==> Delivers(c, ms, begin, events[j], sent[j], clock(j))
  {
    hide Ready, AllStorable, Sound, BytesOf, EventBytes, Short, Delivers, AsReadAll;
    PeerReady(c);
    if events == [] {
      BytesOfNone(c, AsReadAll(ms), begin, clock);
    } else {
      BytesAt(c, AsReadAll(ms), begin, events, 0, clock, 0);
    }
    forall j | 0 <= j < |events| ensures Delivers(c, ms, begin, events[j], sent[j], clock(j)) {
      BytesAt(c, AsReadAll(ms), begin, events, 0, clock, j);
      EventDelivers(c, ms, begin, clock, events[j], j);
    }
  }

  lemma BytesOfNone(c: Context, msgs: seq<Parts>, begin: nat, clock: nat -> Moment)
    ensures BytesOf(c, msgs, begin, [], 0, clock) == []
  {}

  /** The answer to a resend request for any contiguous range of stored messages is sent
      without failure, one byte string per event of the replay, and brings the peer every
      application message as it was first sent. A peer expecting the first number reads every
      byte string, finds no sequence gap, no too-low number and no issue with parties or times,
      and ends where `FinalExpected` says; its handler turns a gap fill down only for a lone
      trailing administrative message. */
  lemma {:induction false} ReplayOnTheWire(c: Context, ms: seq<Parts>, begin: nat, clock: nat -> Moment)
    requires Ready(c) && AllStorable(c, ms, begin, clock)
    requires AllShort(AnswerFrom(c, EncodeAll(ms), None, 0, 0, clock).sent)
    ensures var answer := AnswerFrom(c, EncodeAll(ms), None, 0, 0, clock);
            var (rs, last) := TakeAll(Peer(c), begin, answer.sent);
            && answer.failure.None?
            && NoIssue(rs) && last == FinalExpected(ItemsOf(ms, begin), begin)
            && (ResetRefused in rs <==> LoneLast(ItemsOf(ms, begin)))
    ensures var sent, events := AnswerFrom(c, EncodeAll(ms), None, 0, 0, clock).sent, ReplayAll(ItemsOf(ms, begin));
            && |sent| == |events|
            && forall j :: 0 <= j < |events| ==> Delivers(c, ms, begin, events[j], sent[j], clock(j))
  {
    hide *;
    PeerReady(c);
    var items := ItemsOf(ms, begin);
    var events := ReplayAll(items);
    AllRead(c, ms, begin, clock);
    AnswerIsReplay(c, EncodeAll(ms), AsReadAll(ms), begin, clock);
    ReplayExact(items, begin);
    forall i | 0 <= i < |events| ensures Sound(ms, begin, events[i]) {
      assert events[i] in events;
      WantedSound(ms, begin, events[i]);
    }
    TakeEvents(c, ms, begin, clock, events, 0, begin);
    AllDelivered(c, ms, begin, clock, events, AnswerFrom(c, EncodeAll(ms), None, 0, 0, clock).sent);
    PeerAccepts(items, begin);
  }

  // ----- what an answer consists of -----

  /** No byte string of an answer is a Logon, Heartbeat, TestRequest, ResendRequest, Reject or
      Logout, and every stored message that is none of these and no SequenceReset is sent again. */
  lemma {:induction false} AnswerKinds(c: Context, ms: seq<Parts>, begin: nat, clock: nat -> Moment)
    requires Ready(c) && AllStorable(c, ms, begin, clock)
    requires AllShort(AnswerFrom(c, EncodeAll(ms), None, 0, 0, clock).sent)
    ensures var sent := AnswerFrom(c, EncodeAll(ms), None, 0, 0, clock).sent;
            && (forall j :: 0 <= j < |sent| ==>
                  && Build(c.builder, sent[j]).Valid?
                  && GetOr(Build(c.builder, sent[j]).message.header.fields, MSG_TYPE)
                     !in [[65], [48], [49], [50], [51], [53]])
            && (forall i :: 0 <= i < |ms|
                            && GetOr(ms[i].header.fields, MSG_TYPE) !in [[65], [48], [49], [50], [51], [52], [53]] ==>
                  exists j :: 0 <= j < |sent| && Build(c.builder, sent[j]).Valid?
                              && Carries(Build(c.builder, sent[j]).message, ms[i], clock(j)))
  {
    hide *;
    PeerReady(c);
    var sent, items := AnswerFrom(c, EncodeAll(ms), None, 0, 0, clock).sent, ItemsOf(ms, begin);
    var events := ReplayAll(items);
    ReplayOnTheWire(c, ms, begin, clock);
    ReplayExact(items, begin);
    forall j | 0 <= j < |sent|
      ensures Build(c.builder, sent[j]).Valid?
      ensures GetOr(Build(c.builder, sent[j]).message.header.fields, MSG_TYPE) !in [[65], [48], [49], [50], [51], [53]]
    {
      assert events[j] in events;
      WantedSound(ms, begin, events[j]);
      DeliveredKind(c, ms, begin, events[j], sent[j], clock(j));
    }
    forall i | 0 <= i < |ms| && GetOr(ms[i].header.fields, MSG_TYPE) !in [[65], [48], [49], [50], [51], [52], [53]]
      ensures exists j :: 0 <= j < |sent| && Build(c.builder, sent[j]).Valid?
                          && Carries(Build(c.builder, sent[j]).message, ms[i], clock(j))
    {
      ApplicationWanted(ms, begin, i);
      var j :| 0 <= j < |events| && events[j] == Resend(begin + i);
      ResendDelivers(c, ms, begin, i, sent[j], clock(j));
    }
  }

  lemma ApplicationWanted(ms: seq<Parts>, begin: nat, i: nat)
    requires i < |ms| && GetOr(ms[i].header.fields, MSG_TYPE) !in [[65], [48], [49], [50], [51], [52], [53]]
    ensures Wanted(ItemsOf(ms, begin), Resend(begin + i))
  {
    assert !Admin(ms[i]);
    hide Admin;
    var items := ItemsOf(ms, begin);
    assert !items[i].admin && items[i].number == begin + i;
  }

  lemma ResendDelivers(c: Context, ms: seq<Parts>, begin: nat, i: nat, raw: seq<byte>, now: Moment)
    requires WellFormedBuilder(c.builder) && i < |ms| && Delivers(c, ms, begin, Resend(begin + i), raw, now)
    ensures Build(c.builder, raw).Valid? && Carries(Build(c.builder, raw).message, ms[i], now)
  {
    hide Build, Carries;
  }

  lemma {:induction false} DeliveredKind(c: Context, ms: seq<Parts>, begin: nat, e: Event, raw: seq<byte>, now: Moment)
    requires WellFormedBuilder(c.builder) && Sound(ms, begin, e) && Delivers(c, ms, begin, e, raw, now)
    ensures Build(c.builder, raw).Valid?
    ensures GetOr(Build(c.builder, raw).message.header.fields, MSG_TYPE) !in [[65], [48], [49], [50], [51], [53]]
  {
    hide Build, RemoveTag, ParseTime, ParseUnsigned;
    match e
    case Resend(n) =>
      var r, m := Build(c.builder, raw).message, ms[n - begin];
      assert MSG_TYPE !in RESTAMPED;
      assert GetRaw(r.header.fields, MSG_TYPE) == GetRaw(m.header.fields, MSG_TYPE);
      NotAdminType(m);
    case GapFill(_, _) =>
  }

  lemma NotAdminType(m: Parts)
    requires !Admin(m)
    ensures GetOr(m.header.fields, MSG_TYPE) !in [[65], [48], [49], [50], [51], [53]]
  {}
}
