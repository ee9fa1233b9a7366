/** The checks an inbound message goes through before it is processed. */
module Verification {
  import opened Decimal
  import opened Fields
  import opened Messages
  import opened Timestamps
  import opened Outbound

  datatype Issue =
    | SequenceGap(expected: nat, actual: nat)
    | SeqNumberTooLow(expected: nat, actual: nat)
    | IncorrectBeginString
    | IncorrectCompId
    | SendingTimeMissing
    | SendingTimeAccuracyIssue
    | OriginalSendingTimeMissing
    | OriginalSendingTimeAfterSendingTime

  /** Who receives, and which sending times its clock finds within two minutes on arrival. */
  datatype Receiver = Receiver(session: Session, accurate: Timestamp -> bool)

  datatype Flags = Flags(checkTooHigh: bool, checkTooLow: bool, checkOrigSendingTime: bool)

  /** `VerificationFlags::for_message`. */
  function FlagsFor(messageType: seq<byte>, m: Parts): Flags {
    var possibleDuplicate := GetBool(m.header.fields, POSS_DUP_FLAG) == Some(true);
    if messageType == RESEND_REQUEST || messageType == REJECT then Flags(false, true, possibleDuplicate)
    else if messageType == LOGOUT then Flags(false, false, possibleDuplicate)
    else if messageType == SEQUENCE_RESET then
      var isGapFill := GetBool(m.body.fields, GAP_FILL_FLAG) == Some(true);
      Flags(isGapFill, isGapFill, false)
    else Flags(true, true, possibleDuplicate)
  }

  /** `check_sequence_number`. */
  function CheckSequenceNumber(actual: nat, expected: nat, checkTooHigh: bool, checkTooLow: bool): Option<Issue> {
    if actual > expected && checkTooHigh then Some(SequenceGap(expected, actual))
    else if actual < expected && checkTooLow then Some(SeqNumberTooLow(expected, actual))
    else None
  }

  /** `check_original_sending_time`. */
  function CheckOriginalSendingTime(fields: seq<Field>, sendingTime: Timestamp): Option<Issue> {
    match GetTime(fields, ORIG_SENDING_TIME)
    case None => Some(OriginalSendingTimeMissing)
    case Some(original) => if AtMost(original, sendingTime) then None else Some(OriginalSendingTimeAfterSendingTime)
  }

  /** SendingTime must be there and accurate, and must not precede OrigSendingTime where that is
      checked. */
  function CheckTimes(fields: seq<Field>, checkOrigSendingTime: bool, accurate: Timestamp -> bool): Option<Issue> {
    match GetTime(fields, SENDING_TIME)
    case None => Some(SendingTimeMissing)
    case Some(sendingTime) =>
      if !accurate(sendingTime) then Some(SendingTimeAccuracyIssue)
      else if checkOrigSendingTime then CheckOriginalSendingTime(fields, sendingTime)
      else None
  }

  /** `check_begin_string` and the two comp id checks, from the receiver's point of view. */
  function CheckParties(fields: seq<Field>, receiver: Session): Option<Issue> {
    if GetOr(fields, BEGIN_STRING) != receiver.beginString then Some(IncorrectBeginString)
    else if GetOr(fields, SENDER_COMP_ID) != receiver.targetCompId then Some(IncorrectCompId)
    else if GetOr(fields, TARGET_COMP_ID) != receiver.senderCompId then Some(IncorrectCompId)
    else None
  }

  function GetOr(fields: seq<Field>, tag: Tag): seq<byte> {
    match GetRaw(fields, tag) case None => [] case Some(data) => data
  }

  /** `verify_message`. */
  function VerifyMessage(m: Parts, receiver: Receiver, expected: nat, flags: Flags): Option<Issue> {
    var parties := CheckParties(m.header.fields, receiver.session);
    if parties.Some? then parties
    else
      var times := CheckTimes(m.header.fields, flags.checkOrigSendingTime, receiver.accurate);
      if times.Some? then times
      else
        var actual := match GetNumber(m.header.fields, MSG_SEQ_NUM) case None => 0 case Some(n) => n;
        CheckSequenceNumber(actual, expected, flags.checkTooHigh, flags.checkTooLow)
  }

  /** A resent message passes the time checks exactly when it had a SendingTime, the time it
      was first sent can be read and is not in the future, and the receiver finds the new
      SendingTime accurate. */
  lemma ResentTimes(header: FieldMap, now: Moment, accurate: Timestamp -> bool)
    requires UniqueTags(header.fields)
    ensures var h := ResentHeader(header, now).fields;
            CheckTimes(h, GetBool(h, POSS_DUP_FLAG) == Some(true), accurate).None? <==>
            && accurate(now)
            && HasTag(header.fields, SENDING_TIME)
            && OriginalTime(header).Some? && AtMost(OriginalTime(header).value, now)
  {
    UnpreparedSent(header, now);
    if Resendable(header) {
      ResentLookup(header, now, MSG_TYPE);
    }
    hide ResentHeader;
  }

  /** A gap fill is held to its number in both directions, but not to its original time. */
  lemma GapFillFlags(s: Session, begin: nat, newSeqNo: nat, now: Moment)
    ensures var m := GapFillParts(s, begin, newSeqNo, now); FlagsFor(SEQUENCE_RESET, m) == Flags(true, true, false)
  {
    var m := GapFillParts(s, begin, newSeqNo, now);
    var body := m.body.fields;
    assert body[0].tag == GAP_FILL_FLAG;
    assert IndexOf(body, GAP_FILL_FLAG) == 0;
  }

  // ----- what the checks say, case by case -----

  /** Which numbers are let through: the expected one always, higher and lower ones where they
      are not checked. */
  lemma NumberChecked(actual: nat, expected: nat, checkTooHigh: bool, checkTooLow: bool)
    ensures var issue := CheckSequenceNumber(actual, expected, checkTooHigh, checkTooLow);
            && (issue.None? <==>
                actual == expected || (actual > expected && !checkTooHigh) || (actual < expected && !checkTooLow))
            && (issue == Some(SequenceGap(expected, actual)) <==> actual > expected && checkTooHigh)
            && (issue == Some(SeqNumberTooLow(expected, actual)) <==> actual < expected && checkTooLow)
  {}

  /** ResendRequest and Reject may run ahead, Logout may be anywhere, a SequenceReset is held to
      its number if it fills a gap and not if it resets; everything else is held to its number.
      Only a possible duplicate that is not a SequenceReset is asked for its original time. */
  lemma FlagsByType(messageType: seq<byte>, m: Parts)
    ensures var flags := FlagsFor(messageType, m);
            var duplicate := GetRaw(m.header.fields, POSS_DUP_FLAG) == Some([89]);
            var fills := GetRaw(m.body.fields, GAP_FILL_FLAG) == Some([89]);
            && (flags.checkTooHigh <==> messageType !in [[50], [51], [53]] && (messageType == [52] ==> fills))
            && (flags.checkTooLow <==> messageType != [53] && (messageType == [52] ==> fills))
            && (flags.checkOrigSendingTime <==> duplicate && messageType != [52])
  {
    FlagRead(m.header.fields, POSS_DUP_FLAG);
    FlagRead(m.body.fields, GAP_FILL_FLAG);
    hide GetBool;
  }

  predicate Says(fields: seq<Field>, tag: Tag, value: seq<byte>) {
    GetRaw(fields, tag) == Some(value) || (GetRaw(fields, tag).None? && value == [])
  }

  /** A message is refused for its version, then for its parties, and for nothing else by these
      checks; the sender it names must be the receiver's counterparty, and its target the
      receiver. */
  lemma PartiesChecked(fields: seq<Field>, receiver: Session)
    ensures var issue := CheckParties(fields, receiver);
            && (issue == Some(IncorrectBeginString) <==> !Says(fields, BEGIN_STRING, receiver.beginString))
            && (issue == Some(IncorrectCompId) <==>
                && Says(fields, BEGIN_STRING, receiver.beginString)
                && !(Says(fields, SENDER_COMP_ID, receiver.targetCompId)
                     && Says(fields, TARGET_COMP_ID, receiver.senderCompId)))
            && (issue.None? <==>
                && Says(fields, BEGIN_STRING, receiver.beginString)
                && Says(fields, SENDER_COMP_ID, receiver.targetCompId)
                && Says(fields, TARGET_COMP_ID, receiver.senderCompId))
  {
    hide GetRaw;
  }

  /** The order of the checks: version and parties, then times, then the number. */
  lemma VerifiedInOrder(m: Parts, receiver: Receiver, expected: nat, flags: Flags)
    ensures var issue := VerifyMessage(m, receiver, expected, flags);
            var h := m.header.fields;
            var parties := CheckParties(h, receiver.session);
            var times := CheckTimes(h, flags.checkOrigSendingTime, receiver.accurate);
            var number := GetNumber(h, MSG_SEQ_NUM);
            && (parties.Some? ==> issue == parties)
            && (parties.None? && times.Some? ==> issue == times)
            && (parties.None? && times.None? && number.Some? ==>
                  issue == CheckSequenceNumber(number.value, expected, flags.checkTooHigh, flags.checkTooLow))
            && (parties.None? && times.None? && number.None? ==>
                  issue == CheckSequenceNumber(0, expected, flags.checkTooHigh, flags.checkTooLow))
  {
    hide CheckParties, CheckTimes, GetNumber, CheckSequenceNumber;
  }

  /** What the time checks say, first to last. */
  lemma TimesChecked(fields: seq<Field>, checkOrigSendingTime: bool, accurate: Timestamp -> bool)
    ensures var issue := CheckTimes(fields, checkOrigSendingTime, accurate);
            var sent, original := GetTime(fields, SENDING_TIME), GetTime(fields, ORIG_SENDING_TIME);
            && (issue == Some(SendingTimeMissing) <==> sent.None?)
            && (issue == Some(SendingTimeAccuracyIssue) <==> sent.Some? && !accurate(sent.value))
            && (issue == Some(OriginalSendingTimeMissing) <==>
                sent.Some? && accurate(sent.value) && checkOrigSendingTime && original.None?)
            && (issue == Some(OriginalSendingTimeAfterSendingTime) <==>
                && sent.Some? && accurate(sent.value) && checkOrigSendingTime
                && original.Some? && Rank(original.value) > Rank(sent.value))
  {
    hide GetTime;
    if GetTime(fields, SENDING_TIME).Some? && GetTime(fields, ORIG_SENDING_TIME).Some? {
      AtMostIsRank(GetTime(fields, ORIG_SENDING_TIME).value, GetTime(fields, SENDING_TIME).value);
    }
    hide AtMost, Rank;
  }
}
