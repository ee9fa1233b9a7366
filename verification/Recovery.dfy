/** From sending to recovery: whatever range a peer asks for of the messages sent since the
    last reset, the answer brings it back in step. */
module Recovery {
  import opened Decimal
  import opened Wire
  import opened Fields
  import opened Layouts
  import opened Messages
  import opened RoundTrip
  import opened Timestamps
  import opened Outbound
  import opened Verification
  import opened Stores
  import opened Ledger
  import opened Resending
  import opened Replay
  import opened ReplayBytes
  import opened ReplayWire
  import opened ReplayAccepted
  import opened Alignment
  import opened Reading
  import opened Rereading
  import opened Verdicts

  /** Sends whose store calls all succeeded. */
  predicate Smooth(acts: seq<Act>) {
    forall i :: 0 <= i < |acts| ==> acts[i].Send? && acts[i].increment.Succeeds? && acts[i].add.Succeeds?
  }

  function SentAs(s: Session, act: Act, n: nat): Parts
    requires act.Send?
  {
    Stamped(s, n, act.now, act.payload)
  }

  /** The messages sent, the first under number 1. */
  function SentAll(s: Session, acts: seq<Act>): (ms: seq<Parts>)
    requires Smooth(acts)
    ensures |ms| == |acts|
  {
    seq(|acts|, i requires 0 <= i < |acts| => SentAs(s, acts[i], i + 1))
  }

  /** The store holds exactly the messages sent, under their numbers. */
  ghost predicate HoldsAll(store: MemState, ms: seq<Parts>) {
    && store.sender == |ms|
    && (forall n :: 1 <= n <= |ms| ==> n in store.messages && store.messages[n] == Encoded(ms[n - 1], SOH))
    && forall n :: n in store.messages ==> 1 <= n <= |ms|
  }

  /** What goes out for a payload: built by any receiver with the same dictionary, it has the
      payload's body, its header values, and the stamps where it has none of its own. */
  lemma {:induction false} SentContent(b: MessageBuilder, s: Session, n: nat, now: Moment, p: Payload, t: Tag)
    requires WellFormedBuilder(b) && b.config.separator == SOH && Sendable(b, Stamped(s, n, now, p))
    ensures var r := Build(b, Encoded(Stamped(s, n, now, p), SOH));
            && r.Valid? && r.message.body == Aligned(p.body)
            && (t != BODY_LENGTH ==>
                  GetRaw(r.message.header.fields, t) ==
                  if LastValue(p.header, t).Some? then LastValue(p.header, t)
                  else if t == BEGIN_STRING then Some(s.beginString)
                  else if t == MSG_TYPE then Some(p.messageType)
                  else if t == SENDER_COMP_ID then Some(s.senderCompId)
                  else if t == TARGET_COMP_ID then Some(s.targetCompId)
                  else if t == MSG_SEQ_NUM then Some(Print(n))
                  else if t == SENDING_TIME then Some(PrintTime(now))
                  else None)
  {
    var m := Stamped(s, n, now, p);
    StampedValues(s, n, now, p.messageType, t);
    InsertAllLookup(StampedHeader(s, n, now, p.messageType), p.header, t);
    assert m.body == p.body && m.header.fields == InsertAll(StampedHeader(s, n, now, p.messageType), p.header);
    hide *;
    EncodeThenBuild(b, m);
    AsReadHeader(b, m, t);
    AsReadForm(m, SOH);
  }

  lemma {:induction false} StampedValues(s: Session, n: nat, now: Moment, messageType: seq<byte>, t: Tag)
    ensures GetRaw(StampedHeader(s, n, now, messageType), t) ==
            if t == BEGIN_STRING then Some(s.beginString)
            else if t == MSG_TYPE then Some(messageType)
            else if t == SENDER_COMP_ID then Some(s.senderCompId)
            else if t == TARGET_COMP_ID then Some(s.targetCompId)
            else if t == MSG_SEQ_NUM then Some(Print(n))
            else if t == SENDING_TIME then Some(PrintTime(now))
            else None
  {
    hide Print, PrintTime;
    var h := StampedHeader(s, n, now, messageType);
    if t in STAMPED_TAGS {
      assert UniqueTags(h);
      StampedLookups(s, n, now, messageType, h);
    } else {
      StampedAbsent(s, n, now, messageType, t);
    }
  }

  const STAMPED_TAGS: seq<Tag> :=
    [BEGIN_STRING, MSG_TYPE, SENDER_COMP_ID, TARGET_COMP_ID, MSG_SEQ_NUM, SENDING_TIME]

  lemma {:induction false} StampedAbsent(s: Session, n: nat, now: Moment, messageType: seq<byte>, t: Tag)
    requires t !in STAMPED_TAGS
    ensures GetRaw(StampedHeader(s, n, now, messageType), t) == None
  {
    hide Print, PrintTime;
    var h := StampedHeader(s, n, now, messageType);
    assert forall i :: 0 <= i < |h| ==> h[i].tag != t;
  }

  lemma {:induction false} SmoothRun(s: Session, acts: seq<Act>)
    requires Smooth(acts)
    ensures HoldsAll(Record(s, FRESH_STORE, acts).store, SentAll(s, acts))
  {
    hide Encoded, Stamped;
    if acts != [] {
      var front, act := acts[..|acts| - 1], acts[|acts| - 1];
      assert Smooth(front);
      SmoothRun(s, front);
      var before, after := Record(s, FRESH_STORE, front), Record(s, FRESH_STORE, acts);
      assert after == Step(s, before, act);
      hide Record;
      OneMore(before.store, after.store, SentAll(s, front), SentAs(s, act, |acts|));
      assert SentAll(s, acts) == SentAll(s, front) + [SentAs(s, act, |acts|)];
    }
  }

  lemma OneMore(before: MemState, after: MemState, ms: seq<Parts>, m: Parts)
    requires HoldsAll(before, ms) && after.sender == before.sender + 1
    requires after.messages == before.messages[after.sender := Encoded(m, SOH)]
    ensures HoldsAll(after, ms + [m])
  {
    hide Encoded;
  }

  lemma {:induction false} SliceHeld(store: MemState, ms: seq<Parts>, begin: nat, end: nat)
    requires HoldsAll(store, ms) && 1 <= begin <= end + 1 <= |ms| + 1
    ensures Slice(store.messages, begin, end) == EncodeAll(ms[begin - 1..end])
    decreases end
  {
    hide Encoded;
    if begin <= end {
      SliceHeld(store, ms, begin, end - 1);
      assert end in store.messages && store.messages[end] == Encoded(ms[end - 1], SOH);
      assert ms[begin - 1..end] == ms[begin - 1..end - 1] + [ms[end - 1]];
    }
  }

  /** Number zero is never stored: a range from zero is a range from one. */
  lemma {:induction false} SliceFromZero(messages: map<nat, seq<byte>>, end: nat)
    requires 0 !in messages
    ensures Slice(messages, 0, end) == Slice(messages, 1, end)
  {
    if end == 0 {
      assert Slice(messages, 0, -1) == [];
    } else {
      SliceFromZero(messages, end - 1);
    }
  }

  function FirstNumber(begin: nat): nat {
    if begin == 0 then 1 else begin
  }

  /** The end of the range that is resent: zero asks for everything. */
  function ResendEnd(requested: nat, lastNumber: nat): nat {
    if requested == 0 || requested > lastNumber then lastNumber else requested
  }

  /** A message that adds no stamp of its own, conforms to the dictionary once stamped, and is
      sent before anything is resent. */
  ghost predicate Conforms(c: Context, act: Act, n: nat, clock: nat -> Moment)
    requires WellFormedBuilder(c.builder) && act.Send?
  {
    && UniqueTags(StampedHeader(c.session, n, act.now, act.payload.messageType) + act.payload.header)
    && !HasTag(act.payload.header, POSS_DUP_FLAG)
    && Sendable(c.builder, SentAs(c.session, act, n))
    && forall k :: AtMost(act.now, clock(k))
  }

  ghost predicate AllConform(c: Context, acts: seq<Act>, clock: nat -> Moment)
    requires WellFormedBuilder(c.builder) && Smooth(acts)
  {
    && JudgedAccurate(c, clock)
    && forall i :: 0 <= i < |acts| ==> Conforms(c, acts[i], i + 1, clock)
  }

  lemma {:induction false} NotStamped(c: Context, act: Act, n: nat)
    requires act.Send? && !HasTag(act.payload.header, POSS_DUP_FLAG)
    requires UniqueTags(StampedHeader(c.session, n, act.now, act.payload.messageType) + act.payload.header)
    ensures var fields := StampedHeader(c.session, n, act.now, act.payload.messageType) + act.payload.header;
            SentAs(c.session, act, n).header.fields == fields && !HasTag(fields, POSS_DUP_FLAG)
  {
    var stamped := StampedHeader(c.session, n, act.now, act.payload.messageType);
    assert forall i :: 0 <= i < |stamped| ==> stamped[i].tag != POSS_DUP_FLAG;
    hide StampedHeader, UniqueTags;
    InsertAllDistinct(stamped, act.payload.header);
    var fields := stamped + act.payload.header;
    forall i | 0 <= i < |fields| ensures fields[i].tag != POSS_DUP_FLAG {
      if i >= |stamped| {
        assert act.payload.header[i - |stamped|] == fields[i];
      }
    }
  }

  /** Such a message can be resent. */
  lemma {:induction false} SentStorable(c: Context, act: Act, n: nat, clock: nat -> Moment)
    requires Ready(c) && act.Send? && n < U64_LIMIT && Conforms(c, act, n, clock)
    ensures Storable(c, SentAs(c.session, act, n), n, clock)
  {
    var m := SentAs(c.session, act, n);
    assert UniqueTags(StampedHeader(c.session, n, act.now, act.payload.messageType) + act.payload.header);
    hide *;
    ConformsFacts(c, act, n, clock);
    NotStamped(c, act, n);
    StampedFacts(c.session, n, act.now, act.payload.messageType, m.header.fields);
    StorableFrom(c, m, n, act.now, clock);
  }

  lemma ConformsFacts(c: Context, act: Act, n: nat, clock: nat -> Moment)
    requires Ready(c) && act.Send? && Conforms(c, act, n, clock)
    ensures UniqueTags(StampedHeader(c.session, n, act.now, act.payload.messageType) + act.payload.header)
    ensures WellFormedBuilder(c.builder) && !HasTag(act.payload.header, POSS_DUP_FLAG)
    ensures Sendable(c.builder, SentAs(c.session, act, n)) && forall k :: AtMost(act.now, clock(k))
  {
    hide UniqueTags, StampedHeader, Sendable, AtMost, HasTag, SentAs;
  }

  lemma StorableFrom(c: Context, m: Parts, n: nat, sent: Moment, clock: nat -> Moment)
    requires WellFormedBuilder(c.builder) && Sendable(c.builder, m) && !HasTag(m.header.fields, POSS_DUP_FLAG)
    requires CheckParties(m.header.fields, Mirror(c.session)).None?
             && GetNumber(m.header.fields, MSG_SEQ_NUM) == Some(n)
    requires GetTime(m.header.fields, SENDING_TIME) == Some(sent) && forall k :: AtMost(sent, clock(k))
    ensures Storable(c, m, n, clock)
  {
    hide Sendable, CheckParties, GetNumber, AtMost, HasTag, ParseTime;
    assert GetBool(m.header.fields, POSS_DUP_FLAG) == None;
    assert OriginalTime(m.header) == Some(sent);
    assert HasTag(m.header.fields, SENDING_TIME);
  }

  lemma ConformsAt(c: Context, acts: seq<Act>, n: nat, clock: nat -> Moment)
    requires Ready(c) && Smooth(acts) && AllConform(c, acts, clock) && 1 <= n <= |acts|
    ensures acts[n - 1].Send? && Conforms(c, acts[n - 1], n, clock)
  {
    var i := n - 1;
    assert Conforms(c, acts[i], i + 1, clock);
    hide Conforms, Ready;
  }

  lemma {:induction false} StorableSent(c: Context, acts: seq<Act>, n: nat, clock: nat -> Moment)
    requires Ready(c) && Smooth(acts) && AllConform(c, acts, clock) && |acts| < U64_LIMIT && 1 <= n <= |acts|
    ensures Storable(c, SentAll(c.session, acts)[n - 1], n, clock)
  {
    hide *;
    SentAt(c.session, acts, n);
    ConformsAt(c, acts, n, clock);
    SentStorable(c, acts[n - 1], n, clock);
  }

  lemma {:induction false} SentAllStorable(c: Context, acts: seq<Act>, begin: nat, end: nat, clock: nat -> Moment)
    requires Ready(c) && Smooth(acts) && AllConform(c, acts, clock) && |acts| < U64_LIMIT
             && 1 <= begin <= end + 1 <= |acts| + 1
    ensures AllStorable(c, SentAll(c.session, acts)[begin - 1..end], begin, clock)
  {
    hide *;
    PeerReady(c);
    AgreedClock(c, acts, clock);
    var ms := SentAll(c.session, acts)[begin - 1..end];
    forall i | 0 <= i < |ms| ensures Storable(c, ms[i], begin + i, clock) {
      StorableSent(c, acts, begin + i, clock);
    }
    StorableAll(c, ms, begin, clock);
  }

  lemma AgreedClock(c: Context, acts: seq<Act>, clock: nat -> Moment)
    requires Ready(c) && Smooth(acts) && AllConform(c, acts, clock)
    ensures JudgedAccurate(c, clock)
  {
    hide Ready, Conforms, JudgedAccurate;
  }

  lemma StorableAll(c: Context, ms: seq<Parts>, begin: nat, clock: nat -> Moment)
    requires WellFormedBuilder(c.builder) && JudgedAccurate(c, clock)
    requires forall i :: 0 <= i < |ms| ==> Storable(c, ms[i], begin + i, clock)
    ensures AllStorable(c, ms, begin, clock)
  {
    hide Storable, JudgedAccurate;
  }

  /** `answer` brings a peer waiting for the first number of the range from `begin` to `end` all
      of it: one byte string per event of the replay of those messages, each delivered, without
      an issue raised. The peer ends behind the range, or at its last number if that was
      administrative; an empty range leaves it where it was. */
  ghost predicate Answered(c: Context, acts: seq<Act>, begin: nat, end: nat, clock: nat -> Moment, answer: Answer)
    requires WellFormedBuilder(c.builder) && Smooth(acts) && end <= |acts|
  {
    var first := if begin == 0 then 1 else begin;
    var range := if first > end then [] else SentAll(c.session, acts)[first - 1..end];
    var events := ReplayAll(ItemsOf(range, first));
    var (rs, expected) := TakeAll(Peer(c), first, answer.sent);
    && answer.failure.None?
    && |answer.sent| == |events|
    && (forall j :: 0 <= j < |events| ==> Delivers(c, range, first, events[j], answer.sent[j], clock(j)))
    && NoIssue(rs)
    && expected == if first > end then first
                   else if Admin(SentAs(c.session, acts[end - 1], end)) then end else end + 1
  }

  /** After any number of successful sends since the last reset, a resend request is answered from
      the store: up to the last message sent if the requested end is zero or beyond it, and up to
      the requested end otherwise. */
  lemma {:induction false} ResendAfterSends(c: Context, acts: seq<Act>, begin: nat, requested: nat,
                                            clock: nat -> Moment)
    requires Ready(c) && Smooth(acts) && AllConform(c, acts, clock) && |acts| < U64_LIMIT
    requires AllShort(AnswerTo(c, Record(c.session, FRESH_STORE, acts).store, begin, requested, clock).sent)
    ensures Record(c.session, FRESH_STORE, acts).store.sender == |acts|
    ensures var answer := AnswerTo(c, Record(c.session, FRESH_STORE, acts).store, begin, requested, clock);
            && (requested == 0 || requested > |acts| ==> Answered(c, acts, begin, |acts|, clock, answer))
            && (0 < requested <= |acts| ==> Answered(c, acts, begin, requested, clock, answer))
  {
    hide *;
    PeerReady(c);
    var store := Record(c.session, FRESH_STORE, acts).store;
    SmoothRun(c.session, acts);
    HeldCount(store, SentAll(c.session, acts));
    AnswerIs(c, store, begin, requested, clock);
    EndIs(requested, |acts|);
    AnsweredUpTo(c, acts, begin, ResendEnd(requested, |acts|), clock);
  }

  lemma {:induction false} AnsweredUpTo(c: Context, acts: seq<Act>, begin: nat, end: nat, clock: nat -> Moment)
    requires Ready(c) && Smooth(acts) && AllConform(c, acts, clock) && |acts| < U64_LIMIT && end <= |acts|
    requires var store := Record(c.session, FRESH_STORE, acts).store;
             AllShort(AnswerFrom(c, Slice(store.messages, begin, end), None, 0, 0, clock).sent)
    ensures var store := Record(c.session, FRESH_STORE, acts).store;
            Answered(c, acts, begin, end, clock, AnswerFrom(c, Slice(store.messages, begin, end), None, 0, 0, clock))
  {
    hide *;
    var ms, store := SentAll(c.session, acts), Record(c.session, FRESH_STORE, acts).store;
    var first := FirstNumber(begin);
    FirstIs(begin);
    PeerReady(c);
    SmoothRun(c.session, acts);
    HeldCount(store, ms);
    if first > end {
      NothingAsked(c, store, begin, end, clock);
      AnsweredByNothing(c, acts, begin, end, clock);
    } else {
      SliceHeld(store, ms, first, end);
      if begin == 0 {
        SliceFromZero(store.messages, end);
      }
      SentAllStorable(c, acts, first, end, clock);
      ReplayOnTheWire(c, ms[first - 1..end], first, clock);
      FinalNumber(ms, first, end);
      SentAt(c.session, acts, end);
      AnsweredBy(c, acts, begin, end, clock, AnswerFrom(c, Slice(store.messages, begin, end), None, 0, 0, clock));
    }
  }

  lemma AnsweredByNothing(c: Context, acts: seq<Act>, begin: nat, end: nat, clock: nat -> Moment)
    requires WellFormedBuilder(c.builder) && Smooth(acts) && end <= |acts| && FirstNumber(begin) > end
    requires TakeAll(Peer(c), FirstNumber(begin), []) == ([], FirstNumber(begin)) && NoIssue([])
    ensures Answered(c, acts, begin, end, clock, Answer([], None))
  {
    hide TakeAll, Delivers, SentAll, NoIssue;
    assert ItemsOf([], FirstNumber(begin)) == [] && ReplayAll([]) == [];
  }

  lemma AnsweredBy(c: Context, acts: seq<Act>, begin: nat, end: nat, clock: nat -> Moment, answer: Answer)
    requires WellFormedBuilder(c.builder) && Smooth(acts) && FirstNumber(begin) <= end <= |acts|
    requires var first := FirstNumber(begin);
             var range := SentAll(c.session, acts)[first - 1..end];
             var events := ReplayAll(ItemsOf(range, first));
             var (rs, expected) := TakeAll(Peer(c), first, answer.sent);
             && answer.failure.None? && |answer.sent| == |events|
             && (forall j :: 0 <= j < |events| ==> Delivers(c, range, first, events[j], answer.sent[j], clock(j)))
             && NoIssue(rs) && expected == if Admin(SentAs(c.session, acts[end - 1], end)) then end else end + 1
    ensures Answered(c, acts, begin, end, clock, answer)
  {
    hide TakeAll, Delivers, SentAll, NoIssue, ReplayAll, ItemsOf, Admin, SentAs;
  }

  /** An empty range is answered by nothing. */
  lemma {:induction false} NothingAsked(c: Context, store: MemState, begin: nat, end: nat, clock: nat -> Moment)
    requires WellFormedBuilder(c.builder) && WellFormedBuilder(Peer(c).builder) && FirstNumber(begin) > end
             && 0 !in store.messages
    ensures AnswerFrom(c, Slice(store.messages, begin, end), None, 0, 0, clock) == Answer([], None)
    ensures TakeAll(Peer(c), FirstNumber(begin), []) == ([], FirstNumber(begin)) && NoIssue([])
  {
    if begin == 0 {
      SliceFromZero(store.messages, end);
    }
    assert Slice(store.messages, begin, end) == [];
  }

  /** `on_resend_request`, once both ends of the range are known. */
  method OnResendRequest(c: Context, store: InMemoryMessageStore, begin: nat, requested: nat, clock: nat -> Moment)
    returns (sent: seq<seq<byte>>, failure: Option<Failure>)
    requires WellFormedBuilder(c.builder)
    ensures Answer(sent, failure) == AnswerTo(c, store.State(), begin, requested, clock)
  {
    hide AnswerFrom, Slice, WellFormedBuilder;
    var lastNumber := store.senderSeqNumber;
    var end := lastNumber;
    if requested != 0 && requested < lastNumber {
      end := requested;
    }
    var raws := store.GetSlice(begin, end);
    sent, failure := ResendMessages(c, raws, clock);
  }

  /** The answer to a request. */
  function AnswerTo(c: Context, store: MemState, begin: nat, requested: nat, clock: nat -> Moment): Answer
    requires WellFormedBuilder(c.builder)
  {
    AnswerFrom(c, Slice(store.messages, begin, ResendEnd(requested, store.sender)), None, 0, 0, clock)
  }

  lemma AnswerIs(c: Context, store: MemState, begin: nat, requested: nat, clock: nat -> Moment)
    requires WellFormedBuilder(c.builder)
    ensures AnswerTo(c, store, begin, requested, clock)
            == AnswerFrom(c, Slice(store.messages, begin, ResendEnd(requested, store.sender)), None, 0, 0, clock)
  {
    hide AnswerFrom, Slice;
  }

  lemma EndIs(requested: nat, last: nat)
    ensures requested == 0 || requested > last ==> ResendEnd(requested, last) == last
    ensures 0 < requested <= last ==> ResendEnd(requested, last) == requested
  {}

  lemma FirstIs(begin: nat)
    ensures FirstNumber(begin) == if begin == 0 then 1 else begin
  {}

  lemma SentAt(s: Session, acts: seq<Act>, n: nat)
    requires Smooth(acts) && 1 <= n <= |acts|
    ensures SentAll(s, acts)[n - 1] == SentAs(s, acts[n - 1], n)
  {
    hide SentAs;
  }

  lemma HeldCount(store: MemState, ms: seq<Parts>)
    requires HoldsAll(store, ms)
    ensures store.sender == |ms| && 0 !in store.messages
  {
    hide Encoded;
  }

  lemma FinalNumber(ms: seq<Parts>, begin: nat, end: nat)
    requires 1 <= begin <= end + 1 <= |ms| + 1
    ensures FinalExpected(ItemsOf(ms[begin - 1..end], begin), begin)
            == if begin <= end && Admin(ms[end - 1]) then end else end + 1
  {
    var range := ms[begin - 1..end];
    assert begin <= end ==> range[|range| - 1] == ms[end - 1];
    hide Admin, Contiguous;
  }
}
