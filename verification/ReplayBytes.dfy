/** The bytes sent in answer to a resend request are those of the replay's events, one by one. */
module ReplayBytes {
  import opened Decimal
  import opened Layouts
  import opened Messages
  import opened Outbound
  import opened Resending
  import opened Replay

  /** The range as the loop sees it once every message has been read. */
  function ItemsOf(msgs: seq<Parts>, begin: nat): (items: seq<Item>)
    ensures |items| == |msgs| && Contiguous(items, begin)
  {
    seq(|msgs|, i requires 0 <= i < |msgs| => Item(begin + i, Admin(msgs[i])))
  }

  /** An event of the replay as bytes; `msgs` holds the messages from number `begin` on. */
  function EventBytes(c: Context, msgs: seq<Parts>, begin: nat, e: Event, now: Moment): seq<byte> {
    match e
    case Resend(n) => if begin <= n < begin + |msgs| then ResentBytes(c, msgs[n - begin], now) else []
    case GapFill(x, y) => GapFillBytes(c, x, y, now)
  }

  function BytesOf(c: Context, msgs: seq<Parts>, begin: nat, events: seq<Event>, k: nat,
                   clock: nat -> Moment): seq<seq<byte>>
    decreases |events|
  {
    if events == [] then []
    else [EventBytes(c, msgs, begin, events[0], clock(k))] + BytesOf(c, msgs, begin, events[1..], k + 1, clock)
  }

  /** Every stored message can be read, and they are numbered from `begin` on. */
  ghost predicate ReadsAs(c: Context, raws: seq<seq<byte>>, msgs: seq<Parts>, begin: nat)
    requires WellFormedBuilder(c.builder)
  {
    |raws| == |msgs| && forall i :: 0 <= i < |raws| ==> ReadStored(c, raws[i]) == Ok(Stored(msgs[i], begin + i))
  }

  lemma BytesOfCons(c: Context, msgs: seq<Parts>, begin: nat, e: Event, events: seq<Event>, k: nat,
                    clock: nat -> Moment)
    ensures BytesOf(c, msgs, begin, [e] + events, k, clock)
            == [EventBytes(c, msgs, begin, e, clock(k))] + BytesOf(c, msgs, begin, events, k + 1, clock)
  {
    assert ([e] + events)[1..] == events;
    hide EventBytes;
  }

  /** Each event has its place. */
  lemma {:induction false} BytesAt(c: Context, msgs: seq<Parts>, begin: nat, events: seq<Event>, k: nat,
                                   clock: nat -> Moment, j: nat)
    requires j < |events|
    ensures |BytesOf(c, msgs, begin, events, k, clock)| == |events|
    ensures BytesOf(c, msgs, begin, events, k, clock)[j] == EventBytes(c, msgs, begin, events[j], clock(k + j))
    decreases |events|
  {
    hide EventBytes;
    if j > 0 {
      BytesAt(c, msgs, begin, events[1..], k + 1, clock, j - 1);
    } else if |events| > 1 {
      BytesAt(c, msgs, begin, events[1..], k + 1, clock, 0);
    }
  }

  lemma BytesOfFill(c: Context, msgs: seq<Parts>, begin: nat, pending: Option<nat>, newSeqNo: nat, events: seq<Event>,
                    k: nat, clock: nat -> Moment)
    ensures BytesOf(c, msgs, begin, Fills(pending, newSeqNo) + events, k, clock)
            == Fill(c, pending, newSeqNo, clock, k)
               + BytesOf(c, msgs, begin, events, k + |Fill(c, pending, newSeqNo, clock, k)|, clock)
  {
    if pending.Some? {
      BytesOfCons(c, msgs, begin, GapFill(pending.value, newSeqNo), events, k, clock);
      hide BytesOf, GapFillBytes;
    } else {
      assert [] + events == events;
    }
  }

  function LastNumber(begin: nat, i: nat): nat {
    if i == 0 then 0 else begin + i - 1
  }

  lemma {:induction false} AnswerFromIsReplay(c: Context, raws: seq<seq<byte>>, msgs: seq<Parts>, begin: nat,
                                              clock: nat -> Moment, i: nat, pending: Option<nat>, k: nat)
    requires WellFormedBuilder(c.builder) && ReadsAs(c, raws, msgs, begin) && i <= |raws| && (i == 0 ==> pending.None?)
    ensures AnswerFrom(c, raws[i..], pending, LastNumber(begin, i), k, clock)
            == Answer(BytesOf(c, msgs, begin, ReplayFrom(ItemsOf(msgs, begin), i, pending), k, clock), None)
    decreases |raws| - i
  {
    hide *;
    var rest, n := raws[i..], begin + i;
    StepFacts(c, raws, msgs, begin, i);
    if i == |raws| {
      assert rest == [];
      AtEndOfRange(c, msgs, begin, clock, pending, k);
    } else if Admin(msgs[i]) {
      ReplayUnfold(ItemsOf(msgs, begin), i, pending);
      AnswerAdmin(c, rest, pending, LastNumber(begin, i), k, clock, msgs[i], n);
      AnswerFromIsReplay(c, raws, msgs, begin, clock, i + 1, if pending.None? then Some(n) else pending, k);
    } else {
      var later, k' := ReplayFrom(ItemsOf(msgs, begin), i + 1, None), k + |Fill(c, pending, n, clock, k)| + 1;
      AnswerFromIsReplay(c, raws, msgs, begin, clock, i + 1, None, k');
      assert AnswerFrom(c, rest[1..], None, n, k', clock) == Answer(BytesOf(c, msgs, begin, later, k', clock), None);
      AnswerApplication(c, rest, pending, LastNumber(begin, i), k, clock, msgs[i], n);
      ApplicationBytes(c, msgs, begin, clock, i, pending, k, later);
      ReplayUnfold(ItemsOf(msgs, begin), i, pending);
    }
  }

  lemma StepFacts(c: Context, raws: seq<seq<byte>>, msgs: seq<Parts>, begin: nat, i: nat)
    requires WellFormedBuilder(c.builder) && ReadsAs(c, raws, msgs, begin) && i <= |raws|
    ensures |raws| == |msgs| && LastNumber(begin, i + 1) == begin + i
    ensures i < |raws| ==>
              && raws[i..][0] == raws[i] && raws[i..][1..] == raws[i + 1..]
              && ReadStored(c, raws[i]) == Ok(Stored(msgs[i], begin + i))
              && ItemsOf(msgs, begin)[i] == Item(begin + i, Admin(msgs[i]))
  {
    hide ReadStored, Admin;
  }

  lemma ResendEvent(c: Context, msgs: seq<Parts>, begin: nat, i: nat, now: Moment)
    requires i < |msgs|
    ensures EventBytes(c, msgs, begin, Resend(begin + i), now) == ResentBytes(c, msgs[i], now)
  {
    hide ResentBytes;
  }

  /** A resent message, behind the gap fill if there is one, takes the next places. */
  lemma {:induction false} ApplicationBytes(c: Context, msgs: seq<Parts>, begin: nat, clock: nat -> Moment, i: nat,
                                            pending: Option<nat>, k: nat, later: seq<Event>)
    requires i < |msgs|
    ensures var n := begin + i;
            var fill := Fill(c, pending, n, clock, k);
            BytesOf(c, msgs, begin, Fills(pending, n) + ([Resend(n)] + later), k, clock)
            == fill + [ResentBytes(c, msgs[i], clock(k + |fill|))]
              + BytesOf(c, msgs, begin, later, k + |fill| + 1, clock)
  {
    hide *;
    var n := begin + i;
    var fill := Fill(c, pending, n, clock, k);
    var resent := ResentBytes(c, msgs[i], clock(k + |fill|));
    ResendEvent(c, msgs, begin, i, clock(k + |fill|));
    BytesOfFill(c, msgs, begin, pending, n, [Resend(n)] + later, k, clock);
    BytesOfCons(c, msgs, begin, Resend(n), later, k + |fill|, clock);
    var rest := BytesOf(c, msgs, begin, later, k + |fill| + 1, clock);
    assert fill + [resent] + rest == fill + ([resent] + rest);
  }

  lemma AtEndOfRange(c: Context, msgs: seq<Parts>, begin: nat, clock: nat -> Moment, pending: Option<nat>, k: nat)
    requires WellFormedBuilder(c.builder) && (msgs == [] ==> pending.None?)
    ensures AnswerFrom(c, [], pending, LastNumber(begin, |msgs|), k, clock)
            == Answer(BytesOf(c, msgs, begin, ReplayFrom(ItemsOf(msgs, begin), |msgs|, pending), k, clock), None)
  {
    var last := LastNumber(begin, |msgs|);
    assert ReplayFrom(ItemsOf(msgs, begin), |msgs|, pending) == Fills(pending, last) + [];
    assert AnswerFrom(c, [], pending, last, k, clock) == Answer(Fill(c, pending, last, clock, k), None);
    assert BytesOf(c, msgs, begin, [], k + |Fill(c, pending, last, clock, k)|, clock) == [];
    hide *;
    BytesOfFill(c, msgs, begin, pending, last, [], k, clock);
    assert Fill(c, pending, last, clock, k) + [] == Fill(c, pending, last, clock, k);
  }

  /** Over a contiguous range of readable messages nothing fails, and what is sent is the
      replay, each event in its place. */
  lemma {:induction false} AnswerIsReplay(c: Context, raws: seq<seq<byte>>, msgs: seq<Parts>, begin: nat,
                                          clock: nat -> Moment)
    requires WellFormedBuilder(c.builder) && ReadsAs(c, raws, msgs, begin)
    ensures AnswerFrom(c, raws, None, 0, 0, clock)
            == Answer(BytesOf(c, msgs, begin, ReplayAll(ItemsOf(msgs, begin)), 0, clock), None)
  {
    assert raws[0..] == raws && LastNumber(begin, 0) == 0;
    assert ReplayAll(ItemsOf(msgs, begin)) == ReplayFrom(ItemsOf(msgs, begin), 0, None);
    hide *;
    AnswerFromIsReplay(c, raws, msgs, begin, clock, 0, None, 0);
  }

  // ----- a message that cannot be read -----

  /** The replay as far as it gets: no gap fill for a run that is still open. */
  function StoppedFrom(items: seq<Item>, i: nat, pending: Option<nat>): seq<Event>
    requires i <= |items|
    decreases |items| - i
  {
    if i == |items| then []
    else if items[i].admin then
      StoppedFrom(items, i + 1, if pending.None? then Some(items[i].number) else pending)
    else
      Fills(pending, items[i].number) + ([Resend(items[i].number)] + StoppedFrom(items, i + 1, None))
  }

  /** What is missing of the replay is the gap fill of a trailing administrative run. */
  lemma {:induction false} StoppedShort(items: seq<Item>, i: nat, pending: Option<nat>)
    requires i <= |items| && (i == 0 ==> pending.None?)
    ensures var r := ReplayFrom(items, i, pending);
            var open := if i == |items| then pending.Some? else items[|items| - 1].admin;
            if open then r != [] && StoppedFrom(items, i, pending) == r[..|r| - 1]
            else StoppedFrom(items, i, pending) == r
    decreases |items| - i
  {
    if i < |items| {
      ReplayUnfold(items, i, pending);
      if items[i].admin {
        StoppedShort(items, i + 1, if pending.None? then Some(items[i].number) else pending);
      } else {
        StoppedShort(items, i + 1, None);
        var front, later := Fills(pending, items[i].number), ReplayFrom(items, i + 1, None);
        hide ReplayFrom, StoppedFrom;
        CutLast(front, [Resend(items[i].number)], later);
      }
    }
  }

  lemma CutLast(a: seq<Event>, b: seq<Event>, c: seq<Event>)
    ensures c != [] ==> (a + (b + c))[..|a + (b + c)| - 1] == a + (b + c[..|c| - 1])
  {}

  lemma {:induction false} StoppedAnswer(c: Context, raws: seq<seq<byte>>, msgs: seq<Parts>, begin: nat,
                                         clock: nat -> Moment, i: nat, pending: Option<nat>, k: nat, e: Failure)
    requires WellFormedBuilder(c.builder) && |msgs| < |raws| && ReadsAs(c, raws[..|msgs|], msgs, begin) && i <= |msgs|
    requires (i == 0 ==> pending.None?) && ReadStored(c, raws[|msgs|]) == Err(e)
    ensures AnswerFrom(c, raws[i..], pending, LastNumber(begin, i), k, clock)
            == Answer(BytesOf(c, msgs, begin, StoppedFrom(ItemsOf(msgs, begin), i, pending), k, clock), Some(e))
    decreases |msgs| - i
  {
    hide *;
    var rest, n := raws[i..], begin + i;
    assert rest[0] == raws[i] && rest[1..] == raws[i + 1..];
    if i == |msgs| {
      StopsHere(c, rest, pending, LastNumber(begin, i), k, clock, e, msgs, begin);
    } else {
      assert raws[..|msgs|][i] == raws[i];
      StepFacts(c, raws[..|msgs|], msgs, begin, i);
      StoppedUnfold(ItemsOf(msgs, begin), i, pending);
      if Admin(msgs[i]) {
        AnswerAdmin(c, rest, pending, LastNumber(begin, i), k, clock, msgs[i], n);
        StoppedAnswer(c, raws, msgs, begin, clock, i + 1, if pending.None? then Some(n) else pending, k, e);
      } else {
        var later, k' := StoppedFrom(ItemsOf(msgs, begin), i + 1, None), k + |Fill(c, pending, n, clock, k)| + 1;
        StoppedAnswer(c, raws, msgs, begin, clock, i + 1, None, k', e);
        assert AnswerFrom(c, rest[1..], None, n, k', clock)
          == Answer(BytesOf(c, msgs, begin, later, k', clock), Some(e));
        AnswerApplication(c, rest, pending, LastNumber(begin, i), k, clock, msgs[i], n);
        ApplicationBytes(c, msgs, begin, clock, i, pending, k, later);
      }
    }
  }

  lemma StoppedUnfold(items: seq<Item>, i: nat, pending: Option<nat>)
    requires i < |items|
    ensures StoppedFrom(items, i, pending) ==
            if items[i].admin then StoppedFrom(items, i + 1, if pending.None? then Some(items[i].number) else pending)
            else Fills(pending, items[i].number) + ([Resend(items[i].number)] + StoppedFrom(items, i + 1, None))
  {}

  lemma StopsHere(c: Context, raws: seq<seq<byte>>, pending: Option<nat>, last: nat, k: nat, clock: nat -> Moment,
                  e: Failure, msgs: seq<Parts>, begin: nat)
    requires WellFormedBuilder(c.builder) && raws != [] && ReadStored(c, raws[0]) == Err(e)
    ensures AnswerFrom(c, raws, pending, last, k, clock)
            == Answer(BytesOf(c, msgs, begin, StoppedFrom(ItemsOf(msgs, begin), |msgs|, pending), k, clock), Some(e))
  {
    hide ReadStored, WellFormedBuilder;
    assert StoppedFrom(ItemsOf(msgs, begin), |msgs|, pending) == [];
  }

  /** At the first stored message that cannot be read the answer stops with its failure: what
      was sent is the replay of the messages before it, without the gap fill of a run still
      open. */
  lemma {:induction false} AnswerStops(c: Context, raws: seq<seq<byte>>, msgs: seq<Parts>, begin: nat,
                                       clock: nat -> Moment, e: Failure)
    requires WellFormedBuilder(c.builder) && |msgs| < |raws| && ReadsAs(c, raws[..|msgs|], msgs, begin)
    requires ReadStored(c, raws[|msgs|]) == Err(e)
    ensures var answer, replay := AnswerFrom(c, raws, None, 0, 0, clock), ReplayAll(ItemsOf(msgs, begin));
            var open := msgs != [] && Admin(msgs[|msgs| - 1]);
            && answer.failure == Some(e)
            && (open ==> replay != [])
            && answer.sent == BytesOf(c, msgs, begin, if open then replay[..|replay| - 1] else replay, 0, clock)
  {
    hide *;
    assert raws[0..] == raws;
    FromStart(msgs, begin);
    StoppedAnswer(c, raws, msgs, begin, clock, 0, None, 0, e);
  }

  lemma FromStart(msgs: seq<Parts>, begin: nat)
    ensures LastNumber(begin, 0) == 0
    ensures var stopped, replay := StoppedFrom(ItemsOf(msgs, begin), 0, None), ReplayAll(ItemsOf(msgs, begin));
            if msgs != [] && Admin(msgs[|msgs| - 1]) then replay != [] && stopped == replay[..|replay| - 1]
            else stopped == replay
  {
    hide Admin, StoppedFrom, ReplayFrom;
    StoppedShort(ItemsOf(msgs, begin), 0, None);
  }
}
