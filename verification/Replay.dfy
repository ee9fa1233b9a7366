/** Answering a resend request: application messages are sent again under their numbers, runs
    of administrative messages are replaced by gap fills. The answer is judged by the checks
    and the sequence-reset handler the receiving side of the same code applies. */
module Replay {
  import opened Decimal
  import opened Verification

  /** A stored message as the replay loop sees it. */
  datatype Item = Item(number: nat, admin: bool)

  datatype Event = Resend(number: nat) | GapFill(begin: nat, newSeqNo: nat)

  function Start(e: Event): nat {
    if e.Resend? then e.number else e.begin
  }

  /** The replay from item `i` on, with an administrative run open since `pending`. */
  function ReplayFrom(items: seq<Item>, i: nat, pending: Option<nat>): seq<Event>
    requires i <= |items| && (i == 0 ==> pending.None?)
    decreases |items| - i
  {
    if i == |items| then
      if pending.Some? then [GapFill(pending.value, items[i - 1].number)] else []
    else if items[i].admin then
      ReplayFrom(items, i + 1, if pending.None? then Some(items[i].number) else pending)
    else
      (if pending.Some? then [GapFill(pending.value, items[i].number)] else [])
      + [Resend(items[i].number)] + ReplayFrom(items, i + 1, None)
  }

  function ReplayAll(items: seq<Item>): seq<Event> {
    ReplayFrom(items, 0, None)
  }

  function Fills(pending: Option<nat>, newSeqNo: nat): seq<Event> {
    if pending.Some? then [GapFill(pending.value, newSeqNo)] else []
  }

  lemma ReplayUnfold(items: seq<Item>, i: nat, pending: Option<nat>)
    requires i < |items| && (i == 0 ==> pending.None?)
    ensures ReplayFrom(items, i, pending) ==
            if items[i].admin then ReplayFrom(items, i + 1, if pending.None? then Some(items[i].number) else pending)
            else Fills(pending, items[i].number) + ([Resend(items[i].number)] + ReplayFrom(items, i + 1, None))
  {
    var later, resend := ReplayFrom(items, i + 1, None), [Resend(items[i].number)];
    assert Fills(pending, items[i].number) + resend + later == Fills(pending, items[i].number) + (resend + later);
  }

  predicate Contiguous(items: seq<Item>, begin: nat) {
    forall i :: 0 <= i < |items| ==> items[i].number == begin + i
  }

  // ----- what the replay should contain -----

  /** First position of a maximal administrative run. */
  predicate RunStarts(items: seq<Item>, a: nat) {
    a < |items| && items[a].admin && (a == 0 || !items[a - 1].admin)
  }

  /** The run starting at `a` ends before position `z`: at an application message, or at the
      end of the range. */
  predicate RunEnds(items: seq<Item>, a: nat, z: nat) {
    && a < z <= |items|
    && (forall j :: a <= j < z ==> items[j].admin)
    && (z < |items| ==> !items[z].admin)
  }

  /** The number announced for a run: that of the application message behind it, but at the
      end of the range the last administrative number itself. */
  function FillTo(items: seq<Item>, z: nat): nat
    requires 0 < z <= |items|
  {
    if z < |items| then items[z].number else items[z - 1].number
  }

  ghost predicate Wanted(items: seq<Item>, e: Event) {
    match e
    case Resend(n) => exists i :: 0 <= i < |items| && !items[i].admin && items[i].number == n
    case GapFill(x, y) =>
      exists a: nat, z: nat :: RunStarts(items, a) && RunEnds(items, a, z) && items[a].number == x
        && FillTo(items, z) == y
  }

  predicate Increasing(events: seq<Event>) {
    forall i, j :: 0 <= i < j < |events| ==> Start(events[i]) < Start(events[j])
  }

  /** Where the loop stands: the open run, if any, started at `a`. */
  ghost predicate OpenRun(items: seq<Item>, i: nat, pending: Option<nat>, a: nat) {
    match pending
    case None => i == 0 || (i <= |items| && !items[i - 1].admin)
    case Some(p) =>
      && a < i <= |items| && RunStarts(items, a) && items[a].number == p
      && forall j :: a <= j < i ==> items[j].admin
  }

  /** Everything the loop still emits is wanted, in order, and nothing wanted from here on is
      left out. */
  lemma {:induction false} ReplayFromExact(items: seq<Item>, begin: nat, i: nat, pending: Option<nat>, a: nat)
    requires Contiguous(items, begin) && i <= |items| && (i == 0 ==> pending.None?) && OpenRun(items, i, pending, a)
    ensures var events := ReplayFrom(items, i, pending);
            var from := if pending.Some? then pending.value else begin + i;
            && Increasing(events)
            && (forall e :: e in events ==> Wanted(items, e) && Start(e) >= from)
            && (forall e :: Wanted(items, e) && Start(e) >= from ==> e in events)
    decreases |items| - i
  {
    if i == |items| {
      AtEnd(items, begin, pending, a);
    } else if items[i].admin {
      var pending', a' := if pending.None? then Some(items[i].number) else pending, if pending.None? then i else a;
      ReplayFromExact(items, begin, i + 1, pending', a');
    } else {
      ReplayFromExact(items, begin, i + 1, None, 0);
      AtApplication(items, begin, i, pending, a);
    }
  }

  /** Inside a run only its own start starts a run, and it has one end. */
  lemma RunUnique(items: seq<Item>, a: nat, z: nat, a': nat, z': nat)
    requires RunEnds(items, a, z) && RunStarts(items, a') && RunEnds(items, a', z') && a <= a' < z
    ensures a' == a && z' == z
  {}

  lemma WantedPosition(items: seq<Item>, begin: nat, e: Event) returns (k: nat, z: nat)
    requires Contiguous(items, begin) && Wanted(items, e)
    ensures k < |items| && Start(e) == begin + k && (items[k].admin <==> e.GapFill?)
    ensures e.GapFill? ==> RunStarts(items, k) && RunEnds(items, k, z) && FillTo(items, z) == e.newSeqNo
  {
    z := 0;
    match e
    case Resend(n) =>
      k :| 0 <= k < |items| && !items[k].admin && items[k].number == n;
    case GapFill(x, y) =>
      k, z :| RunStarts(items, k) && RunEnds(items, k, z) && items[k].number == x && FillTo(items, z) == y;
  }

  lemma {:induction false} AtEnd(items: seq<Item>, begin: nat, pending: Option<nat>, a: nat)
    requires Contiguous(items, begin) && (items == [] ==> pending.None?) && OpenRun(items, |items|, pending, a)
    ensures var events := ReplayFrom(items, |items|, pending);
            var from := if pending.Some? then pending.value else begin + |items|;
            && Increasing(events)
            && (forall e :: e in events ==> Wanted(items, e) && Start(e) >= from)
            && (forall e :: Wanted(items, e) && Start(e) >= from ==> e in events)
  {
    var events := ReplayFrom(items, |items|, pending);
    var from := if pending.Some? then pending.value else begin + |items|;
    if pending.Some? {
      assert RunEnds(items, a, |items|);
    }
    forall e | Wanted(items, e) && Start(e) >= from ensures e in events {
      var k, z := WantedPosition(items, begin, e);
      if pending.Some? {
        RunUnique(items, a, |items|, k, z);
      }
    }
  }

  lemma {:induction false} AtApplication(items: seq<Item>, begin: nat, i: nat, pending: Option<nat>, a: nat)
    requires Contiguous(items, begin) && i < |items| && !items[i].admin
    requires (i == 0 ==> pending.None?) && OpenRun(items, i, pending, a)
    requires var later := ReplayFrom(items, i + 1, None);
             && Increasing(later)
             && (forall e :: e in later ==> Wanted(items, e) && Start(e) >= begin + i + 1)
             && (forall e :: Wanted(items, e) && Start(e) >= begin + i + 1 ==> e in later)
    ensures var events := ReplayFrom(items, i, pending);
            var from := if pending.Some? then pending.value else begin + i;
            && Increasing(events)
            && (forall e :: e in events ==> Wanted(items, e) && Start(e) >= from)
            && (forall e :: Wanted(items, e) && Start(e) >= from ==> e in events)
  {
    var later := ReplayFrom(items, i + 1, None);
    var fill := if pending.Some? then [GapFill(pending.value, items[i].number)] else [];
    var from := if pending.Some? then pending.value else begin + i;
    var events := fill + [Resend(items[i].number)] + later;
    assert ReplayFrom(items, i, pending) == events;
    if pending.Some? {
      assert RunEnds(items, a, i) && FillTo(items, i) == items[i].number;
      assert Wanted(items, fill[0]);
    }
    assert Wanted(items, Resend(items[i].number));
    hide ReplayFrom, Wanted;
    IncreasingAfter(items[i].number, fill, later);
    forall e | Wanted(items, e) && Start(e) >= from ensures e in events {
      ApplicationWanted(items, begin, i, pending, a, e);
    }
  }

  lemma IncreasingAfter(n: nat, fill: seq<Event>, later: seq<Event>)
    requires |fill| <= 1 && (fill != [] ==> Start(fill[0]) < n)
    requires Increasing(later) && forall e :: e in later ==> Start(e) >= n + 1
    ensures Increasing(fill + [Resend(n)] + later)
  {}

  /** A wanted event from here on is the gap fill, the resend, or comes later. */
  lemma {:induction false} ApplicationWanted(items: seq<Item>, begin: nat, i: nat, pending: Option<nat>, a: nat,
                                             e: Event)
    requires Contiguous(items, begin) && i < |items| && !items[i].admin
    requires (i == 0 ==> pending.None?) && OpenRun(items, i, pending, a)
    requires Wanted(items, e) && Start(e) >= if pending.Some? then pending.value else begin + i
    ensures || (pending.Some? && e == GapFill(pending.value, items[i].number))
            || e == Resend(items[i].number) || Start(e) >= begin + i + 1
  {
    var k, z := WantedPosition(items, begin, e);
    hide Wanted;
    if k < i {
      assert RunEnds(items, a, i) && FillTo(items, i) == items[i].number;
      RunUnique(items, a, i, k, z);
    }
  }

  /** Over a contiguous stored range the replay consists of exactly one resend per application
      message and one gap fill per maximal administrative run, in increasing order. */
  lemma ReplayExact(items: seq<Item>, begin: nat)
    requires Contiguous(items, begin)
    ensures Increasing(ReplayAll(items))
    ensures forall e :: e in ReplayAll(items) <==> Wanted(items, e)
  {
    ReplayFromExact(items, begin, 0, None, 0);
    forall e | Wanted(items, e) ensures e in ReplayAll(items) {
      var k, z := WantedPosition(items, begin, e);
    }
  }

  /** No gap fill covers an application message. */
  lemma FillsOnlyAdmin(items: seq<Item>, begin: nat, e: Event, i: nat)
    requires Contiguous(items, begin) && e in ReplayAll(items) && e.GapFill?
    requires i < |items| && e.begin <= items[i].number < e.newSeqNo
    ensures items[i].admin
  {
    ReplayExact(items, begin);
    var k, z := WantedPosition(items, begin, e);
  }

  // ----- the receiving side -----

  datatype Reception = Accepted | Flagged(issue: Issue) | ResetRefused | Unreadable

  /** What a peer expecting `expected` does with an event: application messages advance the
      number, a gap fill moves it to NewSeqNo unless that would not be forwards. */
  function Receive(expected: nat, e: Event): (Reception, nat) {
    match CheckSequenceNumber(Start(e), expected, true, true)
    case Some(issue) => (Flagged(issue), expected)
    case None =>
      match e
      case Resend(_) => (Accepted, expected + 1)
      case GapFill(_, newSeqNo) => if newSeqNo <= expected then (ResetRefused, expected) else (Accepted, newSeqNo)
  }

  /** An event is flagged exactly if it does not carry the expected number, as too low or as a
      gap, and then changes nothing; a resend is otherwise taken, and a gap fill exactly if it
      leads forward. */
  lemma ReceivedExactly(expected: nat, e: Event)
    ensures var (r, next) := Receive(expected, e);
            && (Start(e) < expected ==> r == Flagged(SeqNumberTooLow(expected, Start(e))) && next == expected)
            && (Start(e) > expected ==> r == Flagged(SequenceGap(expected, Start(e))) && next == expected)
            && (e == Resend(expected) ==> r == Accepted && next == expected + 1)
            && (e.GapFill? && e.begin == expected < e.newSeqNo ==> r == Accepted && next == e.newSeqNo)
            && (e.GapFill? && e.begin == expected >= e.newSeqNo ==> r == ResetRefused && next == expected)
  {}

  function ReceiveAll(expected: nat, events: seq<Event>): (seq<Reception>, nat)
    decreases |events|
  {
    if events == [] then ([], expected)
    else
      var (r, next) := Receive(expected, events[0]);
      var (rs, last) := ReceiveAll(next, events[1..]);
      ([r] + rs, last)
  }

  /** The range ends in an administrative run of a single message. */
  predicate LoneLast(items: seq<Item>) {
    items != [] && items[|items| - 1].admin && (|items| == 1 || !items[|items| - 2].admin)
  }

  /** Where the peer ends up. */
  function FinalExpected(items: seq<Item>, begin: nat): nat {
    if items == [] then begin
    else if items[|items| - 1].admin then items[|items| - 1].number
    else items[|items| - 1].number + 1
  }

  ghost predicate NoIssue(rs: seq<Reception>) {
    forall i :: 0 <= i < |rs| ==> !rs[i].Flagged? && !rs[i].Unreadable?
  }

  lemma {:induction false} PeerFrom(items: seq<Item>, begin: nat, i: nat, pending: Option<nat>, a: nat)
    requires Contiguous(items, begin) && i <= |items| && (i == 0 ==> pending.None?) && OpenRun(items, i, pending, a)
    ensures var expected := if pending.Some? then pending.value else begin + i;
            var (rs, last) := ReceiveAll(expected, ReplayFrom(items, i, pending));
            && NoIssue(rs) && last == FinalExpected(items, begin)
            && (ResetRefused in rs <==> LoneLast(items))
    decreases |items| - i
  {
    hide *;
    var expected := if pending.Some? then pending.value else begin + i;
    if i == |items| {
      PeerEnd(items, begin, pending, a);
    } else {
      OpenStep(items, begin, i, pending, a);
      ReplayUnfold(items, i, pending);
      if items[i].admin {
        PeerFrom(items, begin, i + 1, if pending.None? then Some(items[i].number) else pending, if pending.None? then i
          else a);
      } else {
        PeerFrom(items, begin, i + 1, None, 0);
        AfterResend(expected, items[i].number, ReplayFrom(items, i + 1, None), pending);
        AcceptedFirst(ReceiveAll(items[i].number + 1, ReplayFrom(items, i + 1, None)).0, pending.Some?);
      }
    }
  }

  lemma AcceptedFirst(rs: seq<Reception>, two: bool)
    ensures var all := (if two then [Accepted] else []) + [Accepted] + rs;
            (NoIssue(rs) ==> NoIssue(all)) && (ResetRefused in all <==> ResetRefused in rs)
  {}

  lemma OpenStep(items: seq<Item>, begin: nat, i: nat, pending: Option<nat>, a: nat)
    requires Contiguous(items, begin) && i < |items| && OpenRun(items, i, pending, a)
    ensures items[i].number == begin + i && (pending.Some? ==> pending.value < items[i].number)
    ensures if items[i].admin then OpenRun(items, i + 1, if pending.None? then Some(items[i].number) else pending,
            if pending.None? then i else a)
            else OpenRun(items, i + 1, None, 0)
  {}

  lemma {:induction false} PeerEnd(items: seq<Item>, begin: nat, pending: Option<nat>, a: nat)
    requires Contiguous(items, begin) && (items == [] ==> pending.None?) && OpenRun(items, |items|, pending, a)
    ensures var expected := if pending.Some? then pending.value else begin + |items|;
            var (rs, last) := ReceiveAll(expected, ReplayFrom(items, |items|, pending));
            && NoIssue(rs) && last == FinalExpected(items, begin)
            && (ResetRefused in rs <==> LoneLast(items))
  {
    if pending.Some? {
      var events := ReplayFrom(items, |items|, pending);
      assert events[1..] == [];
      assert a == |items| - 1 <==> LoneLast(items);
    }
  }

  /** A resend, with or without the gap fill in front of it, goes through and leaves the peer
      at the next number. */
  lemma {:induction false} AfterResend(expected: nat, number: nat, later: seq<Event>, pending: Option<nat>)
    requires if pending.Some? then expected == pending.value < number else expected == number
    ensures var (rs, last) := ReceiveAll(expected, Fills(pending, number) + ([Resend(number)] + later));
            var (rs', last') := ReceiveAll(number + 1, later);
            last == last' && rs == (if pending.Some? then [Accepted] else []) + [Accepted] + rs'
  {
    var rest := [Resend(number)] + later;
    assert rest[1..] == later;
    assert ReceiveAll(number, rest) == ([Accepted] + ReceiveAll(number + 1, later).0, ReceiveAll(number + 1, later).1);
    var all := Fills(pending, number) + rest;
    if pending.Some? {
      assert all[0] == GapFill(pending.value, number) && all[1..] == rest;
    } else {
      assert all == rest;
    }
  }

  /** A peer expecting `begin` takes the whole replay without a sequence gap or a too-low
      number, and ends at the number behind the range, or at the last number itself if that
      was administrative; its handler refuses a gap fill only for a lone trailing
      administrative message, announced with NewSeqNo equal to its own number. */
  lemma PeerAccepts(items: seq<Item>, begin: nat)
    requires Contiguous(items, begin)
    ensures var (rs, last) := ReceiveAll(begin, ReplayAll(items));
            && NoIssue(rs) && last == FinalExpected(items, begin)
            && (ResetRefused in rs <==> LoneLast(items))
  {
    PeerFrom(items, begin, 0, None, 0);
  }

  /** The sender's next new message continues the peer's numbering exactly when the replayed
      range did not end in an administrative message. */
  lemma NextMessageFits(items: seq<Item>, begin: nat)
    requires Contiguous(items, begin) && items != []
    ensures CheckSequenceNumber(begin + |items|, ReceiveAll(begin, ReplayAll(items)).1, true, true).None?
            <==> !items[|items| - 1].admin
  {
    PeerAccepts(items, begin);
  }

  // ----- ranges with gaps -----

  /** What a store with missing numbers returns: numbers still go up. */
  predicate Ascending(items: seq<Item>) {
    forall i, j :: 0 <= i < j < |items| ==> items[i].number < items[j].number
  }

  /** Nothing is missing in front of position `i`, where the peer expects `expected`, nor right
      behind any application message from there on. */
  predicate TightFrom(items: seq<Item>, i: nat, expected: nat) {
    && (i < |items| ==> items[i].number == expected)
    && TightBehind(items, i)
  }

  predicate TightBehind(items: seq<Item>, i: nat) {
    forall j :: i <= j < |items| - 1 && !items[j].admin ==> items[j + 1].number == items[j].number + 1
  }

  lemma NoIssueCons(r: Reception, rs: seq<Reception>)
    ensures NoIssue([r] + rs) <==> !r.Flagged? && !r.Unreadable? && NoIssue(rs)
  {
    var all := [r] + rs;
    assert all[0] == r;
    assert forall i :: 0 <= i < |rs| ==> rs[i] == all[i + 1];
  }

  lemma ReceiveCons(expected: nat, e: Event, events: seq<Event>)
    ensures NoIssue(ReceiveAll(expected, [e] + events).0) <==>
            !Receive(expected, e).0.Flagged? && NoIssue(ReceiveAll(Receive(expected, e).1, events).0)
  {
    assert ([e] + events)[1..] == events;
    NoIssueCons(Receive(expected, e).0, ReceiveAll(Receive(expected, e).1, events).0);
    hide NoIssue;
  }

  lemma {:induction false} GapFrom(items: seq<Item>, i: nat, pending: Option<nat>, expected: nat)
    requires Ascending(items) && i <= |items| && (i == 0 ==> pending.None?)
    requires if pending.Some? then expected <= pending.value
             && (i < |items| ==> pending.value < items[i].number) else i < |items| ==> expected <= items[i].number
    ensures NoIssue(ReceiveAll(expected, ReplayFrom(items, i, pending)).0) <==>
            if pending.Some? then pending.value == expected && TightBehind(items, i) else TightFrom(items, i, expected)
    decreases |items| - i
  {
    hide Receive, ReceiveAll, NoIssue, ReplayFrom;
    if i == |items| {
      GapAtEnd(items, pending, expected);
    } else {
      ReplayUnfold(items, i, pending);
      var n, later := items[i].number, ReplayFrom(items, i + 1, None);
      if items[i].admin {
        GapFrom(items, i + 1, if pending.None? then Some(n) else pending, expected);
      } else {
        GapFrom(items, i + 1, None, n + 1);
        GapAtApplication(n, pending, later, expected);
        assert TightBehind(items, i) <==> TightFrom(items, i + 1, n + 1);
      }
    }
  }

  lemma GapAtEnd(items: seq<Item>, pending: Option<nat>, expected: nat)
    requires (items == [] ==> pending.None?) && (pending.Some? ==> expected <= pending.value)
    ensures NoIssue(ReceiveAll(expected, ReplayFrom(items, |items|, pending)).0)
            <==> (pending.Some? ==> pending.value == expected)
  {
    if pending.Some? {
      var e := GapFill(pending.value, items[|items| - 1].number);
      assert [e] + [] == [e];
      ReceiveCons(expected, e, []);
    }
  }

  lemma GapAtApplication(n: nat, pending: Option<nat>, later: seq<Event>, expected: nat)
    requires if pending.Some? then expected <= pending.value < n else expected <= n
    ensures NoIssue(ReceiveAll(expected, Fills(pending, n) + ([Resend(n)] + later)).0) <==>
            (if pending.Some? then pending.value == expected else n == expected) && NoIssue(ReceiveAll(n + 1, later).0)
  {
    hide ReceiveAll, NoIssue;
    var rest := [Resend(n)] + later;
    if pending.Some? {
      ReceiveCons(expected, GapFill(pending.value, n), rest);
      ReceiveCons(n, Resend(n), later);
    } else {
      assert [] + rest == rest;
      ReceiveCons(expected, Resend(n), later);
    }
  }

  /** If numbers are missing from the stored range, the peer raises no issue exactly when the
      first number is the one it expects and no number is missing right behind an application
      message; a gap fill hides whatever is missing behind an administrative one. */
  lemma GapsNoticed(items: seq<Item>, begin: nat)
    requires Ascending(items) && (items != [] ==> begin <= items[0].number)
    ensures NoIssue(ReceiveAll(begin, ReplayAll(items)).0) <==> TightFrom(items, 0, begin)
  {
    GapFrom(items, 0, None, begin);
  }
}
