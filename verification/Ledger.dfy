/** Outbound numbering: every send takes the next number, advances it, stores the message under
    it and only then hands the message to the writer. */
module Ledger {
  import opened Decimal
  import opened Wire
  import opened Messages
  import opened Outbound
  import opened Stores

  /** How a store call ends; a failing call may have taken effect all the same. */
  datatype Outcome = Succeeds | Fails(applied: bool)

  /** What happens to a session's numbering. Whether a prepared message reaches the writer is
      up to the session's state. */
  datatype Act =
    | Send(payload: Payload, now: Moment, increment: Outcome, add: Outcome, toWriter: bool)
    | ResetStore

  /** Storing and writing, in the order they happen. */
  datatype Effect = Kept(number: nat, raw: seq<byte>) | Wrote(number: nat, raw: seq<byte>)

  /** The store, and what has happened since it was last reset. */
  datatype Ledger = Ledger(store: MemState, epoch: seq<Effect>)

  predicate TookEffect(o: Outcome) {
    o.Succeeds? || o.applied
  }

  function Outgoing(s: Session, n: nat, act: Act): seq<byte>
    requires act.Send?
  {
    Encoded(Stamped(s, n, act.now, act.payload), SOH)
  }

  function Step(s: Session, l: Ledger, act: Act): Ledger {
    match act
    case ResetStore => Ledger(StepMem(l.store, Reset), [])
    case Send(_, _, increment, add, toWriter) =>
      var n := l.store.sender + 1;
      var raw := Outgoing(s, n, act);
      var l1 := if TookEffect(increment) then l.(store := StepMem(l.store, IncrementSender)) else l;
      if increment.Fails? then l1
      else
        var l2 := if TookEffect(add) then Ledger(StepMem(l1.store, Add(n, raw)), l1.epoch + [Kept(n, raw)]) else l1;
        if add.Fails? || !toWriter then l2 else l2.(epoch := l2.epoch + [Wrote(n, raw)])
  }

  function Record(s: Session, start: MemState, acts: seq<Act>): Ledger {
    if acts == [] then Ledger(start, []) else Step(s, Record(s, start, acts[..|acts| - 1]), acts[|acts| - 1])
  }

  // ----- the session context -----

  datatype PreparedMessage = PreparedMessage(number: nat, raw: seq<byte>)

  datatype InternalSendError = SequenceNumber | Persist

  class SessionCtx {
    const session: Session
    var store: MemState
    var epoch: seq<Effect>

    ghost function Value(): Ledger
      reads this
    {
      Ledger(store, epoch)
    }

    constructor (session: Session, store: MemState)
      ensures this.session == session && Value() == Ledger(store, [])
    {
      this.session, this.store, epoch := session, store, [];
    }

    method IncrementSenderSeqNumber(outcome: Outcome)
      modifies this
      ensures Value() == if TookEffect(outcome) then old(Value()).(store := StepMem(old(store), IncrementSender))
              else old(Value())
    {
      if TookEffect(outcome) {
        store := store.(sender := store.sender + 1);
      }
    }

    method AddMessage(n: nat, raw: seq<byte>, outcome: Outcome)
      modifies this
      ensures Value() == if TookEffect(outcome)
              then Ledger(StepMem(old(store), Add(n, raw)), old(epoch) + [Kept(n, raw)]) else old(Value())
    {
      if TookEffect(outcome) {
        store := store.(messages := store.messages[n := raw]);
        epoch := epoch + [Kept(n, raw)];
      }
    }

    /** `prepare_message`: nothing is handed out unless it has been numbered and stored. */
    method PrepareMessage(payload: Payload, now: Moment, increment: Outcome, add: Outcome)
      returns (r: Result<PreparedMessage, InternalSendError>)
      modifies this
      ensures Value() == Step(session, old(Value()), Send(payload, now, increment, add, false))
      ensures r.Ok? <==> increment.Succeeds? && add.Succeeds?
      ensures r.Ok? ==> r.value == PreparedMessage(old(store.sender) + 1, store.messages[old(store.sender) + 1])
    {
      hide Encoded, Stamped;
      var n := store.sender + 1;
      var raw := GenerateMessage(session, n, now, payload);
      IncrementSenderSeqNumber(increment);
      if increment.Fails? {
        return Err(SequenceNumber);
      }
      AddMessage(n, raw, add);
      if add.Fails? {
        return Err(Persist);
      }
      return Ok(PreparedMessage(n, raw));
    }

    /** `send_message`. */
    method SendMessage(payload: Payload, now: Moment, increment: Outcome, add: Outcome)
      returns (r: Result<nat, InternalSendError>)
      modifies this
      ensures Value() == Step(session, old(Value()), Send(payload, now, increment, add, true))
      ensures r.Ok? <==> increment.Succeeds? && add.Succeeds?
      ensures r.Ok? ==> r.value == old(store.sender) + 1
      ensures r.Ok? ==>
                var n := old(store.sender) + 1;
                var raw := Encoded(Stamped(session, n, now, payload), SOH);
                epoch == old(epoch) + [Kept(n, raw), Wrote(n, raw)] && store.messages == old(store.messages)[n := raw]
      ensures r.Err? ==> forall e :: e in epoch && e !in old(epoch) ==> e.Kept?
    {
      hide Encoded, Stamped;
      var prepared := PrepareMessage(payload, now, increment, add);
      if prepared.Err? {
        return Err(prepared.error);
      }
      epoch := epoch + [Wrote(prepared.value.number, prepared.value.raw)];
      return Ok(prepared.value.number);
    }

    method ResetNumbers()
      modifies this
      ensures Value() == Step(session, old(Value()), ResetStore)
    {
      store, epoch := MemState(0, 0, map[]), [];
    }
  }

  // ----- safety over runs -----

  /** Whatever was stored or written can be fetched under its number. */
  ghost predicate Fetchable(store: MemState, epoch: seq<Effect>) {
    forall i :: 0 <= i < |epoch| ==> Holds(store, epoch[i])
  }

  predicate Holds(store: MemState, e: Effect) {
    e.number <= store.sender && e.number in store.messages && store.messages[e.number] == e.raw
  }

  /** Whatever was written had been stored just before. */
  predicate StoredFirst(epoch: seq<Effect>) {
    forall i :: 0 <= i < |epoch| && epoch[i].Wrote? ==> i > 0 && epoch[i - 1] == Kept(epoch[i].number, epoch[i].raw)
  }

  /** Numbers go up, from one written message to the next and from one stored message to the
      next. */
  predicate Ascending(epoch: seq<Effect>) {
    forall i, j :: 0 <= i < j < |epoch| && (epoch[i].Wrote? <==> epoch[j].Wrote?) ==> epoch[i].number < epoch[j].number
  }

  /** Since the last reset: what was written was stored under its number just before, it is
      still there as it was written, and no number is used twice. */
  ghost predicate Safe(l: Ledger) {
    Fetchable(l.store, l.epoch) && StoredFirst(l.epoch) && Ascending(l.epoch)
  }

  lemma {:induction false} StepSafe(s: Session, l: Ledger, act: Act)
    requires Safe(l)
    ensures Safe(Step(s, l, act))
  {
    if act.Send? {
      hide *;
      var n := l.store.sender + 1;
      var raw := Outgoing(s, n, act);
      StepCases(s, l, act);
      AdvancedSafe(l);
      KeptSafe(l, n, raw);
      WroteSafe(l, n, raw);
    }
  }

  /** The four ways a send can end. */
  lemma StepCases(s: Session, l: Ledger, act: Act)
    requires act.Send?
    ensures var n := l.store.sender + 1;
            var kept := AfterKeeping(l, n, Outgoing(s, n, act));
            || Step(s, l, act) == l
            || Step(s, l, act) == l.(store := StepMem(l.store, IncrementSender))
            || Step(s, l, act) == kept
            || Step(s, l, act) == kept.(epoch := kept.epoch + [Wrote(n, Outgoing(s, n, act))])
  {
    hide Outgoing;
  }

  lemma AdvancedSafe(l: Ledger)
    requires Safe(l)
    ensures Safe(l.(store := StepMem(l.store, IncrementSender)))
  {
    assert forall i :: 0 <= i < |l.epoch| ==> Holds(l.store, l.epoch[i]);
  }

  function AfterKeeping(l: Ledger, n: nat, raw: seq<byte>): Ledger {
    Ledger(StepMem(StepMem(l.store, IncrementSender), Add(n, raw)), l.epoch + [Kept(n, raw)])
  }

  lemma {:induction false} KeptSafe(l: Ledger, n: nat, raw: seq<byte>)
    requires Safe(l) && n == l.store.sender + 1
    ensures Safe(AfterKeeping(l, n, raw))
  {
    var l' := AfterKeeping(l, n, raw);
    assert forall i :: 0 <= i < |l.epoch| ==> Holds(l.store, l.epoch[i]);
    assert Fetchable(l'.store, l'.epoch);
    assert forall i :: 0 <= i < |l.epoch| ==> l'.epoch[i] == l.epoch[i] && l.epoch[i].number < n;
    hide Fetchable, Holds;
  }

  lemma {:induction false} WroteSafe(l: Ledger, n: nat, raw: seq<byte>)
    requires Safe(l) && n == l.store.sender + 1
    ensures var kept := AfterKeeping(l, n, raw); Safe(kept.(epoch := kept.epoch + [Wrote(n, raw)]))
  {
    var kept := AfterKeeping(l, n, raw);
    KeptSafe(l, n, raw);
    var epoch := kept.epoch + [Wrote(n, raw)];
    assert Fetchable(kept.store, epoch);
    assert forall i :: 0 <= i < |l.epoch| ==> Holds(l.store, l.epoch[i]) && l.epoch[i] == epoch[i];
    assert forall i :: 0 <= i < |kept.epoch| ==> epoch[i] == kept.epoch[i];
    assert forall i :: 0 <= i < |l.epoch| ==> epoch[i].number < n;
    hide Fetchable, Holds;
  }

  /** Over every run of sends, store failures at either step and resets included, and from any
      store to begin with: no number is written twice since the last reset, written numbers
      strictly increase, and everything written had been stored under its number before and
      can still be fetched. */
  lemma {:induction false} RunSafe(s: Session, start: MemState, acts: seq<Act>)
    ensures Safe(Record(s, start, acts))
  {
    if acts != [] {
      RunSafe(s, start, acts[..|acts| - 1]);
      StepSafe(s, Record(s, start, acts[..|acts| - 1]), acts[|acts| - 1]);
    }
  }

  // ----- everything sent is written -----

  /** The numbers taken so far: one per send whose increment took effect, since the last reset or
      on top of what the store started with. */
  function Taken(start: nat, acts: seq<Act>): nat {
    if acts == [] then start
    else
      var before := Taken(start, acts[..|acts| - 1]);
      match acts[|acts| - 1]
      case ResetStore => 0
      case Send(_, _, increment, _, _) => if increment == Fails(false) then before else before + 1
  }

  /** What should have been written since the last reset: the encoded message of every send whose
      two store calls succeeded and that was for the writer, under the number it took. */
  function Writes(s: Session, start: nat, acts: seq<Act>): seq<Effect> {
    if acts == [] then []
    else
      var front := acts[..|acts| - 1];
      match acts[|acts| - 1]
      case ResetStore => []
      case Send(payload, now, Succeeds, Succeeds, true) =>
        var n := Taken(start, front) + 1;
        Writes(s, start, front) + [Wrote(n, Encoded(Stamped(s, n, now, payload), SOH))]
      case Send(_, _, _, _, _) => Writes(s, start, front)
  }

  function OnlyWrites(epoch: seq<Effect>): seq<Effect> {
    if epoch == [] then []
    else
      var e := epoch[|epoch| - 1];
      OnlyWrites(epoch[..|epoch| - 1]) + if e.Wrote? then [e] else []
  }

  lemma OnlyWritesSnoc(epoch: seq<Effect>, e: Effect)
    ensures OnlyWrites(epoch + [e]) == OnlyWrites(epoch) + if e.Wrote? then [e] else []
  {
    assert (epoch + [e])[..|epoch|] == epoch;
  }

  lemma {:induction false} NumbersTaken(s: Session, start: MemState, acts: seq<Act>)
    ensures Record(s, start, acts).store.sender == Taken(start.sender, acts)
  {
    if acts != [] {
      NumbersTaken(s, start, acts[..|acts| - 1]);
      hide Outgoing;
    }
  }

  lemma {:induction false} StepWrites(s: Session, l: Ledger, act: Act)
    requires act.Send?
    ensures var n := l.store.sender + 1;
            var sent := act.increment.Succeeds? && act.add.Succeeds? && act.toWriter;
            OnlyWrites(Step(s, l, act).epoch)
            == OnlyWrites(l.epoch) + if sent then [Wrote(n, Encoded(Stamped(s, n, act.now, act.payload), SOH))] else []
  {
    hide Encoded, Stamped, OnlyWrites;
    var n := l.store.sender + 1;
    var raw := Outgoing(s, n, act);
    OnlyWritesSnoc(l.epoch, Kept(n, raw));
    OnlyWritesSnoc(l.epoch + [Kept(n, raw)], Wrote(n, raw));
  }

  /** Over every run the messages written since the last reset are exactly those: one for each
      successful send, in order, each the stamped and encoded payload under its own number. */
  lemma {:induction false} EverythingWritten(s: Session, start: MemState, acts: seq<Act>)
    ensures OnlyWrites(Record(s, start, acts).epoch) == Writes(s, start.sender, acts)
  {
    hide *;
    if acts == [] {
      NothingYet(s, start);
    } else {
      var front, act := acts[..|acts| - 1], acts[|acts| - 1];
      RecordSnoc(s, start, acts);
      WritesSnoc(s, start.sender, acts);
      if act.Send? {
        EverythingWritten(s, start, front);
        NumbersTaken(s, start, front);
        StepWrites(s, Record(s, start, front), act);
      }
    }
  }

  lemma NothingYet(s: Session, start: MemState)
    ensures OnlyWrites(Record(s, start, []).epoch) == [] && Writes(s, start.sender, []) == []
  {}

  lemma RecordSnoc(s: Session, start: MemState, acts: seq<Act>)
    requires acts != []
    ensures Record(s, start, acts) == Step(s, Record(s, start, acts[..|acts| - 1]), acts[|acts| - 1])
    ensures acts[|acts| - 1].ResetStore? ==> OnlyWrites(Record(s, start, acts).epoch) == []
  {}

  lemma WritesSnoc(s: Session, start: nat, acts: seq<Act>)
    requires acts != []
    ensures var front, act := acts[..|acts| - 1], acts[|acts| - 1];
            var n := Taken(start, front) + 1;
            Writes(s, start, acts) ==
            if act.ResetStore? then []
            else if act.increment.Succeeds? && act.add.Succeeds? && act.toWriter then
              Writes(s, start, front) + [Wrote(n, Encoded(Stamped(s, n, act.now, act.payload), SOH))]
            else Writes(s, start, front)
  {
    hide Encoded, Stamped, Taken;
  }

  // ----- gaps -----

  /** A send leaves a number unused if the number advanced and nothing was stored under it. */
  predicate LeavesGap(act: Act) {
    act.Send? && TookEffect(act.increment) && !(act.increment.Succeeds? && TookEffect(act.add))
  }

  predicate GapFree(acts: seq<Act>) {
    acts == [] || (var act := acts[|acts| - 1]; act.ResetStore? || (!LeavesGap(act) && GapFree(acts[..|acts| - 1])))
  }

  ghost predicate Complete(store: MemState) {
    forall n :: 1 <= n <= store.sender ==> n in store.messages
  }

  ghost predicate WithinNumbers(store: MemState) {
    forall n :: n in store.messages ==> 1 <= n <= store.sender
  }

  const FRESH_STORE := MemState(0, 0, map[])

  /** Starting from a fresh store, the stored numbers are exactly 1 to the last number taken,
      unless and only unless a send since the last reset left a gap. */
  lemma {:induction false} StoredNumbers(s: Session, acts: seq<Act>)
    ensures var store := Record(s, FRESH_STORE, acts).store;
            WithinNumbers(store) && (Complete(store) <==> GapFree(acts))
  {
    if acts != [] {
      var front, act := acts[..|acts| - 1], acts[|acts| - 1];
      StoredNumbers(s, front);
      if act.Send? {
        hide Complete, WithinNumbers, Step;
        StepComplete(s, Record(s, FRESH_STORE, front), act);
      }
    }
  }

  lemma {:induction false} StepComplete(s: Session, l: Ledger, act: Act)
    requires act.Send? && WithinNumbers(l.store)
    ensures var store := Step(s, l, act).store;
            WithinNumbers(store) && (Complete(store) <==> Complete(l.store) && !LeavesGap(act))
  {
    hide Step;
    NumbersAfter(s, l, act);
    var store := Step(s, l, act).store;
    if LeavesGap(act) {
      assert store.sender !in store.messages.Keys;
    } else {
      SameCompleteness(l.store, store);
    }
  }

  lemma SameCompleteness(before: MemState, after: MemState)
    requires || (after.sender == before.sender && after.messages.Keys == before.messages.Keys)
             || (after.sender == before.sender + 1 && after.messages.Keys == before.messages.Keys + {after.sender})
    requires WithinNumbers(before)
    ensures WithinNumbers(after) && (Complete(after) <==> Complete(before))
  {
    assert forall n :: n <= before.sender ==> (n in after.messages.Keys <==> n in before.messages.Keys);
  }

  lemma NumbersAfter(s: Session, l: Ledger, act: Act)
    requires act.Send?
    ensures var store := Step(s, l, act).store;
            && store.sender == l.store.sender + (if TookEffect(act.increment) then 1 else 0)
            && store.messages.Keys == l.store.messages.Keys
                                      + (if act.increment.Succeeds?
                                        && TookEffect(act.add) then {l.store.sender + 1} else {})
  {
    hide Outgoing;
  }
}
