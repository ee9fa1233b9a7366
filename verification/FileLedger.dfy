/** Outbound numbering on a file store that is closed and opened again: which restarts make
    numbers be used twice. */
module FileLedger {
  import opened Decimal
  import opened Wire
  import opened Messages
  import opened Outbound
  import opened StoreFiles
  import opened Stores
  import opened StoreRuns

  /** Sending, counting what was received, restarting, and resetting. */
  datatype Act =
    | Transmit(payload: Payload, now: Moment)
    | CountReceived
    | SetExpected(number: nat)
    | Restart
    | Clear

  /** The store, and the numbers written since it was last reset. */
  datatype Journal = Journal(file: FileState, written: seq<nat>)

  /** A send advances the number, stores the message under it and writes it. */
  function AfterTransmit(s: Session, j: Journal, act: Act): Journal
    requires act.Transmit?
  {
    var n := j.file.sender + 1;
    var advanced := WriteSeqnums(j.file, n, j.file.target);
    Journal(WriteMessage(advanced, n, Encoded(Stamped(s, n, act.now, act.payload), SOH)), j.written + [n])
  }

  function StepJournal(s: Session, j: Journal, act: Act): Option<Journal> {
    match act
    case Transmit(_, _) => Some(AfterTransmit(s, j, act))
    case CountReceived => Some(j.(file := WriteSeqnums(j.file, j.file.sender, j.file.target + 1)))
    case SetExpected(n) => Some(j.(file := WriteSeqnums(j.file, j.file.sender, n)))
    case Restart =>
      (match Open(j.file.body, j.file.header, j.file.seqnums)
       case None => None
       case Some(file) => Some(j.(file := file)))
    case Clear => Some(Journal(FRESH, []))
  }

  function Log(s: Session, acts: seq<Act>): Option<Journal> {
    if acts == [] then Some(Journal(FRESH, []))
    else
      match Log(s, acts[..|acts| - 1])
      case None => None
      case Some(j) => StepJournal(s, j, acts[|acts| - 1])
  }

  // ----- which restarts lose the number -----

  /** Whether a number was written to the number file since the last restart or reset. */
  predicate NumberSaved(acts: seq<Act>) {
    acts != [] && match acts[|acts| - 1]
                  case Transmit(_, _) => true
                  case CountReceived => true
                  case SetExpected(_) => true
                  case Restart => false
                  case Clear => false
  }

  /** A restart now keeps the sender's number. */
  predicate SenderKept(s: Session, acts: seq<Act>) {
    NumberSaved(acts) || (Log(s, acts).Some? && Log(s, acts).value.file.sender == 0)
  }

  /** The sender's number was lost in a restart since the last reset. */
  predicate Lost(s: Session, acts: seq<Act>) {
    acts != [] &&
    var front, act := acts[..|acts| - 1], acts[|acts| - 1];
    match act
    case Clear => false
    case Restart => Lost(s, front) || !SenderKept(s, front)
    case _ => Lost(s, front)
  }

  /** Nothing is sent between losing the number and the next reset. */
  ghost predicate Harmless(s: Session, acts: seq<Act>) {
    forall i :: 0 <= i < |acts| && acts[i].Transmit? ==> !Lost(s, acts[..i])
  }

  predicate Distinct(numbers: seq<nat>) {
    forall i, j :: 0 <= i < j < |numbers| ==> numbers[i] != numbers[j]
  }

  ghost predicate NoneTwice(s: Session, acts: seq<Act>) {
    Log(s, acts).Some? && Distinct(Log(s, acts).value.written)
  }

  ghost predicate NeverTwice(s: Session, acts: seq<Act>) {
    forall i :: 0 <= i <= |acts| ==> NoneTwice(s, acts[..i])
  }

  /** No number or size outgrows its machine word. */
  ghost predicate FitsThroughout(s: Session, acts: seq<Act>) {
    forall i :: 0 <= i <= |acts| && Log(s, acts[..i]).Some? ==> Fits(Log(s, acts[..i]).value.file)
  }

  // ----- prefixes -----

  lemma {:induction false} FitsPrefix(s: Session, acts: seq<Act>)
    requires FitsThroughout(s, acts)
    ensures Log(s, acts).Some? ==> Fits(Log(s, acts).value.file)
    ensures acts != [] ==> FitsThroughout(s, acts[..|acts| - 1])
  {
    hide Log, Fits;
    assert acts[..|acts|] == acts;
    if acts != [] {
      var front := acts[..|acts| - 1];
      assert forall i :: 0 <= i <= |front| ==> front[..i] == acts[..i];
    }
  }

  lemma {:induction false} HarmlessSnoc(s: Session, acts: seq<Act>)
    requires acts != []
    ensures var front, act := acts[..|acts| - 1], acts[|acts| - 1];
            Harmless(s, acts) <==> Harmless(s, front) && (act.Transmit? ==> !Lost(s, front))
  {
    hide Lost;
    var front := acts[..|acts| - 1];
    assert forall i :: 0 <= i < |front| ==> front[i] == acts[i] && front[..i] == acts[..i];
  }

  lemma {:induction false} NeverTwiceSnoc(s: Session, acts: seq<Act>)
    requires acts != []
    ensures NeverTwice(s, acts) <==> NeverTwice(s, acts[..|acts| - 1]) && NoneTwice(s, acts)
  {
    hide NoneTwice;
    var front := acts[..|acts| - 1];
    assert forall i :: 0 <= i <= |front| ==> front[..i] == acts[..i];
    assert acts[..|acts|] == acts;
  }

  // ----- the invariant of harmless runs -----

  function Upto(n: nat): (numbers: seq<nat>)
    ensures |numbers| == n && Distinct(numbers)
  {
    seq(n, i => i + 1)
  }

  /** The numbers written are 1 to n; n is the sender's number unless that was lost, which then
      is zero. */
  ghost predicate Counted(j: Journal, lost: bool) {
    && j.written == Upto(|j.written|)
    && if lost then j.file.sender == 0 && j.written != [] else j.file.sender == |j.written|
  }

  ghost predicate Kept(s: Session, acts: seq<Act>) {
    && Log(s, acts).Some?
    && var j := Log(s, acts).value;
       && Inv(j.file) && (j.file.seqnums != [] <==> NumberSaved(acts))
       && Counted(j, Lost(s, acts))
  }

  lemma {:induction false} TransmitKeeps(s: Session, j: Journal, act: Act)
    requires act.Transmit? && Inv(j.file) && Counted(j, false) && Fits(j.file) && Fits(AfterTransmit(s, j, act).file)
    ensures var j' := AfterTransmit(s, j, act); Inv(j'.file) && j'.file.seqnums != [] && Counted(j', false)
  {
    hide Inv, Encoded, Stamped, SeqnumsText, IndexLine;
    var n := j.file.sender + 1;
    SeqnumsKeep(j.file, n, j.file.target);
    AddKeeps(WriteSeqnums(j.file, n, j.file.target), n, Encoded(Stamped(s, n, act.now, act.payload), SOH));
    assert Upto(n) == Upto(n - 1) + [n];
  }

  lemma {:induction false} RestartKeeps(j: Journal, lost: bool)
    requires Inv(j.file) && Fits(j.file) && Counted(j, lost)
    ensures var r := Open(j.file.body, j.file.header, j.file.seqnums);
            && r.Some? && Inv(r.value) && r.value.seqnums == []
            && Counted(j.(file := r.value), lost || !(j.file.seqnums != [] || j.file.sender == 0))
  {
    hide Inv, Open;
    assert j.file.body + [] == j.file.body;
    OpenKeeps(j.file, []);
  }

  lemma {:induction false} NumbersKeep(j: Journal, lost: bool, target: nat)
    requires Inv(j.file) && Counted(j, lost)
    ensures var j' := j.(file := WriteSeqnums(j.file, j.file.sender, target));
            Inv(j'.file) && j'.file.seqnums != [] && Counted(j', lost)
  {
    hide Inv, SeqnumsText;
    SeqnumsKeep(j.file, j.file.sender, target);
  }

  /** Whether the number counts as lost after one more act; `kept` is whether a restart keeps it. */
  predicate LostAfter(act: Act, lost: bool, kept: bool) {
    !act.Clear? && (lost || (act.Restart? && !kept))
  }

  lemma {:induction false} StepCounted(s: Session, j: Journal, act: Act, lost: bool)
    requires Inv(j.file) && Fits(j.file) && Counted(j, lost) && (act.Transmit? ==> !lost)
    requires StepJournal(s, j, act).Some? ==> Fits(StepJournal(s, j, act).value.file)
    ensures StepJournal(s, j, act).Some?
    ensures var j' := StepJournal(s, j, act).value;
            && Inv(j'.file) && (j'.file.seqnums != [] <==> !act.Restart? && !act.Clear?)
            && Counted(j', LostAfter(act, lost, j.file.seqnums != [] || j.file.sender == 0))
  {
    hide Inv, Fits, AfterTransmit, WriteSeqnums, Open, Counted;
    match act {
      case Transmit(_, _) => TransmitKeeps(s, j, act);
      case CountReceived => NumbersKeep(j, lost, j.file.target + 1);
      case SetExpected(n) => NumbersKeep(j, lost, n);
      case Restart => RestartKeeps(j, lost);
      case Clear =>
        FreshInv();
        FreshCounted();
    }
  }

  lemma LostSnoc(s: Session, acts: seq<Act>)
    requires acts != []
    ensures var front, act := acts[..|acts| - 1], acts[|acts| - 1];
            && Lost(s, acts) == LostAfter(act, Lost(s, front), SenderKept(s, front))
            && NumberSaved(acts) == (!act.Restart? && !act.Clear?)
  {
    hide SenderKept;
  }

  lemma {:induction false} StepKept(s: Session, acts: seq<Act>)
    requires acts != [] && Kept(s, acts[..|acts| - 1]) && FitsThroughout(s, acts)
    requires acts[|acts| - 1].Transmit? ==> !Lost(s, acts[..|acts| - 1])
    ensures Kept(s, acts)
  {
    hide Inv, FitsThroughout, Fits, Counted, Log, Lost, NumberSaved, StepJournal;
    var front, act := acts[..|acts| - 1], acts[|acts| - 1];
    FitsPrefix(s, acts);
    FitsPrefix(s, front);
    LogSnoc(s, acts);
    LostSnoc(s, acts);
    StepCounted(s, Log(s, front).value, act, Lost(s, front));
  }

  lemma FreshCounted()
    ensures Counted(Journal(FRESH, []), false)
  {}

  lemma {:induction false} HarmlessKept(s: Session, acts: seq<Act>)
    requires FitsThroughout(s, acts) && Harmless(s, acts)
    ensures Kept(s, acts)
  {
    if acts == [] {
      FreshInv();
      FreshCounted();
    } else {
      hide *;
      HarmlessSnoc(s, acts);
      FitsPrefix(s, acts);
      HarmlessKept(s, acts[..|acts| - 1]);
      StepKept(s, acts);
    }
  }

  /** Sending after the number was lost starts again at one. */
  lemma {:induction false} LossRepeats(s: Session, acts: seq<Act>)
    requires acts != [] && acts[|acts| - 1].Transmit?
    requires Kept(s, acts[..|acts| - 1]) && Lost(s, acts[..|acts| - 1])
    ensures !NoneTwice(s, acts)
  {
    hide Inv, Log, Lost, AfterTransmit;
    LogSnoc(s, acts);
    var j := Log(s, acts[..|acts| - 1]).value;
    TransmitWrites(s, j, acts[|acts| - 1]);
    assert j.written[0] == 1;
    OneAgain(j.written);
  }

  lemma LogSnoc(s: Session, acts: seq<Act>)
    requires acts != [] && Log(s, acts[..|acts| - 1]).Some?
    ensures Log(s, acts) == StepJournal(s, Log(s, acts[..|acts| - 1]).value, acts[|acts| - 1])
  {
    hide StepJournal;
  }

  lemma TransmitWrites(s: Session, j: Journal, act: Act)
    requires act.Transmit?
    ensures AfterTransmit(s, j, act).written == j.written + [j.file.sender + 1]
  {
    hide Encoded, Stamped;
  }

  lemma OneAgain(numbers: seq<nat>)
    requires numbers != [] && numbers[0] == 1
    ensures !Distinct(numbers + [1])
  {
    var all := numbers + [1];
    assert all[0] == all[|numbers|];
  }

  lemma KeptDistinct(s: Session, acts: seq<Act>)
    requires Kept(s, acts)
    ensures NoneTwice(s, acts)
  {
    hide Inv, Log, Lost;
  }

  /** Over every run of sends, receipts, restarts and resets of the file store, no number is
      written twice since the last reset exactly if nothing is sent after a restart that came
      while the sender's number was not in its file, until the next reset. */
  lemma {:induction false} NumbersReused(s: Session, acts: seq<Act>)
    requires FitsThroughout(s, acts)
    ensures NeverTwice(s, acts) <==> Harmless(s, acts)
  {
    if acts == [] {
      assert acts[..0] == [];
    } else {
      hide *;
      var front := acts[..|acts| - 1];
      FitsPrefix(s, acts);
      NumbersReused(s, front);
      HarmlessSnoc(s, acts);
      NeverTwiceSnoc(s, acts);
      if Harmless(s, front) {
        HarmlessKept(s, front);
        if acts[|acts| - 1].Transmit? && Lost(s, front) {
          LossRepeats(s, acts);
        } else {
          StepKept(s, acts);
          KeptDistinct(s, acts);
        }
      }
    }
  }
}
