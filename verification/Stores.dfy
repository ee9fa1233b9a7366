/** The in-memory store and the file store, operation by operation. */
module Stores {
  import opened Decimal
  import opened StoreFiles

  // ----- the plain store -----

  datatype MemState = MemState(sender: nat, target: nat, messages: map<nat, seq<byte>>)

  /** `get_slice`: the stored messages with numbers from `begin` to `end`, in order. */
  function Slice(messages: map<nat, seq<byte>>, begin: nat, end: int): seq<seq<byte>>
    decreases end
  {
    if end < begin then []
    else Slice(messages, begin, end - 1) + if end in messages then [messages[end]] else []
  }

  predicate Increasing(numbers: seq<nat>) {
    forall i, j :: 0 <= i < j < |numbers| ==> numbers[i] < numbers[j]
  }

  /** For every store and range: exactly the stored numbers of the range, in increasing order,
      each with the message stored under it. */
  lemma {:induction false} SliceExact(messages: map<nat, seq<byte>>, begin: nat, end: int) returns (numbers: seq<nat>)
    ensures Increasing(numbers) && |Slice(messages, begin, end)| == |numbers|
    ensures forall n :: n in numbers <==> begin <= n <= end && n in messages
    ensures forall i :: 0 <= i < |numbers| ==>
              numbers[i] in messages && Slice(messages, begin, end)[i] == messages[numbers[i]]
    decreases end
  {
    if end < begin {
      numbers := [];
    } else {
      var before := SliceExact(messages, begin, end - 1);
      numbers := before;
      if end in messages {
        assert forall i :: 0 <= i < |before| ==> before[i] in before;
        numbers := before + [end];
      }
    }
  }

  class InMemoryMessageStore {
    var senderSeqNumber: nat
    var targetSeqNumber: nat
    var messages: map<nat, seq<byte>>

    ghost function State(): MemState
      reads this
    {
      MemState(senderSeqNumber, targetSeqNumber, messages)
    }

    constructor ()
      ensures State() == MemState(0, 0, map[])
    {
      senderSeqNumber, targetSeqNumber, messages := 0, 0, map[];
    }

    method AddMessage(n: nat, message: seq<byte>)
      modifies this
      ensures State() == StepMem(old(State()), Add(n, message))
      ensures messages == old(messages)[n := message]
    {
      messages := messages[n := message];
    }

    method IncrementSenderSeqNumber()
      modifies this
      ensures State() == StepMem(old(State()), IncrementSender)
      ensures senderSeqNumber == old(senderSeqNumber) + 1 && targetSeqNumber == old(targetSeqNumber)
    {
      senderSeqNumber := senderSeqNumber + 1;
    }

    method IncrementTargetSeqNumber()
      modifies this
      ensures State() == StepMem(old(State()), IncrementTarget)
      ensures senderSeqNumber == old(senderSeqNumber) && targetSeqNumber == old(targetSeqNumber) + 1
    {
      targetSeqNumber := targetSeqNumber + 1;
    }

    method SetTargetSeqNumber(n: nat)
      modifies this
      ensures State() == StepMem(old(State()), SetTarget(n))
      ensures senderSeqNumber == old(senderSeqNumber) && targetSeqNumber == n
    {
      targetSeqNumber := n;
    }

    method ResetStore()
      modifies this
      ensures State() == StepMem(old(State()), Reset)
      ensures senderSeqNumber == targetSeqNumber == 0 && messages == map[]
    {
      senderSeqNumber, targetSeqNumber, messages := 0, 0, map[];
    }

    method GetSlice(begin: nat, end: nat) returns (slice: seq<seq<byte>>)
      ensures slice == Slice(messages, begin, end)
    {
      slice := [];
      if begin > end {
        return;
      }
      for n := begin to end + 1
        invariant slice == Slice(messages, begin, n - 1)
      {
        if n in messages {
          slice := slice + [messages[n]];
        }
      }
    }
  }

  // ----- operations -----

  /** The store interface, a restart, and a stop between writing a message's bytes and
      writing its index line, followed by a restart. */
  datatype Op =
    | Add(number: nat, message: seq<byte>)
    | IncrementSender
    | IncrementTarget
    | SetTarget(number: nat)
    | Reset
    | Reopen
    | StopAfterBody(message: seq<byte>)

  /** What a caller expects: restarts change nothing, an unfinished add never happened. */
  function StepMem(s: MemState, op: Op): MemState {
    match op
    case Add(n, message) => s.(messages := s.messages[n := message])
    case IncrementSender => s.(sender := s.sender + 1)
    case IncrementTarget => s.(target := s.target + 1)
    case SetTarget(n) => s.(target := n)
    case Reset => MemState(0, 0, map[])
    case Reopen => s
    case StopAfterBody(_) => s
  }

  // ----- the file store -----

  datatype FileState = FileState(
    body: seq<byte>, header: seq<byte>, seqnums: seq<byte>,
    sender: nat, target: nat, index: map<nat, MessageDef>, offset: nat
  )

  const FRESH := FileState([], [], [], 0, 0, map[], 0)

  function WriteMessage(s: FileState, n: nat, message: seq<byte>): FileState {
    var def := MessageDef(s.offset, |message|);
    s.(body := s.body + message,
       header := s.header + IndexLine(n, def) + [NEWLINE],
       index := s.index[n := def],
       offset := s.offset + |message|)
  }

  function WriteSeqnums(s: FileState, sender: nat, target: nat): FileState {
    s.(seqnums := SeqnumsText(sender, target), sender := sender, target := target)
  }

  /** Opening reads the numbers and then truncates their file; the offset restarts from the
      real body length; the index is loaded from its lines. */
  function Open(body: seq<byte>, header: seq<byte>, seqnums: seq<byte>): Option<FileState> {
    match ReadSeqnums(seqnums)
    case None => None
    case Some((sender, target)) => Some(FileState(body, header, [], sender, target, LoadLines(header, map[]), |body|))
  }

  function StepFile(s: FileState, op: Op): Option<FileState> {
    match op
    case Add(n, message) => Some(WriteMessage(s, n, message))
    case IncrementSender => Some(WriteSeqnums(s, s.sender + 1, s.target))
    case IncrementTarget => Some(WriteSeqnums(s, s.sender, s.target + 1))
    case SetTarget(n) => Some(WriteSeqnums(s, s.sender, n))
    case Reset => Some(FRESH)
    case Reopen => Open(s.body, s.header, s.seqnums)
    case StopAfterBody(message) => Open(s.body + message, s.header, s.seqnums)
  }

  predicate InBody(s: FileState, n: nat)
    requires n in s.index
  {
    s.index[n].offset + s.index[n].size <= |s.body|
  }

  /** Every index entry lies inside the body; the offset is the body length; the index file
      and the number file say what memory says. */
  ghost predicate Inv(s: FileState) {
    && s.offset == |s.body|
    && (forall n :: n in s.index ==> InBody(s, n))
    && Terminated(s.header) && LoadLines(s.header, map[]) == s.index
    && (s.seqnums != [] ==> s.seqnums == SeqnumsText(s.sender, s.target))
  }

  function BytesAt(body: seq<byte>, def: MessageDef): seq<byte>
    requires def.offset + def.size <= |body|
  {
    body[def.offset..def.offset + def.size]
  }

  function Messages(s: FileState): map<nat, seq<byte>>
    requires forall n :: n in s.index ==> InBody(s, n)
  {
    map n | n in s.index :: assert InBody(s, n); BytesAt(s.body, s.index[n])
  }

  /** The plain store this file store stands for. */
  function View(s: FileState): MemState
    requires forall n :: n in s.index ==> InBody(s, n)
  {
    MemState(s.sender, s.target, Messages(s))
  }

  class FileStore {
    var bodyFile: seq<byte>
    var headerFile: seq<byte>
    var seqnumsFile: seq<byte>
    var senderSeqNumber: nat
    var targetSeqNumber: nat
    var messageIndex: map<nat, MessageDef>
    var currentBodyOffset: nat

    ghost function State(): FileState
      reads this
    {
      FileState(bodyFile, headerFile, seqnumsFile, senderSeqNumber, targetSeqNumber, messageIndex, currentBodyOffset)
    }

    constructor ()
      ensures State() == FRESH
    {
      bodyFile, headerFile, seqnumsFile := [], [], [];
      senderSeqNumber, targetSeqNumber, messageIndex, currentBodyOffset := 0, 0, map[], 0;
    }

    /** `FileStore::new` on existing files; fails if the number file does not parse. */
    method OpenFiles(body: seq<byte>, header: seq<byte>, seqnums: seq<byte>) returns (ok: bool)
      modifies this
      ensures ok <==> Open(body, header, seqnums).Some?
      ensures if ok then Some(State()) == Open(body, header, seqnums) else State() == old(State())
    {
      var numbers := ReadSeqnums(seqnums);
      if numbers.None? {
        return false;
      }
      var index := LoadMessageIndex(header);
      bodyFile, headerFile, seqnumsFile := body, header, [];
      senderSeqNumber, targetSeqNumber := numbers.value.0, numbers.value.1;
      messageIndex, currentBodyOffset := index, |body|;
      return true;
    }

    method Add(n: nat, message: seq<byte>)
      modifies this
      ensures State() == WriteMessage(old(State()), n, message)
    {
      var def := MessageDef(currentBodyOffset, |message|);
      bodyFile := bodyFile + message;
      headerFile := headerFile + IndexLine(n, def) + [NEWLINE];
      messageIndex := messageIndex[n := def];
      currentBodyOffset := currentBodyOffset + |message|;
    }

    method WriteSeqnumsWith(sender: nat, target: nat)
      modifies this
      ensures State() == WriteSeqnums(old(State()), sender, target)
    {
      seqnumsFile := SeqnumsText(sender, target);
      senderSeqNumber, targetSeqNumber := sender, target;
    }

    method PerformReset()
      modifies this
      ensures State() == FRESH
    {
      bodyFile, headerFile, seqnumsFile := [], [], [];
      senderSeqNumber, targetSeqNumber, messageIndex, currentBodyOffset := 0, 0, map[], 0;
    }

    /** Any operation; only opening can fail. */
    method Apply(op: Op) returns (ok: bool)
      modifies this
      ensures ok <==> StepFile(old(State()), op).Some?
      ensures ok ==> State() == StepFile(old(State()), op).value
    {
      hide Open, WriteMessage, WriteSeqnums;
      ok := true;
      match op
      case Add(n, message) => Add(n, message);
      case IncrementSender => WriteSeqnumsWith(senderSeqNumber + 1, targetSeqNumber);
      case IncrementTarget => WriteSeqnumsWith(senderSeqNumber, targetSeqNumber + 1);
      case SetTarget(n) => WriteSeqnumsWith(senderSeqNumber, n);
      case Reset => PerformReset();
      case Reopen => ok := OpenFiles(bodyFile, headerFile, seqnumsFile);
      case StopAfterBody(message) => ok := OpenFiles(bodyFile + message, headerFile, seqnumsFile);
    }

    /** `read_messages`: seek and read each indexed message of the range. */
    method GetSlice(begin: nat, end: nat) returns (slice: seq<seq<byte>>)
      requires Inv(State())
      ensures slice == Slice(View(State()).messages, begin, end)
    {
      hide LoadLines, SeqnumsText;
      slice := [];
      if begin > end {
        return;
      }
      ghost var messages := View(State()).messages;
      for n := begin to end + 1
        invariant slice == Slice(messages, begin, n - 1)
      {
        if n in messageIndex {
          var def := messageIndex[n];
          assert InBody(State(), n);
          slice := slice + [bodyFile[def.offset..def.offset + def.size]];
        }
      }
    }
  }
}

/** What the file store guarantees over whole runs, restarts included. */
module StoreRuns {
  import opened Decimal
  import opened StoreFiles
  import opened Stores

  /** Numbers and sizes that fit the machine words the files are parsed into. */
  predicate Fits(s: FileState) {
    |s.body| < U64_LIMIT && s.sender < U64_LIMIT && s.target < U64_LIMIT
  }

  predicate OpFits(op: Op) {
    op.Add? ==> op.number < U64_LIMIT
  }

  ghost predicate AllInBody(s: FileState) {
    forall n :: n in s.index ==> InBody(s, n)
  }

  /** Bytes appended to the body leave every indexed message where it was. */
  lemma {:induction false} BodyGrows(s: FileState, s': FileState, more: seq<byte>)
    requires AllInBody(s) && s'.index == s.index && s'.body == s.body + more
    ensures AllInBody(s') && Messages(s') == Messages(s)
  {
    forall n | n in s'.index ensures InBody(s', n) && BytesAt(s'.body, s'.index[n]) == BytesAt(s.body, s.index[n]) {
      assert InBody(s, n);
    }
  }

  lemma {:induction false} EntryAdded(s: FileState, s': FileState, n: nat, def: MessageDef)
    requires AllInBody(s) && s'.body == s.body && s'.index == s.index[n := def] && def.offset + def.size <= |s.body|
    ensures AllInBody(s') && Messages(s') == Messages(s)[n := BytesAt(s.body, def)]
  {
    forall k | k in s'.index ensures InBody(s', k) {
      if k != n {
        assert InBody(s, k);
      }
    }
  }

  lemma {:induction false} LineAdded(s: FileState, n: nat, message: seq<byte>)
    requires Inv(s) && Fits(s) && n < U64_LIMIT && Fits(WriteMessage(s, n, message))
    ensures var s' := WriteMessage(s, n, message); Terminated(s'.header) && LoadLines(s'.header, map[]) == s'.index
  {
    hide SeqnumsText, IndexLine;
    var def := MessageDef(s.offset, |message|);
    LineRoundTrip(n, def, s.index);
    LoadAppended(s.header, IndexLine(n, def), map[]);
  }

  lemma {:induction false} AddKeeps(s: FileState, n: nat, message: seq<byte>)
    requires Inv(s) && Fits(s) && n < U64_LIMIT && Fits(WriteMessage(s, n, message))
    ensures Inv(WriteMessage(s, n, message))
    ensures View(WriteMessage(s, n, message)) == StepMem(View(s), Add(n, message))
  {
    LineAdded(s, n, message);
    hide SeqnumsText, LoadLines, IndexLine;
    var def, grown := MessageDef(s.offset, |message|), s.(body := s.body + message);
    assert AllInBody(s);
    BodyGrows(s, grown, message);
    EntryAdded(grown, WriteMessage(s, n, message), n, def);
    assert BytesAt(grown.body, def) == message;
  }

  lemma SeqnumsKeep(s: FileState, sender: nat, target: nat)
    requires Inv(s)
    ensures Inv(WriteSeqnums(s, sender, target))
    ensures View(WriteSeqnums(s, sender, target)) == View(s).(sender := sender, target := target)
  {
    hide LoadLines, SeqnumsText;
    assert AllInBody(s);
    assert s.body + [] == s.body;
    BodyGrows(s, WriteSeqnums(s, sender, target), []);
  }

  /** A restart, possibly with stray bytes at the end of the body: every message is still
      there, and the numbers are those of the file, or zero if it was empty. */
  lemma {:induction false} OpenKeeps(s: FileState, stray: seq<byte>)
    requires Inv(s) && Fits(s)
    ensures Open(s.body + stray, s.header, s.seqnums).Some?
    ensures var s' := Open(s.body + stray, s.header, s.seqnums).value;
            && Inv(s') && s'.seqnums == []
            && Messages(s') == Messages(s)
            && (s'.sender, s'.target) == if s.seqnums == [] then (0, 0) else (s.sender, s.target)
  {
    SeqnumsRoundTrip(s.sender, s.target);
    assert ReadSeqnums([]) == Some((0, 0));
    hide LoadLines, SeqnumsText, ReadSeqnums;
    assert AllInBody(s);
    BodyGrows(s, Open(s.body + stray, s.header, s.seqnums).value, stray);
  }

  lemma FreshInv()
    ensures Inv(FRESH) && View(FRESH) == MemState(0, 0, map[])
  {
    assert LoadLines([], map[]) == map[];
    assert Messages(FRESH) == map[];
  }

  // ----- runs -----

  function Run(ops: seq<Op>): Option<FileState> {
    if ops == [] then Some(FRESH)
    else
      match Run(ops[..|ops| - 1])
      case None => None
      case Some(s) => StepFile(s, ops[|ops| - 1])
  }

  function Ideal(ops: seq<Op>): MemState {
    if ops == [] then MemState(0, 0, map[]) else StepMem(Ideal(ops[..|ops| - 1]), ops[|ops| - 1])
  }

  predicate Sets(ops: seq<Op>) {
    exists i :: 0 <= i < |ops| && ops[i].SetTarget?
  }

  predicate Adds(ops: seq<Op>, n: nat) {
    exists i :: 0 <= i < |ops| && ops[i].Add? && ops[i].number == n
  }

  /** Without a reset the numbers grow by one for each time they are advanced, and a message stays
      until another one is added under its number. */
  lemma {:induction false} Carried(front: seq<Op>, tail: seq<Op>, n: nat)
    requires Reset !in tail
    ensures var s, s' := Ideal(front), Ideal(front + tail);
            && s'.sender == s.sender + multiset(tail)[IncrementSender]
            && (!Sets(tail) ==> s'.target == s.target + multiset(tail)[IncrementTarget])
            && (!Adds(tail, n) ==>
                  && (n in s'.messages <==> n in s.messages)
                  && (n in s.messages ==> s'.messages[n] == s.messages[n]))
    decreases |tail|
  {
    if tail == [] {
      assert front + tail == front;
    } else {
      var k := |tail| - 1;
      assert front + tail == front + tail[..k] + [tail[k]];
      LastStep(front + tail[..k], tail[k]);
      Carried(front, tail[..k], n);
      CountLast(tail, IncrementSender);
      CountLast(tail, IncrementTarget);
      assert Sets(tail[..k]) || tail[k].SetTarget? ==> Sets(tail);
      assert Adds(tail[..k], n) || (tail[k].Add? && tail[k].number == n) ==> Adds(tail, n);
      hide Ideal, Sets, Adds;
    }
  }

  lemma CountLast(ops: seq<Op>, op: Op)
    requires ops != []
    ensures multiset(ops)[op] == multiset(ops[..|ops| - 1])[op] + if ops[|ops| - 1] == op then 1 else 0
  {
    assert ops == ops[..|ops| - 1] + [ops[|ops| - 1]];
  }

  /** What a run leaves behind: the sender's number counts its advances since the last reset; the
      target's counts them since it was last set, from there; under every number is the message
      added last, if one was since the last reset. */
  lemma {:induction false} RunLeaves(front: seq<Op>, tail: seq<Op>, target: nat, n: nat, message: seq<byte>)
    requires Reset !in tail
    ensures Ideal(front + [Reset] + tail).sender == multiset(tail)[IncrementSender]
    ensures !Sets(tail) ==>
              && Ideal(front + [Reset] + tail).target == multiset(tail)[IncrementTarget]
              && Ideal(front + [SetTarget(target)] + tail).target == target + multiset(tail)[IncrementTarget]
    ensures !Adds(tail, n) ==>
              && n !in Ideal(front + [Reset] + tail).messages
              && n in Ideal(front + [Add(n, message)] + tail).messages
              && Ideal(front + [Add(n, message)] + tail).messages[n] == message
  {
    assert Ideal(front + [Reset]) == MemState(0, 0, map[]) by { LastStep(front, Reset); }
    LastStep(front, SetTarget(target));
    LastStep(front, Add(n, message));
    Carried(front + [Reset], tail, n);
    Carried(front + [SetTarget(target)], tail, n);
    Carried(front + [Add(n, message)], tail, n);
  }

  lemma LastStep(front: seq<Op>, op: Op)
    ensures Ideal(front + [op]) == StepMem(Ideal(front), op)
  {
    assert (front + [op])[..|front + [op]| - 1] == front;
  }

  /** No number or size ever outgrows its machine word. */
  ghost predicate Bounded(ops: seq<Op>) {
    && (forall i :: 0 <= i < |ops| ==> OpFits(ops[i]))
    && forall i :: 0 <= i <= |ops| ==> Run(ops[..i]).Some? ==> Fits(Run(ops[..i]).value)
  }

  /** Whether a sequence number was written since the store was last opened or reset. */
  predicate NumberWritten(ops: seq<Op>) {
    ops != [] &&
    match ops[|ops| - 1]
    case Add(_, _) => NumberWritten(ops[..|ops| - 1])
    case IncrementSender => true
    case IncrementTarget => true
    case SetTarget(_) => true
    case Reset => false
    case Reopen => false
    case StopAfterBody(_) => false
  }

  lemma BoundedPrefix(ops: seq<Op>)
    requires Bounded(ops) && ops != []
    ensures Bounded(ops[..|ops| - 1]) && OpFits(ops[|ops| - 1])
    ensures Run(ops).Some? ==> Fits(Run(ops).value)
  {
    hide Run, Fits;
    var front := ops[..|ops| - 1];
    assert ops[..|ops|] == ops;
    forall i | 0 <= i <= |front| && Run(front[..i]).Some? ensures Fits(Run(front[..i]).value) {
      assert front[..i] == ops[..i];
    }
  }

  /** Every run, restarts and unfinished adds included, can be carried out, keeps the file
      store's invariant and holds exactly the messages a plain map would hold. */
  lemma {:induction false} RunKeepsMessages(ops: seq<Op>)
    requires Bounded(ops)
    ensures Run(ops).Some? && Inv(Run(ops).value)
    ensures Messages(Run(ops).value) == Ideal(ops).messages
    ensures Run(ops).value.seqnums != [] <==> NumberWritten(ops)
  {
    if ops == [] {
      FreshInv();
    } else {
      var front, op := ops[..|ops| - 1], ops[|ops| - 1];
      BoundedPrefix(ops);
      RunKeepsMessages(front);
      var s := Run(front).value;
      assert Fits(s) by {
        assert ops[..|front|] == front;
      }
      StepKeeps(s, op);
    }
  }

  lemma {:induction false} StepKeeps(s: FileState, op: Op)
    requires Inv(s) && Fits(s) && OpFits(op) && (StepFile(s, op).Some? ==> Fits(StepFile(s, op).value))
    ensures StepFile(s, op).Some? && Inv(StepFile(s, op).value)
    ensures Messages(StepFile(s, op).value) == StepMem(View(s), op).messages
    ensures StepFile(s, op).value.seqnums != [] <==>
            (op.Add? && s.seqnums != []) || op.IncrementSender? || op.IncrementTarget? || op.SetTarget?
    ensures !op.Reopen? && !op.StopAfterBody? ==> View(StepFile(s, op).value) == StepMem(View(s), op)
    ensures op.Reopen? || op.StopAfterBody? ==>
              var s' := StepFile(s, op).value;
              (s'.sender, s'.target) == if s.seqnums == [] then (0, 0) else (s.sender, s.target)
  {
    match op
    case Add(n, message) => AddKeeps(s, n, message);
    case IncrementSender => SeqnumsKeep(s, s.sender + 1, s.target);
    case IncrementTarget => SeqnumsKeep(s, s.sender, s.target + 1);
    case SetTarget(n) => SeqnumsKeep(s, s.sender, n);
    case Reset => FreshInv();
    case Reopen =>
      assert s.body + [] == s.body;
      OpenKeeps(s, []);
    case StopAfterBody(message) => OpenKeeps(s, message);
  }

  /** A restart recovers the live pair of numbers exactly when one was written since the last
      open or reset, or both are zero anyway: opening empties the number file. */
  lemma {:induction false} ReopenRecovers(ops: seq<Op>)
    requires Bounded(ops) && Bounded(ops + [Reopen])
    ensures Run(ops).Some? && Run(ops + [Reopen]).Some?
    ensures var s, s' := Run(ops).value, Run(ops + [Reopen]).value;
            (s'.sender, s'.target) == (s.sender, s.target) <==> NumberWritten(ops) || (s.sender, s.target) == (0, 0)
  {
    RunKeepsMessages(ops);
    RunKeepsMessages(ops + [Reopen]);
    assert (ops + [Reopen])[..|ops|] == ops && ops[..|ops|] == ops;
    var s := Run(ops).value;
    assert Fits(s);
    StepKeeps(s, Reopen);
  }

  predicate IsOpen(op: Op) {
    op.Reopen? || op.StopAfterBody?
  }

  /** Every restart of the run comes at a point where the numbers can be recovered. */
  ghost predicate Recoverable(ops: seq<Op>) {
    forall i :: 0 <= i < |ops| && IsOpen(ops[i]) ==>
      RecoverableNow(ops[..i])
  }

  /** After this run the file store is the plain store: same numbers, same messages, hence the
      same slices. */
  ghost predicate Agree(ops: seq<Op>) {
    Run(ops).Some? && Inv(Run(ops).value) && View(Run(ops).value) == Ideal(ops)
  }

  ghost predicate AgreeThroughout(ops: seq<Op>) {
    forall i :: 0 <= i <= |ops| ==> Agree(ops[..i])
  }

  predicate RecoverableNow(ops: seq<Op>) {
    NumberWritten(ops) || (Ideal(ops).sender, Ideal(ops).target) == (0, 0)
  }

  lemma {:induction false} RecoverableSnoc(ops: seq<Op>)
    requires ops != []
    ensures var front, op := ops[..|ops| - 1], ops[|ops| - 1];
            Recoverable(ops) <==> Recoverable(front) && (IsOpen(op) ==> RecoverableNow(front))
  {
    hide NumberWritten, Ideal, IsOpen;
    var front := ops[..|ops| - 1];
    assert forall i :: 0 <= i < |front| ==> front[i] == ops[i] && front[..i] == ops[..i];
  }

  lemma {:induction false} AgreeSnoc(ops: seq<Op>)
    requires ops != []
    ensures AgreeThroughout(ops) <==> AgreeThroughout(ops[..|ops| - 1]) && Agree(ops)
  {
    hide Agree;
    var front := ops[..|ops| - 1];
    assert forall i :: 0 <= i <= |front| ==> front[..i] == ops[..i];
    assert ops[..|ops|] == ops;
  }

  /** One more operation keeps the stores in agreement, unless it is a restart at a point where
      the numbers are lost. */
  lemma {:induction false} AgreeStep(ops: seq<Op>)
    requires Bounded(ops) && ops != [] && Agree(ops[..|ops| - 1])
    ensures var front, op := ops[..|ops| - 1], ops[|ops| - 1];
            Agree(ops) <==> (IsOpen(op) ==> RecoverableNow(front))
  {
    var front, op := ops[..|ops| - 1], ops[|ops| - 1];
    BoundedPrefix(ops);
    RunKeepsMessages(front);
    RunKeepsMessages(ops);
    var s := Run(front).value;
    assert Fits(s) by {
      assert ops[..|front|] == front;
    }
    assert Run(ops) == StepFile(s, op) && Ideal(ops) == StepMem(Ideal(front), op);
    hide Run, Ideal, NumberWritten, Inv, Bounded;
    StepKeeps(s, op);
  }

  /** The file store is the plain store all through a run exactly if every restart comes at a
      point where the numbers can be recovered. */
  lemma {:induction false} FileRefinesMemory(ops: seq<Op>)
    requires Bounded(ops)
    ensures AgreeThroughout(ops) <==> Recoverable(ops)
  {
    if ops == [] {
      FreshInv();
      assert Agree([]) && ops[..0] == [];
    } else {
      hide *;
      BoundedPrefix(ops);
      FileRefinesMemory(ops[..|ops| - 1]);
      RecoverableSnoc(ops);
      AgreeSnoc(ops);
      if AgreeThroughout(ops[..|ops| - 1]) {
        AgreeNow(ops[..|ops| - 1]);
        AgreeStep(ops);
      }
    }
  }

  lemma AgreeNow(ops: seq<Op>)
    requires AgreeThroughout(ops)
    ensures Agree(ops)
  {
    hide Agree;
    assert ops[..|ops|] == ops;
  }

  /** Without the condition the numbers are lost: after any run, two restarts in a row leave
      both at zero. */
  lemma {:induction false} SecondReopenForgets(ops: seq<Op>)
    requires Bounded(ops)
    ensures Run(ops + [Reopen] + [Reopen]).Some?
    ensures var s := Run(ops + [Reopen] + [Reopen]).value; (s.sender, s.target) == (0, 0)
  {
    RunKeepsMessages(ops);
    assert ops[..|ops|] == ops;
    var s := Run(ops).value;
    assert Fits(s);
    var once, twice := ops + [Reopen], ops + [Reopen] + [Reopen];
    assert once[..|ops|] == ops && twice[..|once|] == once;
    assert Run(once) == StepFile(s, Reopen) && s.body + [] == s.body;
    OpenKeeps(s, []);
    var s' := Run(once).value;
    assert s'.body + [] == s'.body && Fits(s');
    OpenKeeps(s', []);
  }
}
