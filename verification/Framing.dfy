/** Cutting the incoming byte stream into messages by their announced BodyLength. */
module Framing {
  import opened Decimal
  import opened Fields
  import opened Wire
  import opened Messages
  import opened BodyLengths
  import opened Reading
  import opened RoundTrip

  // ----- one frame -----

  /** Digit accumulation as it runs on bytes and machine words: both wrap around. */
  function Nominal(s: seq<byte>): (n: nat)
    ensures n < U64_LIMIT
  {
    if s == [] then 0 else (Nominal(s[..|s| - 1]) * 10 + (s[|s| - 1] as int - 48) % 256) % U64_LIMIT
  }

  /** Place values with each byte taken modulo 256. */
  function WrappedValue(s: seq<byte>): nat {
    if s == [] then 0 else (s[0] as int - 48) % 256 * Power10(|s| - 1) + WrappedValue(s[1..])
  }

  lemma {:induction false} WrappedSnoc(s: seq<byte>, b: byte)
    ensures WrappedValue(s + [b]) == WrappedValue(s) * 10 + (b as int - 48) % 256
  {
    if s == [] {
      assert ([] + [b])[1..] == [];
    } else {
      assert (s + [b])[1..] == s[1..] + [b] && (s + [b])[0] == s[0];
      WrappedSnoc(s[1..], b);
      var d, p := (s[0] as int - 48) % 256, Power10(|s| - 1);
      assert Power10(|s|) == 10 * p;
      assert d * (10 * p) == d * p * 10;
    }
  }

  /** Whatever the bytes are, the accumulated length is their value modulo 2^64. */
  lemma {:induction false} NominalWeighs(s: seq<byte>)
    ensures Nominal(s) == WrappedValue(s) % U64_LIMIT
  {
    if s != [] {
      var front, d := s[..|s| - 1], (s[|s| - 1] as int - 48) % 256;
      assert s == front + [s[|s| - 1]];
      WrappedSnoc(front, s[|s| - 1]);
      NominalWeighs(front);
      hide WrappedValue;
      CarryMod(WrappedValue(front), d);
    }
  }

  lemma {:induction false} CarryMod(n: nat, d: nat)
    ensures (n % U64_LIMIT * 10 + d) % U64_LIMIT == (n * 10 + d) % U64_LIMIT
  {
    var q := n / U64_LIMIT;
    assert n * 10 + d == n % U64_LIMIT * 10 + d + q * 10 * U64_LIMIT;
    WholeTurns(n % U64_LIMIT * 10 + d, q * 10);
  }

  lemma {:induction false} WholeTurns(n: nat, q: nat)
    ensures (n + q * U64_LIMIT) % U64_LIMIT == n % U64_LIMIT
  {
    if q > 0 {
      WholeTurns(n, q - 1);
      assert n + q * U64_LIMIT == n + (q - 1) * U64_LIMIT + U64_LIMIT;
    }
  }

  /** `message_length`: the end of the second field, its value and the checksum field, added up
      with wrap-around. */
  function MessageLength(end1: nat, nominal: nat): (n: nat)
    ensures n < U64_LIMIT
  {
    (end1 + 1 + nominal + CHECKSUM_LENGTH) % U64_LIMIT
  }

  /** `HeaderInfo::parse` and `message_length`: the value of the second field, wherever it is
      complete, sets the length of the frame. */
  function FrameLength(data: seq<byte>): (r: Option<nat>)
    ensures r.Some? ==> r.value < U64_LIMIT
  {
    match FindByte(data, 0, EQUALS)
    case None => None
    case Some(eq0) =>
      match FindByte(data, eq0 + 1, SOH)
      case None => None
      case Some(end0) =>
        match FindByte(data, end0 + 1, EQUALS)
        case None => None
        case Some(eq1) =>
          match FindByte(data, eq1 + 1, SOH)
          case None => None
          case Some(end1) => Some(MessageLength(end1, Nominal(data[eq1 + 1..end1])))
  }

  predicate Complete(data: seq<byte>) {
    FrameLength(data).Some? && 0 < FrameLength(data).value <= |data|
  }

  /** The sum has wrapped around to zero: the loop cuts off empty messages and never ends. */
  predicate Stalls(data: seq<byte>) {
    FrameLength(data) == Some(0)
  }

  // ----- the stream -----

  datatype Framed = Framed(messages: seq<seq<byte>>, rest: seq<byte>)

  function Frames(data: seq<byte>): Framed
    decreases |data|
  {
    if Complete(data) then
      var n := FrameLength(data).value;
      var tail := Frames(data[n..]);
      Framed([data[..n]] + tail.messages, tail.rest)
    else
      Framed([], data)
  }

  method Accumulate(digits: seq<byte>) returns (n: nat)
    ensures n == Nominal(digits)
  {
    n := 0;
    for i := 0 to |digits|
      invariant n == Nominal(digits[..i])
    {
      assert digits[..i + 1][..i] == digits[..i];
      n := (n * 10 + (digits[i] as int - 48) % 256) % U64_LIMIT;
    }
    assert digits[..|digits|] == digits;
  }

  class StreamParser {
    var buffer: seq<byte>

    constructor ()
      ensures buffer == []
    {
      buffer := [];
    }

    method ParseHeader() returns (length: Option<nat>)
      ensures length == FrameLength(buffer)
    {
      hide FindByte, Nominal, MessageLength;
      var eq0 := FindByte(buffer, 0, EQUALS);
      if eq0.None? { return None; }
      var end0 := FindByte(buffer, eq0.value + 1, SOH);
      if end0.None? { return None; }
      var eq1 := FindByte(buffer, end0.value + 1, EQUALS);
      if eq1.None? { return None; }
      var end1 := FindByte(buffer, eq1.value + 1, SOH);
      if end1.None? { return None; }
      var n := Accumulate(buffer[eq1.value + 1..end1.value]);
      return Some(MessageLength(end1.value, n));
    }

    /** Appends what arrived and cuts off every message that is now complete. Where `stalled`
        is reported the original does not return. */
    method Parse(data: seq<byte>) returns (messages: seq<seq<byte>>, stalled: bool)
      modifies this
      ensures Framed(messages, buffer) == Frames(old(buffer) + data)
      ensures stalled <==> Stalls(buffer)
    {
      hide *;
      messages, stalled := [], false;
      buffer := buffer + data;
      ghost var all := buffer;
      assert [] + Frames(all).messages == Frames(all).messages;
      while true
        invariant Frames(all) == Framed(messages + Frames(buffer).messages, Frames(buffer).rest)
        decreases |buffer|
      {
        var length := ParseHeader();
        if length.None? || length.value > |buffer| || length.value == 0 {
          NoStep(buffer);
          assert messages + [] == messages;
          stalled := length == Some(0);
          return;
        }
        FrameStep(buffer);
        var message, remainder := buffer[..length.value], buffer[length.value..];
        assert messages + ([message] + Frames(remainder).messages) == messages + [message] + Frames(remainder).messages;
        messages := messages + [message];
        buffer := remainder;
      }
    }
  }

  // ----- chunking -----

  lemma FindExtended(data: seq<byte>, more: seq<byte>, from: nat, b: byte)
    requires from <= |data| && FindByte(data, from, b).Some?
    ensures FindByte(data + more, from, b) == FindByte(data, from, b)
  {
    var k := FindByte(data, from, b).value;
    assert forall i :: from <= i <= k ==> (data + more)[i] == data[i];
    FoundByte(data + more, from, b, k);
  }

  /** Once the length of a frame is known, further bytes do not change it. */
  lemma {:induction false} LengthExtended(data: seq<byte>, more: seq<byte>)
    requires FrameLength(data).Some?
    ensures FrameLength(data + more) == FrameLength(data)
  {
    hide *;
    var eq0, end0, eq1, end1 := FrameParts(data);
    FindExtended(data, more, 0, EQUALS);
    FindExtended(data, more, eq0 + 1, SOH);
    FindExtended(data, more, end0 + 1, EQUALS);
    FindExtended(data, more, eq1 + 1, SOH);
    FrameFromParts(data + more, eq0, end0, eq1, end1);
    assert (data + more)[eq1 + 1..end1] == data[eq1 + 1..end1];
  }

  /** Where the first two fields of a frame are. */
  lemma FrameParts(data: seq<byte>) returns (eq0: nat, end0: nat, eq1: nat, end1: nat)
    requires FrameLength(data).Some?
    ensures eq0 < end0 < eq1 < end1 < |data|
    ensures FindByte(data, 0, EQUALS) == Some(eq0) && FindByte(data, eq0 + 1, SOH) == Some(end0)
    ensures FindByte(data, end0 + 1, EQUALS) == Some(eq1) && FindByte(data, eq1 + 1, SOH) == Some(end1)
    ensures FrameLength(data) == Some(MessageLength(end1, Nominal(data[eq1 + 1..end1])))
  {
    hide FindByte, Nominal, MessageLength;
    eq0 := FindByte(data, 0, EQUALS).value;
    end0 := FindByte(data, eq0 + 1, SOH).value;
    eq1 := FindByte(data, end0 + 1, EQUALS).value;
    end1 := FindByte(data, eq1 + 1, SOH).value;
  }

  lemma FrameFromParts(data: seq<byte>, eq0: nat, end0: nat, eq1: nat, end1: nat)
    requires eq0 < end0 < eq1 < end1 < |data|
    requires FindByte(data, 0, EQUALS) == Some(eq0) && FindByte(data, eq0 + 1, SOH) == Some(end0)
    requires FindByte(data, end0 + 1, EQUALS) == Some(eq1) && FindByte(data, eq1 + 1, SOH) == Some(end1)
    ensures FrameLength(data) == Some(MessageLength(end1, Nominal(data[eq1 + 1..end1])))
  {
    hide FindByte, Nominal, MessageLength;
  }

  /** Framing can stop at any byte and go on with the leftover. */
  lemma {:induction false} FramesResume(data: seq<byte>, more: seq<byte>)
    ensures var first := Frames(data);
            var second := Frames(first.rest + more);
            Frames(data + more) == Framed(first.messages + second.messages, second.rest)
    decreases |data|
  {
    hide *;
    if Complete(data) {
      CompleteExtended(data, more);
      var n := FrameLength(data).value;
      FrameStep(data);
      FrameStep(data + more);
      assert (data + more)[..n] == data[..n] && (data + more)[n..] == data[n..] + more;
      FramesResume(data[n..], more);
      var first, second := Frames(data[n..]), Frames(Frames(data[n..]).rest + more);
      assert [data[..n]] + first.messages + second.messages == [data[..n]] + (first.messages + second.messages);
    } else {
      NoFrameYet(data);
      var second := Frames(data + more);
      assert [] + second.messages == second.messages;
    }
  }

  lemma NoFrameYet(data: seq<byte>)
    requires !Complete(data)
    ensures Frames(data) == Framed([], data)
  {
    hide FrameLength;
  }

  lemma CompleteExtended(data: seq<byte>, more: seq<byte>)
    requires Complete(data)
    ensures FrameLength(data).Some? && 0 < FrameLength(data).value <= |data|
    ensures Complete(data + more) && FrameLength(data + more) == FrameLength(data)
  {
    hide FrameLength;
    LengthExtended(data, more);
  }

  lemma NoStep(data: seq<byte>)
    requires FrameLength(data).None? || FrameLength(data).value > |data| || FrameLength(data).value == 0
    ensures Frames(data) == Framed([], data) && (Stalls(data) <==> FrameLength(data) == Some(0))
  {
    hide FrameLength;
  }

  lemma FrameStep(data: seq<byte>)
    requires FrameLength(data).Some? && 0 < FrameLength(data).value <= |data|
    ensures var n := FrameLength(data).value;
            Frames(data) == Framed([data[..n]] + Frames(data[n..]).messages, Frames(data[n..]).rest)
  {}

  function Concat(chunks: seq<seq<byte>>): seq<byte> {
    if chunks == [] then [] else chunks[0] + Concat(chunks[1..])
  }

  /** What a parser with `buffer` left over cuts off when fed chunk after chunk. */
  function Feed(buffer: seq<byte>, chunks: seq<seq<byte>>): Framed
    decreases |chunks|
  {
    if chunks == [] then Framed([], buffer)
    else
      var first := Frames(buffer + chunks[0]);
      var later := Feed(first.rest, chunks[1..]);
      Framed(first.messages + later.messages, later.rest)
  }

  /** The leftover never holds a complete message. */
  lemma {:induction false} LeftoverIncomplete(data: seq<byte>)
    ensures !Complete(Frames(data).rest)
    decreases |data|
  {
    hide FrameLength;
    if Complete(data) {
      LeftoverIncomplete(data[FrameLength(data).value..]);
    }
  }

  /** Messages and leftover together are the input: no byte is lost, added or moved. */
  lemma {:induction false} BytesConserved(data: seq<byte>)
    ensures Concat(Frames(data).messages) + Frames(data).rest == data
    decreases |data|
  {
    hide *;
    if Complete(data) {
      CompleteExtended(data, []);
      FrameStep(data);
      var n := FrameLength(data).value;
      BytesConserved(data[n..]);
      var tail := Frames(data[n..]);
      ConcatCons(data[..n], tail.messages);
      Associative(data[..n], Concat(tail.messages), tail.rest);
      assert data[..n] + data[n..] == data;
    } else {
      NoFrameYet(data);
      ConcatNone();
    }
  }

  lemma ConcatNone()
    ensures Concat([]) == []
  {}

  lemma ConcatCons(first: seq<byte>, rest: seq<seq<byte>>)
    ensures Concat([first] + rest) == first + Concat(rest)
  {
    assert ([first] + rest)[1..] == rest;
  }

  /** However the stream is cut into chunks, the loop cuts off the same messages and the same
      bytes stay behind. */
  lemma {:induction false} ChunkingIrrelevant(buffer: seq<byte>, chunks: seq<seq<byte>>)
    requires !Complete(buffer)
    ensures Feed(buffer, chunks) == Frames(buffer + Concat(chunks))
    decreases |chunks|
  {
    hide FrameLength;
    if chunks == [] {
      assert buffer + Concat(chunks) == buffer;
    } else {
      var first := Frames(buffer + chunks[0]);
      LeftoverIncomplete(buffer + chunks[0]);
      ChunkingIrrelevant(first.rest, chunks[1..]);
      FramesResume(buffer + chunks[0], Concat(chunks[1..]));
      Associative(buffer, chunks[0], Concat(chunks[1..]));
    }
  }

  // ----- what callers get -----

  /** What the calls hand out, chunk after chunk: a call that stalls never returns, so nothing
      it cut off is handed out, and there is no further call. */
  function Delivered(buffer: seq<byte>, chunks: seq<seq<byte>>): seq<seq<byte>>
    decreases |chunks|
  {
    if chunks == [] then []
    else
      var first := Frames(buffer + chunks[0]);
      if Stalls(first.rest) then [] else first.messages + Delivered(first.rest, chunks[1..])
  }

  /** A stream that stalls when cut goes on stalling, and nothing more is cut off. */
  lemma {:induction false} StalledRest(data: seq<byte>, more: seq<byte>)
    requires Stalls(Frames(data).rest)
    ensures Stalls(Frames(data + more).rest) && Frames(data + more).messages == Frames(data).messages
  {
    hide *;
    FramesResume(data, more);
    StalledForGood(Frames(data).rest, more);
    assert Frames(data).messages + [] == Frames(data).messages;
  }

  /** Unless the stream stalls, every chunking hands out all its messages. */
  lemma {:induction false} AllHandedOut(buffer: seq<byte>, chunks: seq<seq<byte>>)
    requires !Complete(buffer) && !Stalls(Frames(buffer + Concat(chunks)).rest)
    ensures Delivered(buffer, chunks) == Frames(buffer + Concat(chunks)).messages
    decreases |chunks|
  {
    hide Complete, Stalls, Frames;
    if chunks == [] {
      assert buffer + Concat(chunks) == buffer;
      NoFrameYet(buffer);
    } else {
      var data, more := buffer + chunks[0], Concat(chunks[1..]);
      Associative(buffer, chunks[0], more);
      LeftoverIncomplete(data);
      FramesResume(data, more);
      if Stalls(Frames(data).rest) {
        StalledRest(data, more);
      } else {
        AllHandedOut(Frames(data).rest, chunks[1..]);
      }
    }
  }

  /** No chunking hands out anything but a first part of the messages. */
  lemma {:induction false} PartHandedOut(buffer: seq<byte>, chunks: seq<seq<byte>>)
    requires !Complete(buffer)
    ensures Delivered(buffer, chunks) <= Frames(buffer + Concat(chunks)).messages
    decreases |chunks|
  {
    hide Complete, Stalls, Frames;
    if chunks != [] {
      var data, more := buffer + chunks[0], Concat(chunks[1..]);
      Associative(buffer, chunks[0], more);
      LeftoverIncomplete(data);
      FramesResume(data, more);
      PartHandedOut(Frames(data).rest, chunks[1..]);
    }
  }

  ghost predicate ChunkingUnseen(data: seq<byte>) {
    forall chunks :: Concat(chunks) == data ==> Delivered([], chunks) == Frames(data).messages
  }

  /** Callers get the same messages however a stream is cut into chunks exactly if it does not
      stall or holds no message before it does: a stall keeps back what the same call cut off. */
  lemma {:induction false} DeliveryExact(data: seq<byte>)
    ensures ChunkingUnseen(data) <==> !Stalls(Frames(data).rest) || Frames(data).messages == []
  {
    hide Frames, Stalls, Delivered;
    NoFrame();
    LeftoverIncomplete([]);
    forall chunks | Concat(chunks) == data
      ensures !Stalls(Frames(data).rest) || Frames(data).messages == []
              ==> Delivered([], chunks) == Frames(data).messages
    {
      assert [] + Concat(chunks) == data;
      PartHandedOut([], chunks);
      if !Stalls(Frames(data).rest) {
        AllHandedOut([], chunks);
      }
    }
    OneChunk(data);
  }

  lemma OneChunk(data: seq<byte>)
    ensures Concat([data]) == data
    ensures Stalls(Frames(data).rest) ==> Delivered([], [data]) == []
  {
    hide Frames, Stalls;
    assert [data][1..] == [] && Concat([]) == [] && data + [] == data && [] + data == data;
  }

  // ----- framing and encoding -----

  lemma {:induction false} NominalPlain(s: seq<byte>)
    requires AllDigits(s) && Horner(s) < U64_LIMIT
    ensures Nominal(s) == Horner(s)
  {
    if s != [] {
      var front, digit := s[..|s| - 1], s[|s| - 1] as int - 48;
      assert Horner(s) == Horner(front) * 10 + digit && 0 <= digit < 10;
      HornerNonNegative(front);
      NominalPlain(front);
      assert Nominal(s) == (Nominal(front) * 10 + digit % 256) % U64_LIMIT;
      hide Nominal, Horner;
      SmallNumber(Horner(front) * 10 + digit);
      assert digit % 256 == digit;
    }
  }

  lemma SmallNumber(n: nat)
    requires n < U64_LIMIT
    ensures n % U64_LIMIT == n
  {}

  /** If the first two fields are complete, the second one's value sets the frame length. */
  lemma {:induction false} FrameOfFields(raw: seq<byte>, f: Field, end0: nat, g: Field, end1: nat)
    requires FieldAt(raw, SOH, 0) == Some((f, end0)) && end0 < |raw| && FieldAt(raw, SOH, end0 + 1) == Some((g, end1))
    requires AllDigits(g.data) && Horner(g.data) < U64_LIMIT
    ensures Horner(g.data) >= 0 && FrameLength(raw) == Some(MessageLength(end1, Horner(g.data)))
  {
    hide FindByte, Nominal, TagOf, MessageLength;
    HornerNonNegative(g.data);
    NominalPlain(g.data);
  }

  /** A message the sender can frame: field 8 present and free of the separator, no group
      without its count field, and a length that fits a machine word. */
  ghost predicate Framable(m: Parts) {
    && ValidParts(m) && HeaderLeads(m.header) && NoOrphans(m)
    && Separable(FieldOf(m.header.fields, BEGIN_STRING), SOH)
    && Short(Encoded(m, SOH))
  }

  /** The frame of an encoded message is that message, whatever follows it on the stream. */
  lemma {:induction false} EncodedFrame(m: Parts, more: seq<byte>)
    requires Framable(m)
    ensures FrameLength(Encoded(m, SOH) + more) == Some(|Encoded(m, SOH)|) && Encoded(m, SOH) != []
  {
    hide *;
    FramableFacts(m);
    ShortLength(Encoded(m, SOH));
    var length := BodyLength(Prepared(m));
    var f8, f9 := FieldOf(m.header.fields, BEGIN_STRING), Field(BODY_LENGTH, Print(length));
    HornerPrint(length);
    LengthOfEncoded(m, SOH);
    var middle := BodyLengthExact(m, SOH);
    var tail := RenderField(CheckSumField(Front(m, SOH)), SOH);
    Regrouped(RenderField(f8, SOH), RenderField(f9, SOH), middle, tail, more);
    TwoFieldFrame(f8, f9, middle + tail + more);
    FieldNotEmpty(f8);
    NoWrap(f8.Length() + f9.Length() - 1, length, |Encoded(m, SOH)|);
  }

  lemma FieldNotEmpty(f: Field)
    ensures f.Length() >= 3
  {}

  lemma NoWrap(end1: nat, nominal: nat, n: nat)
    requires n == end1 + 1 + nominal + CHECKSUM_LENGTH && n < U64_LIMIT
    ensures MessageLength(end1, nominal) == n
  {
    SmallNumber(n);
  }

  lemma FramableFacts(m: Parts)
    requires Framable(m)
    ensures HasTag(m.header.fields, BEGIN_STRING)
    ensures ValidParts(m) && HeaderLeads(m.header) && NoOrphans(m)
    ensures Separable(FieldOf(m.header.fields, BEGIN_STRING), SOH) && Short(Encoded(m, SOH))
    ensures var length := BodyLength(Prepared(m));
            length < U64_LIMIT && AllDigits(Print(length)) && Separable(Field(BODY_LENGTH, Print(length)), SOH)
  {
    hide Encoded, BodyLength, Prepared;
    LengthOfEncoded(m, SOH);
  }

  lemma Regrouped(a: seq<byte>, b: seq<byte>, c: seq<byte>, d: seq<byte>, e: seq<byte>)
    ensures a + b + c + d + e == a + b + (c + d + e)
  {}

  lemma {:induction false} TwoFieldFrame(f8: Field, f9: Field, tail: seq<byte>)
    requires Separable(f8, SOH) && Separable(f9, SOH) && AllDigits(f9.data) && Horner(f9.data) < U64_LIMIT
    ensures Horner(f9.data) >= 0
    ensures FrameLength(RenderField(f8, SOH) + RenderField(f9, SOH) + tail)
            == Some(MessageLength(f8.Length() + f9.Length() - 1, Horner(f9.data)))
  {
    hide *;
    var rf, rg := RenderField(f8, SOH), RenderField(f9, SOH);
    var raw := rf + rg + tail;
    Associative(rf, rg, tail);
    assert [] + rf == rf;
    FieldAtRendered([], f8, rg + tail, SOH);
    FieldAtRendered(rf, f9, tail, SOH);
    assert |rf| == f8.Length() && |rg| == f9.Length();
    FrameOfFields(raw, f8, f8.Length() - 1, f9, |rf| + f9.Length() - 1);
  }

  lemma {:induction false} FramesOfEncoded(messages: seq<Parts>)
    requires forall i :: 0 <= i < |messages| ==> Framable(messages[i])
    ensures Frames(Concat(EncodeAll(messages))) == Framed(EncodeAll(messages), [])
  {
    hide FrameLength, Encoded, Framable;
    if messages == [] {
      assert EncodeAll(messages) == [] && Concat([]) == [];
      NoFrame();
    } else {
      var m, rest := messages[0], messages[1..];
      var raw, more := Encoded(m, SOH), Concat(EncodeAll(rest));
      assert EncodeAll(messages)[1..] == EncodeAll(rest) && EncodeAll(messages)[0] == raw;
      EncodedFrame(m, more);
      assert (raw + more)[..|raw|] == raw && (raw + more)[|raw|..] == more;
      FramesOfEncoded(rest);
      assert [raw] + EncodeAll(rest) == EncodeAll(messages);
    }
  }

  lemma NoFrame()
    ensures Frames([]) == Framed([], []) && !Complete([]) && !Stalls([])
  {}

  /** Any chunking of a stream of encoded messages yields exactly those messages, and nothing
      is left over. */
  lemma {:induction false} StreamRoundTrip(messages: seq<Parts>, chunks: seq<seq<byte>>)
    requires forall i :: 0 <= i < |messages| ==> Framable(messages[i])
    requires Concat(chunks) == Concat(EncodeAll(messages))
    ensures Delivered([], chunks) == EncodeAll(messages)
    ensures Feed([], chunks) == Framed(EncodeAll(messages), [])
  {
    hide Framable, EncodeAll, Concat, Feed, Delivered, Frames, Stalls, Complete;
    NoFrame();
    LeftoverIncomplete([]);
    ChunkingIrrelevant([], chunks);
    FramesOfEncoded(messages);
    assert [] + Concat(chunks) == Concat(chunks);
    AllHandedOut([], chunks);
  }

  /** A byte string that starts with fields 8 and 9 and a plain BodyLength meets the builder's
      own length check exactly if it is one frame and the sum did not wrap around. */
  lemma {:induction false} FrameMeetsBuilder(raw: seq<byte>, f8: Field, end8: nat, f9: Field, end9: nat)
    requires Short(raw)
    requires FieldAt(raw, SOH, 0) == Some((f8, end8)) && end8 < |raw| && FieldAt(raw, SOH, end8 + 1) == Some((f9, end9))
    requires f8.tag == BEGIN_STRING && f9.tag == BODY_LENGTH
    requires f9.data != [] && AllDigits(f9.data) && Horner(f9.data) < U64_LIMIT
    ensures FrameLength(raw) == Some(|raw|) && end9 + 1 + Horner(f9.data) + CHECKSUM_LENGTH < U64_LIMIT <==>
            Integrity(raw, SOH) != Err(InvalidBeginString) && Integrity(raw, SOH) != Err(InvalidBodyLength)
  {
    hide *;
    FrameOfFields(raw, f8, end8, f9, end9);
    ParsePlain(f9.data);
    LengthCheck(raw, f8, end8, f9, end9, Horner(f9.data));
    ShortLength(raw);
    if end9 + 1 + Horner(f9.data) + CHECKSUM_LENGTH < U64_LIMIT {
      NoWrap(end9, Horner(f9.data), end9 + 1 + Horner(f9.data) + CHECKSUM_LENGTH);
    }
  }

  lemma ShortLength(raw: seq<byte>)
    requires Short(raw)
    ensures |raw| < U64_LIMIT
  {}

  /** A message and a stalling header behind it: in two chunks the message is handed out, in one
      chunk it is not. */
  lemma {:induction false} StallKeepsBack(m: Parts, header: seq<byte>)
    requires Framable(m) && Stalls(header)
    ensures Delivered([], [Encoded(m, SOH), header]) == [Encoded(m, SOH)]
    ensures Delivered([], [Encoded(m, SOH) + header]) == []
  {
    hide *;
    var raw := Encoded(m, SOH);
    EncodedFrame(m, []);
    EncodedFrame(m, header);
    assert raw + [] == raw && raw[..|raw|] == raw && raw[|raw|..] == [];
    assert (raw + header)[..|raw|] == raw && (raw + header)[|raw|..] == header;
    NoFrame();
    FrameStep(raw);
    FrameStep(raw + header);
    StalledForGood(header, []);
    assert header + [] == header;
    OneChunk(raw + header);
    TwoChunks(raw, header);
  }

  lemma TwoChunks(raw: seq<byte>, header: seq<byte>)
    requires Frames(raw) == Framed([raw], []) && !Stalls([]) && Frames(header) == Framed([], header) && Stalls(header)
    ensures Delivered([], [raw, header]) == [raw]
  {
    hide Frames, Stalls;
    assert [raw, header][1..] == [header] && [] + raw == raw && [] + header == header;
    OneChunk(header);
    assert [raw] + [] == [raw];
  }

  // ----- when the loop ends -----

  /** Cutting goes on forever exactly if the announced length is the one that makes the sum wrap
      around to zero. */
  lemma StallsExactly(data: seq<byte>, eq0: nat, end0: nat, eq1: nat, end1: nat)
    requires eq0 < end0 < eq1 < end1 < |data| && end1 + 1 + CHECKSUM_LENGTH <= U64_LIMIT
    requires FindByte(data, 0, EQUALS) == Some(eq0) && FindByte(data, eq0 + 1, SOH) == Some(end0)
    requires FindByte(data, end0 + 1, EQUALS) == Some(eq1) && FindByte(data, eq1 + 1, SOH) == Some(end1)
    ensures Stalls(data) <==> Nominal(data[eq1 + 1..end1]) == U64_LIMIT - (end1 + 1 + CHECKSUM_LENGTH)
  {
    hide FindByte, Nominal, FrameLength;
    FrameFromParts(data, eq0, end0, eq1, end1);
    ZeroSum(end1, Nominal(data[eq1 + 1..end1]));
  }

  lemma ZeroSum(end1: nat, nominal: nat)
    requires nominal < U64_LIMIT && end1 + 1 + CHECKSUM_LENGTH <= U64_LIMIT
    ensures MessageLength(end1, nominal) == 0 <==> nominal == U64_LIMIT - (end1 + 1 + CHECKSUM_LENGTH)
  {}

  /** Once a stalling header has arrived, nothing is delivered whatever follows. */
  lemma StalledForGood(data: seq<byte>, more: seq<byte>)
    requires Stalls(data)
    ensures Stalls(data + more) && Frames(data + more) == Framed([], data + more)
  {
    hide FrameLength;
    LengthExtended(data, more);
  }

  /** Such a header: an empty field 8, and a BodyLength of 2^64 - 33. */
  lemma StallingHeader()
    ensures var f8, f9 := Field(BEGIN_STRING, []), Field(BODY_LENGTH, Print(18_446_744_073_709_551_583));
            Stalls(RenderField(f8, SOH) + RenderField(f9, SOH) + [])
  {
    var n := 18_446_744_073_709_551_583;
    var f8, f9 := Field(BEGIN_STRING, []), Field(BODY_LENGTH, Print(n));
    HeaderWidth(n);
    HornerPrint(n);
    hide *;
    TwoFieldFrame(f8, f9, []);
    ZeroSum(25, n);
    StallsFrom(RenderField(f8, SOH) + RenderField(f9, SOH) + []);
  }

  lemma HeaderWidth(n: nat)
    requires 10_000_000_000_000_000_000 <= n < 100_000_000_000_000_000_000
    ensures Field(BEGIN_STRING, []).Length() == 3 && Field(BODY_LENGTH, Print(n)).Length() == 23
  {
    TwentyDigits(n);
  }

  lemma StallsFrom(data: seq<byte>)
    requires FrameLength(data) == Some(0)
    ensures Stalls(data)
  {}

  lemma {:induction false} DigitCount(n: nat, k: nat, low: nat)
    requires k > 0 && low == Power10(k - 1) && (k == 1 || low <= n) && n < 10 * low
    ensures |Print(n)| == k
  {
    if k > 1 {
      DigitCount(n / 10, k - 1, low / 10);
    }
  }

  lemma TwentyDigits(n: nat)
    requires 10_000_000_000_000_000_000 <= n < 100_000_000_000_000_000_000
    ensures |Print(n)| == 20
  {
    assert Power10(5) == 100_000;
    PowerAdd(5, 5);
    PowerAdd(10, 5);
    assert Power10(4) == 10_000;
    PowerAdd(15, 4);
    DigitCount(n, 20, 10_000_000_000_000_000_000);
  }

  lemma ParsePlain(s: seq<byte>)
    requires s != [] && AllDigits(s) && Horner(s) < U64_LIMIT
    ensures Horner(s) >= 0 && ParseUnsigned(s, U64_LIMIT) == Some(Horner(s))
  {
    HornerNonNegative(s);
  }

  lemma LengthCheck(raw: seq<byte>, f8: Field, end8: nat, f9: Field, end9: nat, n: nat)
    requires FieldAt(raw, SOH, 0) == Some((f8, end8)) && end8 < |raw| && FieldAt(raw, SOH, end8 + 1) == Some((f9, end9))
    requires f8.tag == BEGIN_STRING && f9.tag == BODY_LENGTH && ParseUnsigned(f9.data, U64_LIMIT) == Some(n)
    ensures |raw| == end9 + 1 + n + CHECKSUM_LENGTH <==>
            Integrity(raw, SOH) != Err(InvalidBeginString) && Integrity(raw, SOH) != Err(InvalidBodyLength)
  {
    hide FieldAt, EnvelopeAt, ParseUnsigned;
  }
}
