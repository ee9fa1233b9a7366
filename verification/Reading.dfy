/** Reading a message: integrity first, then header, body and trailer, told apart by the tag
    sets of the dictionary. */
module Reading {
  import opened Decimal
  import opened Fields
  import opened Layouts
  import opened Wire
  import opened Grammar
  import opened Assembly
  import opened Messages

  const CHECKSUM_LENGTH: nat := 7

  datatype GarbledReason =
    | MalformedMessage
    | InvalidBeginString
    | InvalidBodyLength
    | InvalidMessageType
    | InvalidChecksum

  datatype ParsedMessage =
    | Valid(message: Parts)
    | Invalid(reason: ParserError, message: Parts)
    | Garbled(why: GarbledReason)
  {
    /** `into_message`: an invalid message still yields its header. */
    function IntoMessage(): Option<Parts> {
      match this
      case Valid(m) => Some(m)
      case Invalid(_, m) => Some(m)
      case Garbled(_) => None
    }
  }

  // ----- integrity -----

  /** The three leading fields, the checksum field, and where reading goes on. */
  datatype Envelope = Envelope(beginString: Field, bodyLength: Field, msgType: Field, checkSum: Field, position: nat)

  function Integrity(raw: seq<byte>, sep: byte): (r: Result<Envelope, GarbledReason>)
    ensures r.Ok? ==> r.value.position <= |raw| && r.value.msgType.tag == MSG_TYPE
  {
    match FieldAt(raw, sep, 0)
    case None => Err(InvalidBeginString)
    case Some((f8, end8)) =>
      if f8.tag != BEGIN_STRING then Err(InvalidBeginString)
      else
        match FieldAt(raw, sep, end8 + 1)
        case None => Err(InvalidBodyLength)
        case Some((f9, end9)) =>
          if f9.tag != BODY_LENGTH then Err(InvalidBodyLength)
          else
            match ParseUnsigned(f9.data, U64_LIMIT)
            case None => Err(InvalidBodyLength)
            case Some(n) =>
              if |raw| != end9 + 1 + n + CHECKSUM_LENGTH then Err(InvalidBodyLength)
              else EnvelopeAt(raw, sep, f8, f9, end9 + 1, end9 + 1 + n)
  }

  /** Checksum and message type, once the body is known to lie between `start` and `end`. */
  function EnvelopeAt(raw: seq<byte>, sep: byte, f8: Field, f9: Field, start: nat, end: nat): (r: Result<Envelope,
                      GarbledReason>)
    requires start <= end <= |raw|
    ensures r.Ok? ==> r.value.position <= |raw| && r.value.msgType.tag == MSG_TYPE
    ensures r != Err(InvalidBeginString) && r != Err(InvalidBodyLength)
  {
    match FieldAt(raw, sep, end)
    case None => Err(InvalidChecksum)
    case Some((f10, _)) =>
      if f10.tag != CHECK_SUM then Err(InvalidChecksum)
      else if ParseCheckSum(f10.data).Some?
        && ParseCheckSum(f10.data).value != ByteSum(raw[..end]) % 256 then Err(InvalidChecksum)
      else
        match FieldAt(raw, sep, start)
        case None => Err(InvalidMessageType)
        case Some((f35, end35)) =>
          if f35.tag != MSG_TYPE then Err(InvalidMessageType)
          else Ok(Envelope(f8, f9, f35, f10, end35 + 1))
  }

  /** Fields 8 and 9 and the announced length found, all depends on the rest. */
  lemma IntegrityFrom(raw: seq<byte>, sep: byte, f8: Field, end8: nat, f9: Field, end9: nat, n: nat)
    requires FieldAt(raw, sep, 0) == Some((f8, end8)) && end8 < |raw| && FieldAt(raw, sep, end8 + 1) == Some((f9, end9))
    requires f8.tag == BEGIN_STRING && f9.tag == BODY_LENGTH && ParseUnsigned(f9.data, U64_LIMIT) == Some(n)
    requires |raw| == end9 + 1 + n + CHECKSUM_LENGTH
    ensures Integrity(raw, sep) == EnvelopeAt(raw, sep, f8, f9, end9 + 1, end9 + 1 + n)
  {
    hide FieldAt, ParseUnsigned, EnvelopeAt;
  }

  /** A passed check went all the way. */
  lemma IntegrityPassed(raw: seq<byte>, sep: byte) returns (f8: Field, f9: Field, start: nat)
    requires Integrity(raw, sep).Ok?
    ensures start + CHECKSUM_LENGTH <= |raw|
    ensures Integrity(raw, sep) == EnvelopeAt(raw, sep, f8, f9, start, |raw| - CHECKSUM_LENGTH)
  {
    hide FieldAt, ParseUnsigned, EnvelopeAt;
    var (g8, end8) := FieldAt(raw, sep, 0).value;
    var (g9, end9) := FieldAt(raw, sep, end8 + 1).value;
    f8, f9, start := g8, g9, end9 + 1;
  }

  // ----- header, body, trailer -----

  function InsertAll(fields: seq<Field>, more: seq<Field>): seq<Field>
    decreases |more|
  {
    if more == [] then fields else InsertAll(InsertField(fields, more[0]), more[1..])
  }

  lemma {:induction false} InsertAllHas(fields: seq<Field>, more: seq<Field>, t: Tag)
    ensures HasTag(InsertAll(fields, more), t) <==> HasTag(fields, t) || HasTag(more, t)
    decreases |more|
  {
    if more != [] {
      var f, rest := more[0], more[1..];
      InsertAllHas(InsertField(fields, f), rest, t);
      InsertedField(fields, f);
      assert GetRaw(fields, t).Some? <==> HasTag(fields, t);
      assert more == [f] + rest;
      if HasTag(rest, t) {
        assert more[IndexOf(rest, t) + 1].tag == t;
      }
      if HasTag(more, t) && f.tag != t {
        assert rest[IndexOf(more, t) - 1].tag == t;
      }
      assert f.tag == t ==> more[0].tag == t;
    }
  }

  /** How many of the fields ahead belong to the header. */
  function HeaderSpan(b: MessageBuilder, toks: seq<Field>): (n: nat)
    ensures n <= |toks|
    ensures forall i :: 0 <= i < n ==> toks[i].tag in b.headerTags
    ensures n < |toks| ==> toks[n].tag !in b.headerTags
  {
    if toks == [] || toks[0].tag !in b.headerTags then 0 else 1 + HeaderSpan(b, toks[1..])
  }

  datatype ParsedBody = ParsedBody(nodes: seq<Node>, rest: seq<Field>)

  /** Reads body fields and their groups up to the first field of the trailer. */
  function ParseBody(b: MessageBuilder, l: Layout, done: seq<Node>, toks: seq<Field>): (r: Result<ParsedBody,
                     ParserError>)
    requires WellFormed(l)
    ensures r.Ok? ==> r.value.rest != []
    decreases |toks|
  {
    if toks == [] then Err(Malformed)
    else
      var f := toks[0];
      if Declares(l, f.tag) then
        if f.tag !in b.fieldTags then Err(InvalidField(f.tag))
        else
          match GroupFor(l, f.tag)
          case None => ParseBody(b, l, done + [Node(f, [])], toks[1..])
          case Some(g) =>
            match ParseRun(b, g, toks[1..])
            case Err(e) => Err(e)
            case Ok(p) =>
              var missing := FirstMissing(g, BuildRun(g, p.entries));
              if missing.Some? then Err(missing.value)
              else ParseBody(b, l, done + [Node(f, p.entries)], p.rest)
      else if AcceptsUnknown(b, f.tag) then
        ParseBody(b, l, done + [Node(f, [])], toks[1..])
      else if f.tag !in b.trailerTags then Err(InvalidField(f.tag))
      else Ok(ParsedBody(done, toks))
  }

  /** How many of the fields ahead come before the first CheckSum field. */
  function TrailerSpan(toks: seq<Field>): (n: nat)
    ensures n <= |toks|
    ensures forall i :: 0 <= i < n ==> toks[i].tag != CHECK_SUM
    ensures n < |toks| ==> toks[n].tag == CHECK_SUM
  {
    if toks == [] || toks[0].tag == CHECK_SUM then 0 else 1 + TrailerSpan(toks[1..])
  }

  function WithHeader(header: FieldMap): Parts {
    Parts(header, EMPTY, EMPTY)
  }

  function ErrorResult(e: ParserError, header: FieldMap): ParsedMessage {
    if e.Malformed? then Garbled(MalformedMessage) else Invalid(e, WithHeader(header))
  }

  /** `MessageBuilder::build`. */
  function Build(b: MessageBuilder, raw: seq<byte>): ParsedMessage
    requires WellFormedBuilder(b)
  {
    match Integrity(raw, b.config.separator)
    case Err(why) => Garbled(why)
    case Ok(env) => BuildFields(b, env, Tokens(raw, b.config.separator, env.position))
  }

  /** The header always has a MsgType: it was read before anything else was stored. */
  function HeaderFields(b: MessageBuilder, env: Envelope, toks: seq<Field>): (fields: seq<Field>)
    ensures env.msgType.tag == MSG_TYPE ==> HasTag(fields, MSG_TYPE)
  {
    var leading := InsertField(InsertField(InsertField([], env.beginString), env.bodyLength), env.msgType);
    InsertedField(InsertField(InsertField([], env.beginString), env.bodyLength), env.msgType);
    assert GetRaw(leading, env.msgType.tag).Some?;
    InsertAllHas(leading, toks[..HeaderSpan(b, toks)], MSG_TYPE);
    InsertAll(leading, toks[..HeaderSpan(b, toks)])
  }

  function BuildFields(b: MessageBuilder, env: Envelope, toks: seq<Field>): ParsedMessage
    requires WellFormedBuilder(b) && env.msgType.tag == MSG_TYPE
  {
    var n := HeaderSpan(b, toks);
    var header := FieldMap(HeaderFields(b, env, toks), []);
    if n == |toks| then Garbled(MalformedMessage)
    else
      var msgType := GetRaw(header.fields, MSG_TYPE).value;
      if msgType !in b.messages then ErrorResult(InvalidMsgType(msgType), header)
      else
        var l := b.messages[msgType];
        match ParseBody(b, l, [], toks[n..])
        case Err(e) => ErrorResult(e, header)
        case Ok(p) =>
          var trailer := FieldMap(InsertAll([env.checkSum], p.rest[..TrailerSpan(p.rest)]), []);
          Valid(Parts(header, BuildMap(l, p.nodes), trailer))
  }
}
