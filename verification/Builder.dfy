/** The message builder as it runs: a cursor over the raw bytes, and loops that store each
    field as it is read. Every method is tied to the functions of `Grammar` and `Reading`. */
module Builder {
  import opened Decimal
  import opened Fields
  import opened Layouts
  import opened Wire
  import opened Grammar
  import opened Assembly
  import opened Messages
  import opened Reading

  /** `tag_from_bytes`: 32-bit accumulation. */
  method TagFromBytes(bytes: seq<byte>) returns (tag: Option<Tag>)
    ensures tag == TagOf(bytes)
  {
    var n := 0;
    for i := 0 to |bytes|
      invariant n == Horner(bytes[..i]) % U32_LIMIT
    {
      assert bytes[..i + 1] == bytes[..i] + [bytes[i]];
      HornerSnoc(bytes[..i], bytes[i]);
      ModStep(Horner(bytes[..i]), bytes[i] as int - 48);
      n := (n * 10 + bytes[i] - 48) % U32_LIMIT;
    }
    assert bytes[..|bytes|] == bytes;
    tag := if n == 0 then None else Some(n);
  }

  lemma ModStep(a: int, d: int)
    ensures ((a % U32_LIMIT) * 10 + d) % U32_LIMIT == (a * 10 + d) % U32_LIMIT
  {
    var q := a / U32_LIMIT;
    assert a * 10 + d == (a % U32_LIMIT) * 10 + d + U32_LIMIT * (q * 10);
  }

  class Parser {
    const raw: seq<byte>
    const separator: byte
    var position: nat

    ghost predicate Valid()
      reads this
    {
      position <= |raw|
    }

    /** The fields still to be read. */
    ghost function Remaining(): seq<Field>
      requires Valid()
      reads this
    {
      Tokens(raw, separator, position)
    }

    constructor (data: seq<byte>, sep: byte)
      ensures Valid() && position == 0 && raw == data && separator == sep
    {
      raw, separator, position := data, sep, 0;
    }

    method ParseFieldAt(pos: nat) returns (r: Option<(Field, nat)>)
      requires pos <= |raw|
      ensures r == FieldAt(raw, separator, pos)
    {
      var eq := FindByte(raw, pos, EQUALS);
      if eq.None? {
        return None;
      }
      var end := FindByte(raw, eq.value + 1, separator);
      if end.None? {
        return None;
      }
      var tag := TagFromBytes(raw[pos..eq.value]);
      if tag.None? {
        return None;
      }
      return Some((Field(tag.value, raw[eq.value + 1..end.value]), end.value));
    }

    method NextField() returns (r: Option<Field>)
      requires Valid()
      modifies this
      ensures Valid() && position <= |raw|
      ensures r.None? ==> old(Remaining()) == [] && position == old(position)
      ensures r.Some? ==> old(Remaining()) == [r.value] + Remaining() && position > old(position)
      ensures match FieldAt(raw, separator, old(position))
              case None => r == None
              case Some((f, end)) => r == Some(f) && position == end + 1
    {
      var found := ParseFieldAt(position);
      match found
      case None => r := None;
      case Some((f, end)) =>
        position := end + 1;
        r := Some(f);
    }
  }

  // ----- repeating groups -----

  /** Whether the loop stands at this point of the grammar's parser. */
  ghost predicate AtEntries(b: MessageBuilder, g: GroupSpec, groups: seq<Group>, current: Option<Group>, next: nat,
                            toks: seq<Field>, start: seq<Field>, done: seq<Entry>, cur: seq<Node>)
    requires WellFormedGroup(g)
  {
    && groups == BuildRun(g, done)
    && match current
       case None => done == [] && toks == start && toks != [] && toks[0].tag == Delimiter(g)
       case Some(c) =>
         && c == Group(g.countTag, Delimiter(g), BuildMap(g.layout, cur))
         && ParseRun(b, g, start) == ParseEntries(b, g, done, cur, next, toks)
  }

  lemma {:induction false} EntryOpened(b: MessageBuilder, g: GroupSpec, groups: seq<Group>, current: Option<Group>,
                                       next: nat,
                    toks: seq<Field>, start: seq<Field>, done: seq<Entry>, cur: seq<Node>) returns (done': seq<Entry>)
    requires WellFormedGroup(g) && AtEntries(b, g, groups, current, next, toks, start, done, cur)
    requires toks != [] && toks[0].tag == Delimiter(g)
    ensures AtEntries(b, g, if current.Some? then groups + [current.value] else groups,
                      Some(Group(g.countTag, Delimiter(g), FieldMap([toks[0]], []))), 1, toks[1..], start, done',
                        [Node(toks[0], [])])
  {
    var f := toks[0];
    assert [Node(f, [])][..0] == [];
    assert BuildMap(g.layout, [Node(f, [])]) == FieldMap([f], []);
    if current.Some? {
      done' := done + [Entry(cur)];
      BuildRunSnoc(g, done, Entry(cur));
      OpensEntry(b, g, done, cur, next, Node(f, []), toks[1..]);
      assert toks == [f] + toks[1..];
    } else {
      done' := done;
    }
  }

  lemma {:induction false} EntryJoined(b: MessageBuilder, g: GroupSpec, groups: seq<Group>, c: Group, next: nat,
                    toks: seq<Field>, start: seq<Field>, done: seq<Entry>, cur: seq<Node>)
    requires WellFormedGroup(g) && AtEntries(b, g, groups, Some(c), next, toks, start, done, cur)
    requires toks != [] && NextStep(b, g, next, toks).Join?
    ensures var s := NextStep(b, g, next, toks);
            AtEntries(b, g, groups, Some(c.(content := AddNode(g.layout, c.content, s.node))), s.next, s.rest, start,
              done, cur + [s.node])
  {
    var s := NextStep(b, g, next, toks);
    BuildMapSnoc(g.layout, cur, s.node);
    JoinsEntry(b, g, done, cur, next, toks);
  }

  /** Only the delimiter is seen before an entry is open. */
  lemma EntryIsOpen(b: MessageBuilder, g: GroupSpec, groups: seq<Group>, current: Option<Group>, next: nat,
                    toks: seq<Field>, start: seq<Field>, done: seq<Entry>, cur: seq<Node>)
    requires WellFormedGroup(g) && AtEntries(b, g, groups, current, next, toks, start, done, cur)
    requires toks != [] && toks[0].tag != Delimiter(g)
    ensures current.Some?
  {}

  lemma {:induction false} RunOutOfFields(b: MessageBuilder, g: GroupSpec, groups: seq<Group>, c: Group, next: nat,
                    start: seq<Field>, done: seq<Entry>, cur: seq<Node>)
    requires WellFormedGroup(g) && AtEntries(b, g, groups, Some(c), next, [], start, done, cur)
    ensures ParseRun(b, g, start) == Err(Malformed)
  {}

  lemma {:induction false} JoinFails(b: MessageBuilder, g: GroupSpec, groups: seq<Group>, c: Group, next: nat,
                    toks: seq<Field>, start: seq<Field>, done: seq<Entry>, cur: seq<Node>)
    requires WellFormedGroup(g) && AtEntries(b, g, groups, Some(c), next, toks, start, done, cur) && toks != []
    ensures var s := NextStep(b, g, next, toks);
            && (s.Fail? ==> ParseRun(b, g, start) == Err(s.error))
            && (s.Join? && s.rest == [] ==> ParseRun(b, g, start) == Err(Malformed))
  {
    var s := NextStep(b, g, next, toks);
    if s.Join? {
      JoinsEntry(b, g, done, cur, next, toks);
    }
  }

  lemma {:induction false} RunEnds(b: MessageBuilder, g: GroupSpec, groups: seq<Group>, c: Group, next: nat,
                    toks: seq<Field>, start: seq<Field>, done: seq<Entry>, cur: seq<Node>)
    requires WellFormedGroup(g) && AtEntries(b, g, groups, Some(c), next, toks, start, done, cur)
    requires toks != [] && !Absorbs(b, g.layout, toks[0].tag)
    ensures ParseRun(b, g, start) == Ok(Parsed(done + [Entry(cur)], toks))
    ensures groups + [c] == BuildRun(g, done + [Entry(cur)])
  {
    assert NextStep(b, g, next, toks).End?;
    BuildRunSnoc(g, done, Entry(cur));
  }

  lemma {:induction false} RunStarts(b: MessageBuilder, g: GroupSpec, start: seq<Field>)
    requires WellFormedGroup(g)
    ensures start == [] ==> ParseRun(b, g, start) == Err(Malformed)
    ensures start != [] && start[0].tag != Delimiter(g) ==>
              ParseRun(b, g, start) == Err(InvalidGroupFieldOrder(start[0].tag, g.countTag))
    ensures start != [] && start[0].tag == Delimiter(g) ==> AtEntries(b, g, [], None, 0, start, start, [], [])
  {}

  lemma RunHasEntries(b: MessageBuilder, g: GroupSpec, toks: seq<Field>)
    requires WellFormedGroup(g) && ParseRun(b, g, toks).Ok?
    ensures ParseRun(b, g, toks).value.entries != []
  {
    RunSound(b, g, toks);
  }

  /** The entries of one run share start and delimiter tag, so filing them never fails. */
  lemma GroupsFiled(fm: FieldMap, g: GroupSpec, entries: seq<Entry>)
    requires WellFormedGroup(g) && entries != []
    ensures SetGroups(fm, BuildRun(g, entries))
            == Ok(fm.(groups := InsertRun(fm.groups, Run(g.countTag, BuildRun(g, entries)))))
  {}

  method ParseGroups(b: MessageBuilder, parser: Parser, g: GroupSpec, startTag: Tag)
    returns (r: Result<(seq<Group>, Field), ParserError>)
    requires parser.Valid() && WellFormedGroup(g) && startTag == g.countTag
    modifies parser
    ensures parser.Valid() && old(parser.position) <= parser.position <= |parser.raw|
    ensures match ParseRun(b, g, old(parser.Remaining()))
            case Err(e) => r == Err(e)
            case Ok(p) => r == Ok((BuildRun(g, p.entries), p.rest[0])) && parser.Remaining() == p.rest[1..]
    decreases |parser.raw| - parser.position, 0
  {
    hide *;
    var groups: seq<Group> := [];
    var delimiter := Delimiter(g);
    ghost var start := parser.Remaining();
    var first := parser.NextField();
    RunStarts(b, g, start);
    if first.None? {
      return Err(Malformed);
    }
    var field := first.value;
    if field.tag != delimiter {
      return Err(InvalidGroupFieldOrder(field.tag, g.countTag));
    }
    var current: Option<Group> := None;
    var next := 0;
    ghost var done: seq<Entry>, cur: seq<Node> := [], [];
    while true
      invariant parser.Valid() && old(parser.position) < parser.position <= |parser.raw|
      invariant AtEntries(b, g, groups, current, next, [field] + parser.Remaining(), start, done, cur)
      decreases |parser.raw| - parser.position
    {
      ghost var toks := [field] + parser.Remaining();
      assert toks[1..] == parser.Remaining();
      if field.tag == delimiter {
        ghost var done' := EntryOpened(b, g, groups, current, next, toks, start, done, cur);
        if current.Some? {
          groups := groups + [current.value];
        }
        current := Some(Group(startTag, delimiter, FieldMap([field], [])));
        next, done, cur := 1, done', [Node(field, [])];
        var following := parser.NextField();
        if following.None? {
          RunOutOfFields(b, g, groups, current.value, next, start, done, cur);
          return Err(Malformed);
        }
        field := following.value;
      } else if Absorbs(b, g.layout, field.tag) {
        EntryIsOpen(b, g, groups, current, next, toks, start, done, cur);
        var joined := JoinEntry(b, parser, g, current.value.content, next, field);
        if joined.Err? {
          JoinFails(b, g, groups, current.value, next, toks, start, done, cur);
          return Err(joined.error);
        }
        EntryJoined(b, g, groups, current.value, next, toks, start, done, cur);
        ghost var rest := NextStep(b, g, next, toks).rest;
        cur := cur + [NextStep(b, g, next, toks).node];
        current := Some(current.value.(content := joined.value.0));
        next, field := joined.value.1, joined.value.2;
        assert rest == [rest[0]] + rest[1..];
      } else {
        EntryIsOpen(b, g, groups, current, next, toks, start, done, cur);
        RunEnds(b, g, groups, current.value, next, toks, start, done, cur);
        groups := groups + [current.value];
        return Ok((groups, field));
      }
    }
  }

  /** A field that joins the open entry is stored, a count field together with the nested run
      behind it; then the next field is read. */
  method JoinEntry(b: MessageBuilder, parser: Parser, g: GroupSpec, content: FieldMap, next: nat, field: Field)
    returns (r: Result<(FieldMap, nat, Field), ParserError>)
    requires parser.Valid() && WellFormedGroup(g)
    requires field.tag != Delimiter(g) && Absorbs(b, g.layout, field.tag)
    modifies parser
    ensures parser.Valid() && old(parser.position) <= parser.position <= |parser.raw|
    ensures r.Ok? ==> parser.position > old(parser.position)
    ensures match NextStep(b, g, next, [field] + old(parser.Remaining()))
            case Fail(e) => r == Err(e)
            case Join(n, next', rest) =>
              if rest == [] then r == Err(Malformed)
              else r == Ok((AddNode(g.layout, content, n), next', rest[0])) && parser.Remaining() == rest[1..]
            case _ => false
    decreases |parser.raw| - parser.position, 1
  {
    hide Tokens, FieldAt, ParseRun, ParseEntries, RunConforms, FlatEntries, SetGroups, BuildRun;
    ghost var toks := [field] + parser.Remaining();
    assert toks[1..] == parser.Remaining();
    var stored := content.(fields := InsertField(content.fields, field));
    var next' := next;
    if Declares(g.layout, field.tag) {
      var position := Position(g.layout, field.tag);
      if position < next {
        return Err(InvalidGroupFieldOrder(field.tag, g.countTag));
      }
      next' := position + 1;
      var nested := GroupFor(g.layout, field.tag);
      if nested.Some? {
        var inner := ParseGroups(b, parser, nested.value, field.tag);
        if inner.Err? {
          return Err(inner.error);
        }
        ghost var entries := ParseRun(b, nested.value, toks[1..]).value.entries;
        RunHasEntries(b, nested.value, toks[1..]);
        GroupsFiled(stored, nested.value, entries);
        var filed := SetGroups(stored, inner.value.0);
        return Ok((filed.value, next', inner.value.1));
      }
    }
    var following := parser.NextField();
    if following.None? {
      return Err(Malformed);
    }
    return Ok((stored, next', following.value));
  }

  // ----- required fields -----

  method CheckRequiredFieldsInGroups(groups: seq<Group>, g: GroupSpec) returns (missing: Option<ParserError>)
    ensures missing == FirstMissing(g, groups)
    decreases g
  {
    for i := 0 to |groups|
      invariant FirstMissing(g, groups) == FirstMissing(g, groups[i..])
    {
      var content := groups[i].content;
      missing := CheckEntry(g, content);
      if missing.Some? {
        return;
      }
      assert groups[i..][1..] == groups[i + 1..];
    }
    return None;
  }

  method CheckEntry(g: GroupSpec, content: FieldMap) returns (missing: Option<ParserError>)
    ensures missing == EntryMissing(g, content)
    decreases g, 0
  {
    var specs, nested := g.layout.fields, g.layout.groups;
    for k := 0 to |specs|
      invariant FieldMissing(specs, content.fields, g.countTag) == FieldMissing(specs[k..], content.fields, g.countTag)
    {
      if specs[k].isRequired && !HasTag(content.fields, specs[k].tag) {
        return Some(RequiredFieldMissing(specs[k].tag, g.countTag));
      }
      assert specs[k..][1..] == specs[k + 1..];
    }
    for k := 0 to |nested|
      invariant NestedMissing(nested, content.groups) == NestedMissing(nested[k..], content.groups)
    {
      if HasRun(content.groups, nested[k].countTag) {
        missing := CheckRequiredFieldsInGroups(EntriesOf(content.groups, nested[k].countTag), nested[k]);
        if missing.Some? {
          return;
        }
      }
      assert nested[k..][1..] == nested[k + 1..];
    }
    return None;
  }

  // ----- the message -----

  method VerifyIntegrity(parser: Parser) returns (r: Result<Envelope, GarbledReason>)
    requires parser.Valid() && parser.position == 0
    modifies parser
    ensures parser.Valid()
    ensures r == Integrity(parser.raw, parser.separator)
    ensures r.Ok? ==> parser.position == r.value.position
  {
    hide Tokens, FieldAt, ByteSum, ParseUnsigned, ParseCheckSum;
    var first := parser.NextField();
    if first.None? || first.value.tag != BEGIN_STRING {
      return Err(InvalidBeginString);
    }
    var second := parser.NextField();
    if second.None? || second.value.tag != BODY_LENGTH {
      return Err(InvalidBodyLength);
    }
    var length := ParseUnsigned(second.value.data, U64_LIMIT);
    if length.None? || |parser.raw| != parser.position + length.value + CHECKSUM_LENGTH {
      return Err(InvalidBodyLength);
    }
    var end := parser.position + length.value;
    var checkSum := parser.ParseFieldAt(end);
    if checkSum.None? || checkSum.value.0.tag != CHECK_SUM {
      return Err(InvalidChecksum);
    }
    var stated := ParseCheckSum(checkSum.value.0.data);
    if stated.Some? {
      var computed := ComputeCheckSum(parser.raw[..end]);
      if stated.value != computed {
        return Err(InvalidChecksum);
      }
    }
    var third := parser.NextField();
    if third.None? || third.value.tag != MSG_TYPE {
      return Err(InvalidMessageType);
    }
    return Ok(Envelope(first.value, second.value, third.value, checkSum.value.0, parser.position));
  }

  lemma {:induction false} InsertAllSnoc(fields: seq<Field>, more: seq<Field>, f: Field)
    ensures InsertAll(fields, more + [f]) == InsertField(InsertAll(fields, more), f)
    decreases |more|
  {
    if more == [] {
      assert more + [f] == [f] && [f][1..] == [];
    } else {
      assert (more + [f])[0] == more[0] && (more + [f])[1..] == more[1..] + [f];
      InsertAllSnoc(InsertField(fields, more[0]), more[1..], f);
    }
  }

  lemma FirstInsert(fields: seq<Field>, toks: seq<Field>)
    ensures InsertAll(fields, toks[..0]) == fields
  {}

  /** Stores header fields until one is not a header field, and returns that one. */
  method BuildHeader(b: MessageBuilder, parser: Parser, leading: seq<Field>)
    returns (header: seq<Field>, next: Option<Field>)
    requires parser.Valid()
    modifies parser
    ensures parser.Valid()
    ensures var toks := old(parser.Remaining());
            var n := HeaderSpan(b, toks);
            && header == InsertAll(leading, toks[..n])
            && if n == |toks| then next == None else next == Some(toks[n]) && parser.Remaining() == toks[n + 1..]
  {
    hide Tokens, FieldAt, InsertAll, HeaderSpan;
    ghost var toks, k := parser.Remaining(), 0;
    FirstInsert(leading, toks);
    header := leading;
    while true
      invariant parser.Valid() && k <= |toks| && parser.Remaining() == toks[k..]
      invariant header == InsertAll(leading, toks[..k])
      invariant k <= HeaderSpan(b, toks)
      decreases |parser.raw| - parser.position
    {
      next := parser.NextField();
      if next.None? {
        assert toks[..k] == toks;
        return;
      }
      assert toks[k] == toks[k..][0] == next.value;
      assert parser.Remaining() == toks[k..][1..] == toks[k + 1..];
      if next.value.tag !in b.headerTags {
        return;
      }
      InsertAllSnoc(leading, toks[..k], next.value);
      assert toks[..k + 1] == toks[..k] + [next.value];
      header := InsertField(header, next.value);
      k := k + 1;
    }
  }

  method BuildTrailer(parser: Parser, leading: seq<Field>, first: Field) returns (trailer: seq<Field>)
    requires parser.Valid()
    modifies parser
    ensures parser.Valid()
    ensures var toks := [first] + old(parser.Remaining()); trailer == InsertAll(leading, toks[..TrailerSpan(toks)])
  {
    hide Tokens, FieldAt, InsertAll, TrailerSpan;
    ghost var toks, k := [first] + parser.Remaining(), 0;
    FirstInsert(leading, toks);
    trailer := leading;
    var field := Some(first);
    while field.Some? && field.value.tag != CHECK_SUM
      invariant parser.Valid() && k <= |toks| && k <= TrailerSpan(toks)
      invariant trailer == InsertAll(leading, toks[..k])
      invariant match field
                case None => k == |toks|
                case Some(f) => k < |toks| && f == toks[k] && parser.Remaining() == toks[k + 1..]
      decreases |toks| - k
    {
      InsertAllSnoc(leading, toks[..k], field.value);
      assert toks[..k + 1] == toks[..k] + [field.value];
      trailer := InsertField(trailer, field.value);
      field := parser.NextField();
      k := k + 1;
      if field.Some? {
        assert toks[k..] == [field.value] + parser.Remaining();
        assert toks[k] == toks[k..][0] && toks[k + 1..] == toks[k..][1..];
      }
    }
  }

  method BuildBody(b: MessageBuilder, l: Layout, parser: Parser, first: Field)
    returns (r: Result<(FieldMap, Field), ParserError>)
    requires parser.Valid() && WellFormed(l)
    modifies parser
    ensures parser.Valid()
    ensures match ParseBody(b, l, [], [first] + old(parser.Remaining()))
            case Err(e) => r == Err(e)
            case Ok(p) => r == Ok((BuildMap(l, p.nodes), p.rest[0])) && parser.Remaining() == p.rest[1..]
  {
    hide Tokens, FieldAt, ParseRun, FlatEntries, BuildMap, BuildRun, FirstMissing, SetGroups, AddNode;
    ghost var start := [first] + parser.Remaining();
    ghost var nodes: seq<Node> := [];
    var body, field := EMPTY, first;
    EmptyMap(l);
    while true
      invariant parser.Valid()
      invariant body == BuildMap(l, nodes)
      invariant ParseBody(b, l, [], start) == ParseBody(b, l, nodes, [field] + parser.Remaining())
      decreases |parser.raw| - parser.position
    {
      ghost var toks := [field] + parser.Remaining();
      assert toks[1..] == parser.Remaining();
      if Declares(l, field.tag) && field.tag !in b.fieldTags {
        return Err(InvalidField(field.tag));
      } else if Declares(l, field.tag) && GroupFor(l, field.tag).Some? {
        var g := GroupFor(l, field.tag).value;
        var stored := body.(fields := InsertField(body.fields, field));
        var run := ParseGroups(b, parser, g, field.tag);
        if run.Err? {
          return Err(run.error);
        }
        ghost var p := ParseRun(b, g, toks[1..]).value;
        var missing := CheckRequiredFieldsInGroups(run.value.0, g);
        if missing.Some? {
          return Err(missing.value);
        }
        RunHasEntries(b, g, toks[1..]);
        GroupsFiled(stored, g, p.entries);
        body := SetGroups(stored, run.value.0).value;
        BodyStored(l, nodes, Node(field, p.entries), body);
        nodes := nodes + [Node(field, p.entries)];
        field := run.value.1;
        assert p.rest == [field] + parser.Remaining();
      } else if Absorbs(b, l, field.tag) {
        body := body.(fields := InsertField(body.fields, field));
        BodyStored(l, nodes, Node(field, []), body);
        nodes := nodes + [Node(field, [])];
        var following := parser.NextField();
        if following.None? {
          return Err(Malformed);
        }
        field := following.value;
      } else if field.tag !in b.trailerTags {
        return Err(InvalidField(field.tag));
      } else {
        return Ok((body, field));
      }
    }
  }

  lemma EmptyMap(l: Layout)
    requires WellFormed(l)
    ensures BuildMap(l, []) == EMPTY
  {}

  lemma BodyStored(l: Layout, nodes: seq<Node>, n: Node, body: FieldMap)
    requires WellFormed(l)
    requires var stored := BuildMap(l, nodes).(fields := InsertField(BuildMap(l, nodes).fields, n.field));
             body == if n.entries != [] && GroupFor(l, n.field.tag).Some? then
                       var g := GroupFor(l, n.field.tag).value;
                       stored.(groups := InsertRun(stored.groups, Run(g.countTag, BuildRun(g, n.entries))))
                     else stored
    ensures body == BuildMap(l, nodes + [n])
  {
    BuildMapSnoc(l, nodes, n);
  }

  /** `MessageBuilder::build`. */
  method BuildMessage(b: MessageBuilder, data: seq<byte>) returns (r: ParsedMessage)
    requires WellFormedBuilder(b)
    ensures r == Build(b, data)
  {
    hide Tokens, FieldAt, Integrity, ParseBody, BuildMap, InsertAll, HeaderSpan, TrailerSpan;
    var parser := new Parser(data, b.config.separator);
    var integrity := VerifyIntegrity(parser);
    if integrity.Err? {
      return Garbled(integrity.error);
    }
    var env := integrity.value;
    ghost var toks := parser.Remaining();
    var leading := InsertField(InsertField(InsertField([], env.beginString), env.bodyLength), env.msgType);
    var fields, next := BuildHeader(b, parser, leading);
    assert fields == HeaderFields(b, env, toks);
    if next.None? {
      return Garbled(MalformedMessage);
    }
    var header := FieldMap(fields, []);
    var msgType := GetRaw(header.fields, MSG_TYPE).value;
    if msgType !in b.messages {
      return ErrorResult(InvalidMsgType(msgType), header);
    }
    ghost var n := HeaderSpan(b, toks);
    assert toks[n..] == [next.value] + toks[n + 1..];
    var body := BuildBody(b, b.messages[msgType], parser, next.value);
    if body.Err? {
      return ErrorResult(body.error, header);
    }
    ghost var rest := ParseBody(b, b.messages[msgType], [], toks[n..]).value.rest;
    assert rest == [rest[0]] + rest[1..];
    var trailer := BuildTrailer(parser, [env.checkSum], body.value.1);
    return ParsedMessage.Valid(Parts(header, body.value.0, FieldMap(trailer, [])));
  }
}
