/** The verdict on any byte string: valid, invalid with a reason and the header, or garbled. */
module Verdicts {
  import opened Decimal
  import opened Fields
  import opened Layouts
  import opened Wire
  import opened Grammar
  import opened GroupRejections
  import opened Assembly
  import opened Messages
  import opened Reading
  import opened BodyGrammar
  import opened RoundTrip
  import opened Rejections

  // ----- the header -----

  /** The value of the last field with this tag. */
  function LastValue(fields: seq<Field>, t: Tag): Option<seq<byte>> {
    if fields == [] then None
    else if fields[|fields| - 1].tag == t then Some(fields[|fields| - 1].data)
    else LastValue(fields[..|fields| - 1], t)
  }

  lemma {:induction false} InsertAllLookup(fields: seq<Field>, more: seq<Field>, t: Tag)
    ensures GetRaw(InsertAll(fields, more), t)
            == if LastValue(more, t).Some? then LastValue(more, t) else GetRaw(fields, t)
    decreases |more|
  {
    if more != [] {
      var f, rest := more[0], more[1..];
      InsertAllLookup(InsertField(fields, f), rest, t);
      InsertedField(fields, f);
      LastValueCons(f, rest, t);
      assert more == [f] + rest;
      hide GetRaw, InsertField, LastValue;
    }
  }

  lemma {:induction false} LastValueCons(f: Field, rest: seq<Field>, t: Tag)
    ensures LastValue([f] + rest, t)
            == if LastValue(rest, t).Some? then LastValue(rest, t) else if f.tag == t then Some(f.data) else None
  {
    var all := [f] + rest;
    if rest != [] {
      var front := rest[..|rest| - 1];
      assert all[..|all| - 1] == [f] + front && all[|all| - 1] == rest[|rest| - 1];
      LastValueCons(f, front, t);
    } else {
      assert all[..0] == [];
    }
  }

  /** The header that is read holds, for every tag, the value sent last in the leading fields
      and the header fields behind them, and nothing else. */
  lemma {:induction false} HeaderHolds(b: MessageBuilder, env: Envelope, toks: seq<Field>, t: Tag)
    ensures GetRaw(HeaderFields(b, env, toks), t)
            == LastValue([env.beginString, env.bodyLength, env.msgType] + toks[..HeaderSpan(b, toks)], t)
  {
    var lead, more := [env.beginString, env.bodyLength, env.msgType], toks[..HeaderSpan(b, toks)];
    LeadInserted(env);
    hide GetRaw, InsertField, LastValue, HeaderSpan;
    InsertAllLookup([], lead, t);
    InsertAllLookup(InsertAll([], lead), more, t);
    LastValueConcat(lead, more, t);
    NoFields(t);
  }

  lemma NoFields(t: Tag)
    ensures GetRaw([], t) == None
  {}

  lemma LeadInserted(env: Envelope)
    ensures InsertAll([], [env.beginString, env.bodyLength, env.msgType])
            == InsertField(InsertField(InsertField([], env.beginString), env.bodyLength), env.msgType)
  {
    hide InsertField;
    var lead := [env.beginString, env.bodyLength, env.msgType];
    var one := InsertField([], env.beginString);
    assert lead[1..] == [env.bodyLength, env.msgType] && lead[1..][1..] == [env.msgType] && lead[1..][1..][1..] == [];
    assert InsertAll([], lead) == InsertAll(one, lead[1..]);
    assert InsertAll(one, lead[1..]) == InsertAll(InsertField(one, env.bodyLength), lead[1..][1..]);
  }

  lemma {:induction false} LastValueConcat(a: seq<Field>, c: seq<Field>, t: Tag)
    ensures LastValue(a + c, t) == if LastValue(c, t).Some? then LastValue(c, t) else LastValue(a, t)
  {
    if c == [] {
      assert a + c == a;
    } else {
      var all := a + c;
      assert all[..|all| - 1] == a + c[..|c| - 1] && all[|all| - 1] == c[|c| - 1];
      LastValueConcat(a, c[..|c| - 1], t);
    }
  }

  // ----- the verdict -----

  /** Only the header of a rejected message is kept. */
  function HeaderOnly(b: MessageBuilder, env: Envelope, toks: seq<Field>): Parts {
    Parts(FieldMap(HeaderFields(b, env, toks), []), FieldMap([], []), FieldMap([], []))
  }

  /** The message type the header ends up with. */
  function TypeOf(b: MessageBuilder, env: Envelope, toks: seq<Field>): seq<byte>
    requires env.msgType.tag == MSG_TYPE
  {
    GetRaw(HeaderFields(b, env, toks), MSG_TYPE).value
  }

  /** Why a message with this header is not valid. */
  ghost predicate Wrong(b: MessageBuilder, env: Envelope, toks: seq<Field>, e: ParserError)
    requires WellFormedBuilder(b) && env.msgType.tag == MSG_TYPE
  {
    var n, t := HeaderSpan(b, toks), TypeOf(b, env, toks);
    if n == |toks| then e == Malformed
    else if t !in b.messages then e == InvalidMsgType(t)
    else BodyFails(b, b.messages[t], toks[n..], e)
  }

  /** Once the integrity check has passed: a message is invalid with a reason exactly if that is
      what is wrong with it, and then only its header is kept; it is garbled exactly if its
      fields run out; otherwise it is valid. */
  lemma {:induction false} BuildVerdict(b: MessageBuilder, raw: seq<byte>, env: Envelope)
    requires WellFormedBuilder(b) && Integrity(raw, b.config.separator) == Ok(env)
    ensures env.position <= |raw| && env.msgType.tag == MSG_TYPE
    ensures var toks := Tokens(raw, b.config.separator, env.position);
            && (forall e, m ::
                  Build(b, raw) == Invalid(e, m) <==>
                  !e.Malformed? && Wrong(b, env, toks, e) && m == HeaderOnly(b, env, toks))
            && (forall why ::
                  Build(b, raw) == Garbled(why) <==> why == MalformedMessage && Wrong(b, env, toks, Malformed))
            && (Build(b, raw).Valid? <==> forall e :: !Wrong(b, env, toks, e))
  {
    BuildFromIntegrity(b, raw, env);
    hide Build, Integrity, Tokens;
    FieldsVerdict(b, env, Tokens(raw, b.config.separator, env.position));
  }

  /** A message is invalid for its type exactly if something stands behind its header and the
      dictionary does not know the type. */
  lemma {:induction false} UnknownType(b: MessageBuilder, raw: seq<byte>, env: Envelope, t: seq<byte>)
    requires WellFormedBuilder(b) && Integrity(raw, b.config.separator) == Ok(env)
    ensures env.position <= |raw| && env.msgType.tag == MSG_TYPE
    ensures var toks := Tokens(raw, b.config.separator, env.position);
            var header := [env.beginString, env.bodyLength, env.msgType] + toks[..HeaderSpan(b, toks)];
            Build(b, raw) == Invalid(InvalidMsgType(t), HeaderOnly(b, env, toks)) <==>
            HeaderSpan(b, toks) < |toks| && LastValue(header, MSG_TYPE) == Some(t) && t !in b.messages
  {
    BuildVerdict(b, raw, env);
    var toks := Tokens(raw, b.config.separator, env.position);
    var n, l := HeaderSpan(b, toks), TypeOf(b, env, toks);
    HeaderHolds(b, env, toks, MSG_TYPE);
    if n < |toks| && l in b.messages && BodyFails(b, b.messages[l], toks[n..], InvalidMsgType(t)) {
      BodyFailsKinds(b, b.messages[l], toks[n..], InvalidMsgType(t));
    }
    hide Build, Integrity, Tokens, HeaderSpan, BodyFails, HeaderFields, LastValue;
  }

  lemma {:induction false} BodyFailsKinds(b: MessageBuilder, l: Layout, toks: seq<Field>, e: ParserError)
    requires WellFormed(l) && BodyFails(b, l, toks, e)
    ensures !e.InvalidMsgType?
  {
    hide RunFails, RunConforms, PrefixConforms, EndsPlain, FirstMissing, BuildRun;
    var nodes: seq<Node>, rest: seq<Field> :| BodyFailsBehind(b, l, toks, nodes, rest, e);
    if rest != [] && Declares(l, rest[0].tag) && rest[0].tag in b.fieldTags {
      var g := GroupFor(l, rest[0].tag).value;
      if RunFails(b, g, rest[1..], e) {
        RunFailsKinds(b, g, rest[1..], e);
      } else {
        var entries: seq<Entry> :| FirstMissing(g, BuildRun(g, entries)) == Some(e);
        MissingNamed(g, BuildRun(g, entries));
      }
    }
  }

  lemma {:induction false} FieldsVerdict(b: MessageBuilder, env: Envelope, toks: seq<Field>)
    requires WellFormedBuilder(b) && env.msgType.tag == MSG_TYPE
    ensures var r := BuildFields(b, env, toks);
            && (forall e, m ::
                  r == Invalid(e, m) <==> !e.Malformed? && Wrong(b, env, toks, e) && m == HeaderOnly(b, env, toks))
            && (forall why :: r == Garbled(why) <==> why == MalformedMessage && Wrong(b, env, toks, Malformed))
            && (r.Valid? <==> forall e :: !Wrong(b, env, toks, e))
  {
    var n, t := HeaderSpan(b, toks), TypeOf(b, env, toks);
    if n < |toks| && t in b.messages {
      assert WellFormed(b.messages[t]);
      forall e ensures Wrong(b, env, toks, e) <==> ParseBody(b, b.messages[t], [], toks[n..]) == Err(e) {
        hide BodyFails, ParseBody, HeaderFields;
        BodyRejected(b, b.messages[t], toks[n..], e);
      }
      hide Wrong, ParseBody, HeaderFields, BuildMap, InsertAll;
    } else {
      hide BodyFails, ParseBody, HeaderFields;
      assert forall e :: Wrong(b, env, toks, e) <==> e == if n == |toks| then Malformed else InvalidMsgType(t);
      hide Wrong;
    }
  }

  // ----- running out of fields -----

  /** No level of the layout takes in a field with this tag. */
  ghost predicate Foreign(b: MessageBuilder, l: Layout, t: Tag)
    decreases l
  {
    && !Absorbs(b, l, t)
    && forall i :: 0 <= i < |l.groups| ==> ForeignGroup(b, l.groups[i], t)
  }

  ghost predicate ForeignGroup(b: MessageBuilder, g: GroupSpec, t: Tag)
    decreases g
  {
    Foreign(b, g.layout, t)
  }

  predicate Absent(fields: seq<Field>, t: Tag) {
    forall i :: 0 <= i < |fields| ==> fields[i].tag != t
  }

  lemma AbsentConcat(a: seq<Field>, c: seq<Field>, t: Tag)
    ensures Absent(a + c, t) <==> Absent(a, t) && Absent(c, t)
  {
    assert forall i :: 0 <= i < |a| ==> (a + c)[i] == a[i];
    assert forall i :: 0 <= i < |c| ==> (a + c)[|a| + i] == c[i];
  }

  /** Conforming syntax has no foreign field in it. */
  lemma {:induction false} EntryAbsent(b: MessageBuilder, g: GroupSpec, nodes: seq<Node>, follow: Tag, t: Tag, k: nat)
    requires WellFormedGroup(g) && ForeignGroup(b, g, t) && EntryConforms(b, g, Entry(nodes), follow) && k <= |nodes|
    ensures Absent(FlatNodes(nodes[k..]), t)
    decreases nodes, |nodes| - k
  {
    hide *;
    NoEntries();
    NothingAbsent(t);
    if k < |nodes| {
      var n, rest := nodes[k], nodes[k..];
      assert n in nodes && rest[0] == n && rest[1..] == nodes[k + 1..];
      EntryNode(b, g, nodes, follow, k);
      EntryAbsent(b, g, nodes, follow, t, k + 1);
      NodeAbsent(b, g, n, NextTag(nodes, k, follow), k == 0, t);
      FlatFirstNode(rest);
      AbsentConcat([n.field] + FlatEntries(n.entries), FlatNodes(rest[1..]), t);
    } else {
      assert nodes[k..] == [];
    }
  }

  lemma NothingAbsent(t: Tag)
    ensures Absent([], t)
  {}

  lemma EntryNode(b: MessageBuilder, g: GroupSpec, nodes: seq<Node>, follow: Tag, k: nat)
    requires WellFormedGroup(g) && EntryConforms(b, g, Entry(nodes), follow) && k < |nodes|
    ensures if k == 0 then nodes[k].field.tag == Delimiter(g) && nodes[k].entries == []
            else NodeConforms(b, g, nodes[k], NextTag(nodes, k, follow))
  {
    hide NodeConforms;
  }

  lemma FlatFirstNode(nodes: seq<Node>)
    requires nodes != []
    ensures FlatNodes(nodes) == [nodes[0].field] + FlatEntries(nodes[0].entries) + FlatNodes(nodes[1..])
  {}

  lemma {:induction false} NodeAbsent(b: MessageBuilder, g: GroupSpec, n: Node, follow: Tag, first: bool, t: Tag)
    requires WellFormedGroup(g) && ForeignGroup(b, g, t)
    requires if first then n.field.tag == Delimiter(g) && n.entries == [] else NodeConforms(b, g, n, follow)
    ensures Absent([n.field] + FlatEntries(n.entries), t)
    decreases n
  {
    assert n.field.tag != t;
    AbsentConcat([n.field], FlatEntries(n.entries), t);
    if n.entries == [] {
      NoEntries();
    } else {
      var nested := GroupFor(g.layout, n.field.tag).value;
      var i :| 0 <= i < |g.layout.groups| && g.layout.groups[i] == nested;
      assert ForeignGroup(b, g.layout.groups[i], t);
      EntriesAbsent(b, nested, n.entries, follow, t, 0);
      assert n.entries[0..] == n.entries;
    }
  }

  lemma {:induction false} EntriesAbsent(b: MessageBuilder, g: GroupSpec, entries: seq<Entry>, follow: Tag, t: Tag,
                                         k: nat)
    requires WellFormedGroup(g) && ForeignGroup(b, g, t) && k <= |entries|
    requires forall i :: 0 <= i < |entries| ==>
               EntryConforms(b, g, entries[i], if i + 1 < |entries| then Delimiter(g) else follow)
    ensures Absent(FlatEntries(entries[k..]), t)
    decreases entries, |entries| - k
  {
    if k == |entries| {
      NoEntries();
    } else {
      var e, rest := entries[k], entries[k..];
      assert e in entries && rest[0] == e && rest[1..] == entries[k + 1..] && Entry(e.nodes) == e;
      EntriesAbsent(b, g, entries, follow, t, k + 1);
      EntryAbsent(b, g, e.nodes, if k + 1 < |entries| then Delimiter(g) else follow, t, 0);
      assert e.nodes[0..] == e.nodes;
      AbsentConcat(FlatNodes(e.nodes), FlatEntries(rest[1..]), t);
    }
  }

  /** A run that ends too soon holds no foreign field. */
  lemma {:induction false} RunExhausted(b: MessageBuilder, g: GroupSpec, toks: seq<Field>, t: Tag)
    requires WellFormedGroup(g) && ForeignGroup(b, g, t) && RunFails(b, g, toks, Malformed)
    ensures Absent(toks, t)
    decreases |toks|
  {
    hide RunFails, FailsAt, Reached, ForeignGroup;
    NothingAbsent(t);
    if toks != [] {
      var done, cur, rest := HowRunFails(b, g, toks);
      if rest != [] {
        NestedFails(b, g, cur, rest, t);
        hide *;
        RunExhausted(b, GroupFor(g.layout, rest[0].tag).value, rest[1..], t);
        assert rest == [rest[0]] + rest[1..];
        OneAbsent(rest[0], t);
        AbsentConcat([rest[0]], rest[1..], t);
        ReachedAbsent(b, g, toks, done, cur, rest, t);
      } else {
        hide *;
        ReachedAbsent(b, g, toks, done, cur, rest, t);
      }
    }
  }

  lemma HowRunFails(b: MessageBuilder, g: GroupSpec, toks: seq<Field>)
    returns (done: seq<Entry>, cur: seq<Node>, rest: seq<Field>)
    requires WellFormedGroup(g) && toks != [] && RunFails(b, g, toks, Malformed)
    ensures Reached(b, g, toks, done, cur, rest) && |rest| < |toks| && FailsAt(b, g, cur, rest, Malformed)
  {
    hide Reached, FailsAt;
    done, cur, rest :| Reached(b, g, toks, done, cur, rest) && |rest| < |toks| && FailsAt(b, g, cur, rest, Malformed);
  }

  lemma OneAbsent(f: Field, t: Tag)
    requires f.tag != t
    ensures Absent([f], t)
  {}

  lemma {:induction false} NestedFails(b: MessageBuilder, g: GroupSpec, cur: seq<Node>, rest: seq<Field>, t: Tag)
    requires WellFormedGroup(g) && rest != [] && ForeignGroup(b, g, t) && FailsAt(b, g, cur, rest, Malformed)
    ensures rest[0].tag != t && GroupFor(g.layout, rest[0].tag).Some?
    ensures var nested := GroupFor(g.layout, rest[0].tag).value;
            WellFormedGroup(nested) && ForeignGroup(b, nested, t) && RunFails(b, nested, rest[1..], Malformed)
  {
    hide RunFails, OutOfOrder;
    var nested := GroupFor(g.layout, rest[0].tag).value;
    var i :| 0 <= i < |g.layout.groups| && g.layout.groups[i] == nested;
    assert ForeignGroup(b, g.layout.groups[i], t);
  }

  /** What was read up to the failure has no foreign field in it. */
  lemma {:induction false} ReachedAbsent(b: MessageBuilder, g: GroupSpec, toks: seq<Field>, done: seq<Entry>,
                                         cur: seq<Node>, rest: seq<Field>, t: Tag)
    requires WellFormedGroup(g) && ForeignGroup(b, g, t) && Reached(b, g, toks, done, cur, rest) && Absent(rest, t)
    ensures Absent(toks, t)
  {
    hide EntryConforms, ForeignGroup, Absent, FlatNodes, FlatEntries;
    EntriesAbsent(b, g, done, Delimiter(g), t, 0);
    assert done[0..] == done && cur[0..] == cur;
    EntryAbsent(b, g, cur, if rest == [] then Delimiter(g) else rest[0].tag, t, 0);
    AbsentConcat(FlatEntries(done), FlatNodes(cur), t);
    AbsentConcat(FlatEntries(done) + FlatNodes(cur), rest, t);
  }

  lemma {:induction false} BodyAbsent(b: MessageBuilder, l: Layout, nodes: seq<Node>, follow: Tag, t: Tag)
    requires WellFormed(l) && Foreign(b, l, t) && PrefixConforms(b, l, nodes, follow)
    ensures Absent(FlatNodes(nodes), t)
    decreases |nodes|
  {
    NoEntries();
    if nodes != [] {
      var n := nodes[0];
      assert BodyNodeConforms(b, l, n, NextTag(nodes, 0, follow));
      BodyNodeAbsent(b, l, n, NextTag(nodes, 0, follow), t);
      hide BodyNodeConforms, Foreign, FlatNodes, FlatEntries;
      PrefixRest(b, l, nodes, follow);
      BodyAbsent(b, l, nodes[1..], follow, t);
      FlatFirstNode(nodes);
      AbsentConcat([n.field] + FlatEntries(n.entries), FlatNodes(nodes[1..]), t);
    }
  }

  lemma PrefixRest(b: MessageBuilder, l: Layout, nodes: seq<Node>, follow: Tag)
    requires WellFormed(l) && nodes != [] && PrefixConforms(b, l, nodes, follow)
    ensures PrefixConforms(b, l, nodes[1..], follow)
  {
    hide BodyNodeConforms;
    var more := nodes[1..];
    forall i | 0 <= i < |more| ensures BodyNodeConforms(b, l, more[i], NextTag(more, i, follow)) {
      assert more[i] == nodes[i + 1] && NextTag(more, i, follow) == NextTag(nodes, i + 1, follow);
    }
  }

  lemma {:induction false} BodyNodeAbsent(b: MessageBuilder, l: Layout, n: Node, follow: Tag, t: Tag)
    requires WellFormed(l) && Foreign(b, l, t) && BodyNodeConforms(b, l, n, follow)
    ensures Absent([n.field] + FlatEntries(n.entries), t)
  {
    assert n.field.tag != t;
    NoEntries();
    AbsentConcat([n.field], FlatEntries(n.entries), t);
    if n.entries != [] {
      var g := GroupFor(l, n.field.tag).value;
      var i :| 0 <= i < |l.groups| && l.groups[i] == g;
      assert ForeignGroup(b, l.groups[i], t);
      assert RunConforms(b, g, n.entries, follow);
      hide BodyNodeConforms, Foreign, ForeignGroup, EntryConforms, FlatEntries;
      EntriesAbsent(b, g, n.entries, follow, t, 0);
      assert n.entries[0..] == n.entries;
    }
  }

  /** A message is malformed only if its fields run out: none of the fields behind its header is
      one that every level leaves alone, such as the checksum. */
  lemma {:induction false} MalformedRunsOut(b: MessageBuilder, l: Layout, toks: seq<Field>, t: Tag)
    requires WellFormed(l) && Foreign(b, l, t) && BodyFails(b, l, toks, Malformed)
    ensures Absent(toks, t)
  {
    var nodes: seq<Node>, rest: seq<Field> :| BodyFailsBehind(b, l, toks, nodes, rest, Malformed);
    NoEntries();
    if rest == [] {
      if nodes != [] {
        BodyAbsent(b, l, nodes, CHECK_SUM, t);
      }
      assert toks == FlatNodes(nodes);
    } else {
      BodyAbsent(b, l, nodes, rest[0].tag, t);
      BodyStopAbsent(b, l, rest, t);
      hide Foreign, FlatNodes;
      AbsentConcat(FlatNodes(nodes), rest, t);
    }
  }

  lemma {:induction false} BodyStopAbsent(b: MessageBuilder, l: Layout, rest: seq<Field>, t: Tag)
    requires WellFormed(l) && rest != [] && Foreign(b, l, t) && BodyFailsAt(b, l, rest, Malformed)
    ensures Absent(rest, t)
  {
    hide RunFails, RunLacks, Foreign, ForeignGroup, RunConforms;
    var g := StopGroup(b, l, rest, t);
    NotLacking(b, g, rest[1..]);
    RunExhausted(b, g, rest[1..], t);
    assert rest == [rest[0]] + rest[1..];
    AbsentConcat([rest[0]], rest[1..], t);
  }

  lemma StopGroup(b: MessageBuilder, l: Layout, rest: seq<Field>, t: Tag) returns (g: GroupSpec)
    requires WellFormed(l) && rest != [] && Foreign(b, l, t) && BodyFailsAt(b, l, rest, Malformed)
    ensures WellFormedGroup(g) && ForeignGroup(b, g, t) && rest[0].tag != t
    ensures RunFails(b, g, rest[1..], Malformed) || RunLacks(b, g, rest[1..], Malformed)
  {
    hide RunFails, RunLacks;
    g := GroupFor(l, rest[0].tag).value;
    var i :| 0 <= i < |l.groups| && l.groups[i] == g;
    assert ForeignGroup(b, l.groups[i], t);
  }

  /** What lacks a field is not malformed. */
  lemma {:induction false} NotLacking(b: MessageBuilder, g: GroupSpec, toks: seq<Field>)
    requires WellFormedGroup(g)
    ensures !RunLacks(b, g, toks, Malformed)
  {
    hide RunConforms, FirstMissing, BuildRun;
    if RunLacks(b, g, toks, Malformed) {
      var entries: seq<Entry>, rest: seq<Field> :|
        && rest != [] && toks == FlatEntries(entries) + rest && RunConforms(b, g, entries, rest[0].tag)
        && FirstMissing(g, BuildRun(g, entries)) == Some(Malformed);
      MissingNamed(g, BuildRun(g, entries));
    }
  }

  // ----- what the integrity check says -----

  /** A rendered field list of the announced length that ends in a checksum field is garbled for
      the first thing wrong with it: its first, second, last or third field, in that order. */
  lemma {:induction false} IntegrityVerdict(fields: seq<Field>, sep: byte)
    requires |fields| >= 4 && AllSeparable(fields, sep)
    requires fields[|fields| - 1].Length() == CHECKSUM_LENGTH
    ensures var raw, k := Render(fields, sep), |fields| - 1;
            var n := ParseUnsigned(fields[1].data, U64_LIMIT);
            var last := fields[k];
            Integrity(raw, sep) ==
            if fields[0].tag != BEGIN_STRING then Err(InvalidBeginString)
            else if fields[1].tag != BODY_LENGTH || n.None? then Err(InvalidBodyLength)
            else if |raw| != |Render(fields[..2], sep)| + n.value + CHECKSUM_LENGTH then Err(InvalidBodyLength)
            else if last.tag != CHECK_SUM then Err(InvalidChecksum)
            else if AllDigits(last.data) && Horner(last.data) % 256 != ByteSum(Render(fields[..k], sep)) % 256
            then Err(InvalidChecksum)
            else if fields[2].tag != MSG_TYPE then Err(InvalidMessageType)
            else Ok(Envelope(fields[0], fields[1], fields[2], last, |Render(fields[..3], sep)|))
  {
    hide *;
    var raw, k := Render(fields, sep), |fields| - 1;
    assert fields[..0] == [] && fields[..k + 1] == fields;
    SeparableAt(fields, sep);
    FieldAtBoundary(fields, 0, sep);
    FieldAtBoundary(fields, 1, sep);
    FieldAtBoundary(fields, 2, sep);
    FieldAtBoundary(fields, k, sep);
    RenderNothing(sep);
    RenderSplit(fields, k, sep);
    var r1, r2, rk := |Render(fields[..1], sep)|, |Render(fields[..2], sep)|, |Render(fields[..k], sep)|;
    assert raw[..rk] == Render(fields[..k], sep);
    IntegrityFirstTwo(raw, sep, fields[0], r1 - 1, fields[1], r2 - 1);
    var n := ParseUnsigned(fields[1].data, U64_LIMIT);
    if n.Some? && |raw| == r2 + n.value + CHECKSUM_LENGTH {
      EnvelopeVerdict(raw, sep, fields[0], fields[1], fields[2], fields[k], r2, rk, |Render(fields[..3], sep)| - 1);
    }
  }

  lemma IntegrityFirstTwo(raw: seq<byte>, sep: byte, f8: Field, end8: nat, f9: Field, end9: nat)
    requires FieldAt(raw, sep, 0) == Some((f8, end8)) && end8 < |raw| && FieldAt(raw, sep, end8 + 1) == Some((f9, end9))
    ensures end9 < |raw|
    ensures var n := ParseUnsigned(f9.data, U64_LIMIT);
            Integrity(raw, sep) ==
            if f8.tag != BEGIN_STRING then Err(InvalidBeginString)
            else if f9.tag != BODY_LENGTH || n.None? || |raw| != end9 + 1 + n.value + CHECKSUM_LENGTH
            then Err(InvalidBodyLength)
            else EnvelopeAt(raw, sep, f8, f9, end9 + 1, end9 + 1 + n.value)
  {
    hide FieldAt, ParseUnsigned, EnvelopeAt;
  }

  lemma EnvelopeVerdict(raw: seq<byte>, sep: byte, f8: Field, f9: Field, third: Field, last: Field, start: nat,
                        end: nat,
                        end3: nat)
    requires start <= end <= |raw| && last.Length() == CHECKSUM_LENGTH
    requires FieldAt(raw, sep, start) == Some((third, end3))
    requires FieldAt(raw, sep, end).Some? && FieldAt(raw, sep, end).value.0 == last
    ensures EnvelopeAt(raw, sep, f8, f9, start, end) ==
            if last.tag != CHECK_SUM then Err(InvalidChecksum)
            else if AllDigits(last.data) && Horner(last.data) % 256 != ByteSum(raw[..end]) % 256
            then Err(InvalidChecksum)
            else if third.tag != MSG_TYPE then Err(InvalidMessageType)
            else Ok(Envelope(f8, f9, third, last, end3 + 1))
  {
    hide FieldAt, ByteSum, Horner;
    if last.tag == CHECK_SUM {
      CheckSumWidth(last);
    }
  }

  // ----- unknown fields -----

  /** A message with one body field its layout does not declare, standing in front of the
      checksum, is valid exactly if the field's tag is 5000 or more, is not in the dictionary, and
      user-defined fields are not validated; otherwise it is invalid for that tag. */
  lemma {:induction false} UnknownField(b: MessageBuilder, fields: seq<Field>)
    requires WellFormedBuilder(b) && |fields| == 5 && AllSeparable(fields, b.config.separator)
    requires Integrity(Render(fields, b.config.separator), b.config.separator).Ok?
    requires fields[0].tag == BEGIN_STRING && fields[1].tag == BODY_LENGTH && fields[2].tag == MSG_TYPE
    requires fields[4].tag == CHECK_SUM && fields[4].Length() == CHECKSUM_LENGTH && fields[2].data in b.messages
    requires var l, t := b.messages[fields[2].data], fields[3].tag;
             && !Declares(l, t) && t !in b.headerTags && t !in b.trailerTags
             && CHECK_SUM in b.trailerTags && !Absorbs(b, l, CHECK_SUM)
    ensures var t, r := fields[3].tag, Build(b, Render(fields, b.config.separator));
            && (r.Valid? <==> t >= 5000 && t !in b.fieldTags && !b.config.validateUserDefinedFields)
            && (!r.Valid? ==> r.Invalid? && r.reason == InvalidField(t))
            && (r.Valid? ==> r.message.body == FieldMap([fields[3]], []))
  {
    hide *;
    var sep := b.config.separator;
    var raw := Render(fields, sep);
    IntegrityVerdict(fields, sep);
    var env := Envelope(fields[0], fields[1], fields[2], fields[4], |Render(fields[..3], sep)|);
    SeparableAt(fields, sep);
    TokensAtBoundary(fields, 3, sep);
    BuildFromIntegrity(b, raw, env);
    assert fields[3..] == [fields[3], fields[4]];
    UnknownBuilt(b, env, fields[3], fields[4]);
  }

  lemma {:induction false} UnknownBuilt(b: MessageBuilder, env: Envelope, f: Field, f10: Field)
    requires WellFormedBuilder(b) && env.msgType.tag == MSG_TYPE && env.msgType.data in b.messages
    requires env.beginString.tag == BEGIN_STRING && env.bodyLength.tag == BODY_LENGTH
    requires var l := b.messages[env.msgType.data];
             && !Declares(l, f.tag) && f.tag !in b.headerTags && f.tag !in b.trailerTags
             && f10.tag == CHECK_SUM && CHECK_SUM in b.trailerTags && !Absorbs(b, l, CHECK_SUM)
    ensures var r := BuildFields(b, env, [f, f10]);
            && (r.Valid? <==> f.tag >= 5000 && f.tag !in b.fieldTags && !b.config.validateUserDefinedFields)
            && (!r.Valid? ==> r.Invalid? && r.reason == InvalidField(f.tag))
            && (r.Valid? ==> r.message.body == FieldMap([f], []))
  {
    var toks := [f, f10];
    var l := b.messages[env.msgType.data];
    assert HeaderSpan(b, toks) == 0 && toks[..0] == [] && toks[0..] == toks;
    HeaderHolds(b, env, toks, MSG_TYPE);
    assert LastValue([env.beginString, env.bodyLength, env.msgType] + [], MSG_TYPE) == Some(env.msgType.data) by {
      assert [env.beginString, env.bodyLength, env.msgType] + [] == [env.beginString, env.bodyLength, env.msgType];
    }
    assert WellFormed(l);
    hide HeaderFields, HeaderSpan, LastValue;
    UnknownParsed(b, l, f, f10);
    UnknownStored(l, f);
    hide ParseBody, BuildMap, InsertAll;
  }

  lemma {:induction false} UnknownParsed(b: MessageBuilder, l: Layout, f: Field, f10: Field)
    requires WellFormed(l) && !Declares(l, f.tag) && f.tag !in b.trailerTags
    requires f10.tag == CHECK_SUM && CHECK_SUM in b.trailerTags && !Absorbs(b, l, CHECK_SUM)
    ensures ParseBody(b, l, [], [f, f10]) ==
            if f.tag >= 5000 && f.tag !in b.fieldTags && !b.config.validateUserDefinedFields then
              Ok(ParsedBody([Node(f, [])], [f10]))
            else Err(InvalidField(f.tag))
  {
    assert [f, f10][1..] == [f10] && [] + [Node(f, [])] == [Node(f, [])];
  }

  lemma {:induction false} UnknownStored(l: Layout, f: Field)
    requires WellFormed(l) && !Declares(l, f.tag)
    ensures BuildMap(l, [Node(f, [])]) == FieldMap([f], [])
  {
    var n := Node(f, []);
    assert [] + [n] == [n];
    BuildMapSnoc(l, [], n);
    assert InsertField([], f) == [f];
  }
}
