/** Encoding what was built: when the original bytes come back, and what is lost otherwise. */
module Reverse {
  import opened Decimal
  import opened Fields
  import opened Layouts
  import opened Wire
  import opened Encoder
  import opened Lengths
  import opened Grammar
  import opened Assembly
  import opened Messages
  import opened BodyLengths
  import opened Reading
  import opened BodyGrammar
  import opened RoundTrip
  import opened Rebuilding

  // ----- storing a list of fields -----

  predicate SkipsStored(fields: seq<Field>, skip: seq<Tag>) {
    forall t :: t in skip ==> HasTag(fields, t)
  }

  lemma UniqueSnoc(fields: seq<Field>, f: Field)
    requires UniqueTags(fields)
    ensures UniqueTags(fields + [f]) <==> !HasTag(fields, f.tag)
  {
    var all := fields + [f];
    if HasTag(fields, f.tag) {
      var k := IndexOf(fields, f.tag);
      assert all[k].tag == all[|fields|].tag;
    }
  }

  lemma {:induction false} NotUniqueEarlier(a: seq<Field>, b: seq<Field>)
    requires UniqueTags(a + b)
    ensures UniqueTags(a)
  {
    assert forall i :: 0 <= i < |a| ==> a[i] == (a + b)[i];
  }

  /** Stored one after the other, fields take no more room than they had, and as much only if
      no tag repeats. */
  lemma {:induction false} InsertAllLength(fields: seq<Field>, more: seq<Field>, skip: seq<Tag>)
    requires UniqueTags(fields) && SkipsStored(fields, skip)
    ensures FieldsLength(InsertAll(fields, more), skip) <= FieldsLength(fields, skip) + TotalLength(more)
    ensures FieldsLength(InsertAll(fields, more), skip) == FieldsLength(fields, skip) + TotalLength(more)
            <==> UniqueTags(fields + more)
    decreases |more|
  {
    if more == [] {
      assert fields + more == fields;
    } else {
      var fields' := InsertField(fields, more[0]);
      assert InsertAll(fields, more) == InsertAll(fields', more[1..]);
      hide *;
      StoreOne(fields, more[0], skip);
      InsertAllLength(fields', more[1..], skip);
      UniqueCons(fields, more);
      TotalHead(more);
    }
  }

  lemma StoreOne(fields: seq<Field>, f: Field, skip: seq<Tag>)
    requires UniqueTags(fields) && SkipsStored(fields, skip)
    ensures var fields' := InsertField(fields, f);
            && UniqueTags(fields') && SkipsStored(fields', skip)
            && FieldsLength(fields', skip) <= FieldsLength(fields, skip) + f.Length()
            && (FieldsLength(fields', skip) == FieldsLength(fields, skip) + f.Length() <==> !HasTag(fields, f.tag))
            && (!HasTag(fields, f.tag) ==> fields' == fields + [f])
  {
    hide FieldsLength;
    var fields' := InsertField(fields, f);
    InsertedField(fields, f);
    forall t | t in skip ensures HasTag(fields', t) {
      assert GetRaw(fields', t).Some?;
    }
    InsertLength(fields, f, skip);
  }

  lemma UniqueCons(fields: seq<Field>, more: seq<Field>)
    requires UniqueTags(fields) && more != []
    ensures UniqueTags(fields + more) <==> !HasTag(fields, more[0].tag) && UniqueTags(fields + [more[0]] + more[1..])
  {
    assert fields + more == fields + [more[0]] + more[1..];
    UniqueSnoc(fields, more[0]);
    if UniqueTags(fields + more) {
      NotUniqueEarlier(fields + [more[0]], more[1..]);
    }
  }

  lemma TotalHead(fields: seq<Field>)
    requires fields != []
    ensures TotalLength(fields) == fields[0].Length() + TotalLength(fields[1..])
  {}

  lemma TotalNone()
    ensures TotalLength([]) == 0
  {}

  lemma {:induction false} InsertAllFrom(fields: seq<Field>, more: seq<Field>)
    ensures forall f :: f in InsertAll(fields, more) ==> f in fields || f in more
    decreases |more|
  {
    if more != [] {
      InsertAllFrom(InsertField(fields, more[0]), more[1..]);
    }
  }

  // ----- the checksum field leaves the trailer -----

  lemma {:induction false} LengthConcat(a: seq<Field>, b: seq<Field>, skip: seq<Tag>)
    ensures FieldsLength(a + b, skip) == FieldsLength(a, skip) + FieldsLength(b, skip)
  {
    if a == [] {
      assert a + b == b;
    } else {
      assert (a + b)[0] == a[0] && (a + b)[1..] == a[1..] + b;
      LengthConcat(a[1..], b, skip);
    }
  }

  lemma {:induction false} RemoveSkipped(fields: seq<Field>, t: Tag)
    ensures FieldsLength(RemoveTag(fields, t), [t]) == FieldsLength(fields, [t])
  {
    if HasTag(fields, t) {
      var k := IndexOf(fields, t);
      var a, b := fields[..k], fields[k + 1..];
      assert fields == a + ([fields[k]] + b);
      LengthConcat(a, b, [t]);
      LengthConcat(a, [fields[k]] + b, [t]);
      LengthConcat([fields[k]], b, [t]);
      assert FieldsLength([fields[k]], [t]) == 0;
    }
  }

  // ----- integrity, read backwards -----

  /** A rendered field list that ends in a seven-byte checksum field. */
  ghost predicate Ended(fields: seq<Field>, sep: byte) {
    && AllSeparable(fields, sep) && fields != []
    && fields[|fields| - 1].tag == CHECK_SUM && fields[|fields| - 1].Length() == CHECKSUM_LENGTH
  }

  lemma {:induction false} IntegrityOfRendered(fields: seq<Field>, sep: byte) returns (n: nat)
    requires Ended(fields, sep) && Integrity(Render(fields, sep), sep).Ok?
    ensures |fields| >= 4
    ensures fields[0].tag == BEGIN_STRING && fields[1].tag == BODY_LENGTH && fields[2].tag == MSG_TYPE
    ensures ParseUnsigned(fields[1].data, U64_LIMIT) == Some(n)
    ensures |Render(fields, sep)| == |Render(fields[..2], sep)| + n + CHECKSUM_LENGTH
    ensures Integrity(Render(fields, sep), sep)
            == Ok(Envelope(fields[0], fields[1], fields[2], fields[|fields| - 1], |Render(fields[..3], sep)|))
  {
    hide FieldAt, ByteSum, ParseUnsigned, ParseCheckSum, RenderField;
    var k := |fields| - 1;
    assert fields[..0] == [];
    FieldAtBoundary(fields, 0, sep);
    FieldAtBoundary(fields, 1, sep);
    n := ParseUnsigned(fields[1].data, U64_LIMIT).value;
    FieldAtBoundary(fields, 2, sep);
    FieldAtBoundary(fields, k, sep);
    assert fields[..k + 1] == fields;
    hide Render;
  }

  // ----- the parts of a valid message -----

  /** A rendered field list as `encode` writes one: canonical BodyLength, three-digit checksum. */
  ghost predicate CanonicalMessage(fields: seq<Field>, sep: byte) {
    && !IsDigit(sep) && AllSeparable(fields, sep) && |fields| >= 2
    && Decimal.Canonical(fields[1].data)
    && fields[|fields| - 1] == CheckSumField(Render(fields[..|fields| - 1], sep))
  }

  function ReadEnvelope(fields: seq<Field>, sep: byte): Envelope
    requires |fields| >= 4
  {
    Envelope(fields[0], fields[1], fields[2], fields[|fields| - 1], |Render(fields[..3], sep)|)
  }

  /** Header fields behind the leading three; the body's syntax; the field that ends it and
      everything behind it. */
  datatype Sections = Sections(head: seq<Field>, layout: Layout, nodes: seq<Node>, rest: seq<Field>)

  /** The sections of a field list: the header ends at the first tag that is not a header tag,
      and the body is read with the layout of the message type the header ends up with. */
  ghost predicate SectionsOf(b: MessageBuilder, fields: seq<Field>, s: Sections) {
    && |fields| >= 4 && WellFormed(s.layout)
    && s.head == fields[3..][..HeaderSpan(b, fields[3..])]
    && TypedLayout(b, InsertAll(fields[..3], s.head), s.layout)
    && fields[3..] == s.head + (FlatNodes(s.nodes) + s.rest)
    && s.rest != [] && s.rest[|s.rest| - 1] == fields[|fields| - 1]
    && BodyConforms(b, s.layout, s.nodes, s.rest[0].tag)
  }

  /** The layout the dictionary gives to messages with this header. */
  predicate TypedLayout(b: MessageBuilder, header: seq<Field>, l: Layout) {
    match GetRaw(header, MSG_TYPE)
    case None => false
    case Some(messageType) => messageType in b.messages && b.messages[messageType] == l
  }

  /** There is at most one way to divide a field list into sections: they are what the builder
      reads. */
  lemma {:induction false} SectionsUnique(b: MessageBuilder, fields: seq<Field>, s: Sections, s': Sections)
    requires SectionsOf(b, fields, s) && SectionsOf(b, fields, s')
    ensures s == s'
  {
    var toks := fields[3..][|s.head|..];
    assert toks == FlatNodes(s.nodes) + s.rest && toks == FlatNodes(s'.nodes) + s'.rest;
    assert s.layout == s'.layout;
    hide *;
    SectionFacts(b, fields, s);
    SectionFacts(b, fields, s');
    BodyRead(b, s.layout, s.nodes, s.rest);
    BodyRead(b, s.layout, s'.nodes, s'.rest);
  }

  lemma BodyRead(b: MessageBuilder, l: Layout, nodes: seq<Node>, rest: seq<Field>)
    requires WellFormed(l) && rest != [] && BodyConforms(b, l, nodes, rest[0].tag)
    ensures ParseBody(b, l, [], FlatNodes(nodes) + rest) == Ok(ParsedBody(nodes, rest))
  {
    hide *;
    BodyComplete(b, l, [], nodes, rest);
    assert [] + nodes == nodes;
  }

  function Assembled(fields: seq<Field>, s: Sections): Parts
    requires |fields| >= 4 && WellFormed(s.layout)
  {
    Parts(FieldMap(InsertAll(fields[..3], s.head), []),
          BuildMap(s.layout, s.nodes),
          FieldMap(InsertAll([fields[|fields| - 1]], s.rest[..TrailerSpan(s.rest)]), []))
  }

  lemma {:induction false} ValidSections(b: MessageBuilder, fields: seq<Field>) returns (s: Sections, n: nat)
    requires WellFormedBuilder(b) && CanonicalMessage(fields, b.config.separator)
    requires Build(b, Render(fields, b.config.separator)).Valid?
    ensures SectionsOf(b, fields, s)
    ensures Build(b, Render(fields, b.config.separator)).message == Assembled(fields, s)
    ensures fields[0].tag == BEGIN_STRING && fields[1].tag == BODY_LENGTH && fields[2].tag == MSG_TYPE
    ensures ParseUnsigned(fields[1].data, U64_LIMIT) == Some(n)
    ensures |Render(fields, b.config.separator)| == |Render(fields[..2], b.config.separator)| + n + CHECKSUM_LENGTH
  {
    var sep := b.config.separator;
    var raw := Render(fields, sep);
    CheckSumFacts(Render(fields[..|fields| - 1], sep), sep);
    assert Ended(fields, sep);
    assert Integrity(raw, sep).Ok?;
    n := IntegrityOfRendered(fields, sep);
    TokensAtBoundary(fields, 3, sep);
    BuildFromIntegrity(b, raw, ReadEnvelope(fields, sep));
    s := SectionsOfValid(b, fields, ReadEnvelope(fields, sep));
  }

  lemma {:induction false} SectionsOfValid(b: MessageBuilder, fields: seq<Field>, env: Envelope) returns (s: Sections)
    requires WellFormedBuilder(b) && |fields| >= 4
    requires fields[0].tag == BEGIN_STRING && fields[1].tag == BODY_LENGTH && fields[2].tag == MSG_TYPE
    requires env.beginString == fields[0] && env.bodyLength == fields[1] && env.msgType == fields[2]
             && env.checkSum == fields[|fields| - 1]
    requires BuildFields(b, env, fields[3..]).Valid?
    ensures SectionsOf(b, fields, s)
    ensures BuildFields(b, env, fields[3..]).message == Assembled(fields, s)
  {
    hide *;
    var toks := fields[3..];
    var n := HeaderSpan(b, toks);
    BuiltFromFields(b, env, toks);
    var l := b.messages[GetRaw(HeaderFields(b, env, toks), MSG_TYPE).value];
    var p := ParseBody(b, l, [], toks[n..]).value;
    s := Sections(toks[..n], l, p.nodes, p.rest);
    HeaderStored(b, env, fields);
    BodyFromStart(b, l, toks[n..]);
    assert toks == toks[..n] + toks[n..];
    LastKept(s.head + FlatNodes(p.nodes), p.rest, toks);
    assert toks[|toks| - 1] == fields[|fields| - 1];
    SectionsMade(b, fields, s);
  }

  lemma HeaderStored(b: MessageBuilder, env: Envelope, fields: seq<Field>)
    requires |fields| >= 4
    requires fields[0].tag == BEGIN_STRING && fields[1].tag == BODY_LENGTH && fields[2].tag == MSG_TYPE
    requires env.beginString == fields[0] && env.bodyLength == fields[1] && env.msgType == fields[2]
    ensures HeaderFields(b, env, fields[3..]) == InsertAll(fields[..3], fields[3..][..HeaderSpan(b, fields[3..])])
  {
    LeadStored(env, fields);
  }

  lemma BodyFromStart(b: MessageBuilder, l: Layout, toks: seq<Field>)
    requires WellFormed(l) && ParseBody(b, l, [], toks).Ok?
    ensures var p := ParseBody(b, l, [], toks).value;
            toks == FlatNodes(p.nodes) + p.rest && BodyConforms(b, l, p.nodes, p.rest[0].tag)
  {
    assert toks != [] ==> PrefixConforms(b, l, [], toks[0].tag);
    FlatNone();
    hide *;
    BodySound(b, l, [], toks);
    assert FlatNodes([]) + toks == toks;
  }

  lemma SectionsMade(b: MessageBuilder, fields: seq<Field>, s: Sections)
    requires |fields| >= 4 && WellFormed(s.layout)
    requires fields[3..] == s.head + (FlatNodes(s.nodes) + s.rest)
    requires s.rest != [] && s.rest[|s.rest| - 1] == fields[|fields| - 1]
    requires BodyConforms(b, s.layout, s.nodes, s.rest[0].tag)
    requires s.head == fields[3..][..HeaderSpan(b, fields[3..])]
             && TypedLayout(b, InsertAll(fields[..3], s.head), s.layout)
    ensures SectionsOf(b, fields, s)
    ensures Assembled(fields, s) == Parts(FieldMap(InsertAll(fields[..3], s.head), []), BuildMap(s.layout, s.nodes),
                                          FieldMap(InsertAll([fields[|fields| - 1]], s.rest[..TrailerSpan(s.rest)]),
                                            []))
  {}

  lemma BuiltFromFields(b: MessageBuilder, env: Envelope, toks: seq<Field>)
    requires WellFormedBuilder(b) && env.msgType.tag == MSG_TYPE && BuildFields(b, env, toks).Valid?
    ensures var n := HeaderSpan(b, toks);
            var header := HeaderFields(b, env, toks);
            && n < |toks| && GetRaw(header, MSG_TYPE).Some? && GetRaw(header, MSG_TYPE).value in b.messages
            && TypedLayout(b, header, b.messages[GetRaw(header, MSG_TYPE).value])
            && var l := b.messages[GetRaw(header, MSG_TYPE).value];
               && WellFormed(l) && ParseBody(b, l, [], toks[n..]).Ok?
               && var p := ParseBody(b, l, [], toks[n..]).value;
                  BuildFields(b, env, toks).message
                  == Parts(FieldMap(header, []), BuildMap(l, p.nodes),
                    FieldMap(InsertAll([env.checkSum], p.rest[..TrailerSpan(p.rest)]), []))
  {
    hide ParseBody, BuildMap, InsertAll, HeaderSpan, TrailerSpan, HeaderFields;
  }

  lemma FlatNone()
    ensures FlatNodes([]) == []
  {}

  lemma LastKept(a: seq<Field>, rest: seq<Field>, toks: seq<Field>)
    requires toks == a + rest && rest != []
    ensures rest[|rest| - 1] == toks[|toks| - 1]
  {}

  lemma LeadStored(env: Envelope, fields: seq<Field>)
    requires |fields| >= 4
    requires env.beginString == fields[0] && env.bodyLength == fields[1] && env.msgType == fields[2]
    requires fields[0].tag == BEGIN_STRING && fields[1].tag == BODY_LENGTH && fields[2].tag == MSG_TYPE
    ensures InsertField(InsertField(InsertField([], env.beginString), env.bodyLength), env.msgType) == fields[..3]
  {
    var one: seq<Field> := [fields[0]];
    assert InsertField([], fields[0]) == one;
    assert InsertField(one, fields[1]) == one + [fields[1]];
    assert fields[..3] == one + [fields[1]] + [fields[2]];
  }

  // ----- what is lost -----

  /** No tag twice in the header, at any level of the body, or behind it. */
  ghost predicate Unrepeated(fields: seq<Field>, s: Sections)
    requires |fields| >= 4
  {
    UniqueTags(fields[..3] + s.head) && DistinctNodes(s.nodes) && UniqueTags(s.rest)
  }

  lemma {:induction false} BodyGrouped(b: MessageBuilder, l: Layout, nodes: seq<Node>, follow: Tag)
    requires WellFormed(l) && BodyConforms(b, l, nodes, follow)
    ensures Grouped(l, nodes)
  {
    hide RunConforms, RequiredPresent, BuildRun, GroupedRun;
    forall i | 0 <= i < |nodes| && nodes[i].entries != []
      ensures GroupFor(l, nodes[i].field.tag).Some?
              && GroupedRun(GroupFor(l, nodes[i].field.tag).value, nodes[i].entries)
    {
      assert BodyNodeConforms(b, l, nodes[i], NextTag(nodes, i, follow));
      RunGrouped(b, GroupFor(l, nodes[i].field.tag).value, nodes[i].entries, NextTag(nodes, i, follow));
    }
  }

  /** The trailer keeps the fields before the first checksum, each tag once. */
  lemma {:induction false} TrailerKept(rest: seq<Field>)
    requires rest != [] && rest[|rest| - 1].tag == CHECK_SUM
    ensures var last, kept := rest[|rest| - 1], rest[..TrailerSpan(rest)];
            var length := FieldsLength(RemoveTag(InsertAll([last], kept), CHECK_SUM), [CHECK_SUM]);
            && length <= TotalLength(rest[..|rest| - 1])
            && (length == TotalLength(rest[..|rest| - 1]) <==> UniqueTags(rest))
  {
    hide *;
    var last, k, n := rest[|rest| - 1], TrailerSpan(rest), |rest| - 1;
    var kept := rest[..k];
    assert k <= n;
    assert k < n ==> rest[k].tag == rest[n].tag;
    KeptLength(last, kept);
    PrefixLength(rest, k, n);
    if k == n {
      assert rest == kept + [last];
      Rotated(kept, last);
    } else {
      TwiceTag(rest, k, n);
    }
  }

  lemma PrefixLength(fields: seq<Field>, k: nat, n: nat)
    requires k <= n <= |fields|
    ensures k == n ==> TotalLength(fields[..k]) == TotalLength(fields[..n])
    ensures k < n ==> TotalLength(fields[..k]) < TotalLength(fields[..n])
  {
    assert fields[..n] == fields[..k] + fields[k..n];
    TotalConcat(fields[..k], fields[k..n]);
  }

  lemma TwiceTag(fields: seq<Field>, i: nat, j: nat)
    requires i < j < |fields| && fields[i].tag == fields[j].tag
    ensures !UniqueTags(fields)
  {}

  lemma KeptLength(last: Field, kept: seq<Field>)
    requires last.tag == CHECK_SUM
    ensures var length := FieldsLength(RemoveTag(InsertAll([last], kept), CHECK_SUM), [CHECK_SUM]);
            length <= TotalLength(kept) && (length == TotalLength(kept) <==> UniqueTags([last] + kept))
  {
    assert SkipsStored([last], [CHECK_SUM]) by { assert [last][0].tag == CHECK_SUM; }
    assert FieldsLength([last], [CHECK_SUM]) == 0;
    hide InsertAll, Fields.RemoveTag, FieldsLength, TotalLength;
    InsertAllLength([last], kept, [CHECK_SUM]);
    RemoveSkipped(InsertAll([last], kept), CHECK_SUM);
  }

  lemma Rotated(a: seq<Field>, f: Field)
    ensures UniqueTags(a + [f]) <==> UniqueTags([f] + a)
  {
    var x, y := a + [f], [f] + a;
    assert forall i :: 0 <= i < |a| ==> x[i] == y[i + 1];
    assert x[|a|] == y[0];
    if UniqueTags(x) {
      forall i, j | 0 <= i < j < |y| ensures y[i].tag != y[j].tag {
        assert y[j] == x[j - 1];
        assert i > 0 ==> y[i] == x[i - 1];
      }
    }
    if UniqueTags(y) {
      forall i, j | 0 <= i < j < |x| ensures x[i].tag != x[j].tag {
        assert x[i] == y[i + 1];
        assert j < |a| ==> x[j] == y[j + 1];
      }
    }
  }

  /** Re-encoding announces at most the original BodyLength, and the same only if no tag was
      repeated. */
  lemma {:induction false} LengthShrinks(b: MessageBuilder, fields: seq<Field>, s: Sections, n: nat, sep: byte)
    requires SectionsOf(b, fields, s)
    requires fields[0].tag == BEGIN_STRING && fields[1].tag == BODY_LENGTH && fields[2].tag == MSG_TYPE
    requires fields[|fields| - 1].tag == CHECK_SUM && fields[|fields| - 1].Length() == CHECKSUM_LENGTH
    requires |Render(fields, sep)| == |Render(fields[..2], sep)| + n + CHECKSUM_LENGTH
    ensures var length := BodyLength(Prepared(Assembled(fields, s)));
            length <= n && (length == n <==> Unrepeated(fields, s))
  {
    hide *;
    SectionFacts(b, fields, s);
    HeaderKept(fields, s.head);
    BodyGrouped(b, s.layout, s.nodes, s.rest[0].tag);
    BuiltLength(s.layout, s.nodes);
    TrailerKept(s.rest);
    BodyLengthOf(fields, s);
    AnnouncedLength(fields, s, n, sep);
  }

  lemma SectionFacts(b: MessageBuilder, fields: seq<Field>, s: Sections)
    requires SectionsOf(b, fields, s)
    ensures |fields| >= 4 && WellFormed(s.layout)
    ensures fields[3..] == s.head + (FlatNodes(s.nodes) + s.rest)
    ensures s.rest != [] && s.rest[|s.rest| - 1] == fields[|fields| - 1]
    ensures BodyConforms(b, s.layout, s.nodes, s.rest[0].tag)
    ensures Unrepeated(fields, s) <==> UniqueTags(fields[..3] + s.head) && DistinctNodes(s.nodes) && UniqueTags(s.rest)
  {
    hide BodyConforms, DistinctNodes;
  }

  lemma HeaderKept(fields: seq<Field>, head: seq<Field>)
    requires |fields| >= 4
    requires fields[0].tag == BEGIN_STRING && fields[1].tag == BODY_LENGTH && fields[2].tag == MSG_TYPE
    ensures var length := FieldsLength(InsertAll(fields[..3], head), [BEGIN_STRING, BODY_LENGTH]);
            && length <= fields[2].Length() + TotalLength(head)
            && (length == fields[2].Length() + TotalLength(head) <==> UniqueTags(fields[..3] + head))
  {
    hide InsertAll, TotalLength;
    var lead, skip: seq<Tag> := fields[..3], [BEGIN_STRING, BODY_LENGTH];
    assert lead == [fields[0], fields[1], fields[2]];
    assert SkipsStored(lead, skip) by {
      assert lead[0].tag == BEGIN_STRING && lead[1].tag == BODY_LENGTH;
    }
    assert lead[1..] == [fields[1], fields[2]] && lead[1..][1..] == [fields[2]] && [fields[2]][1..] == [];
    assert FieldsLength([fields[2]], skip) == fields[2].Length();
    assert FieldsLength(lead[1..], skip) == fields[2].Length();
    assert FieldsLength(lead, skip) == fields[2].Length();
    InsertAllLength(lead, head, skip);
  }

  lemma BodyLengthOf(fields: seq<Field>, s: Sections)
    requires |fields| >= 4 && WellFormed(s.layout)
    ensures var m := Assembled(fields, s);
            BodyLength(Prepared(m)) == FieldsLength(InsertAll(fields[..3], s.head), [BEGIN_STRING, BODY_LENGTH])
              + MapLength(BuildMap(s.layout, s.nodes), [])
              + FieldsLength(RemoveTag(InsertAll([fields[|fields| - 1]], s.rest[..TrailerSpan(s.rest)]), CHECK_SUM),
                [CHECK_SUM])
  {
    hide FieldsLength, InsertAll, BuildMap, TrailerSpan, InsertField, Fields.RemoveTag, Print;
    var m := Assembled(fields, s);
    assert RunsLength([]) == 0;
    SetBodyLength(m.header, Field(BODY_LENGTH, Print(BodyLength(m.(trailer := PopField(m.trailer, CHECK_SUM))))));
  }

  lemma {:induction false} AnnouncedLength(fields: seq<Field>, s: Sections, n: nat, sep: byte)
    requires |fields| >= 4 && fields[3..] == s.head + (FlatNodes(s.nodes) + s.rest) && s.rest != []
    requires fields[|fields| - 1].Length() == CHECKSUM_LENGTH && s.rest[|s.rest| - 1] == fields[|fields| - 1]
    requires |Render(fields, sep)| == |Render(fields[..2], sep)| + n + CHECKSUM_LENGTH
    ensures n == fields[2].Length() + TotalLength(s.head) + TotalLength(FlatNodes(s.nodes))
            + TotalLength(s.rest[..|s.rest| - 1])
  {
    hide FlatNodes, Render, TotalLength;
    var last := fields[|fields| - 1];
    TotalHead([last]);
    TotalHead([fields[2]]);
    TotalNone();
    RenderLength(fields, sep);
    RenderLength(fields[..2], sep);
    assert fields == fields[..2] + ([fields[2]] + fields[3..]);
    TotalConcat(fields[..2], [fields[2]] + fields[3..]);
    TotalConcat([fields[2]], fields[3..]);
    TotalConcat(s.head, FlatNodes(s.nodes) + s.rest);
    TotalConcat(FlatNodes(s.nodes), s.rest);
    assert s.rest == s.rest[..|s.rest| - 1] + [last];
    TotalConcat(s.rest[..|s.rest| - 1], [last]);
    assert [last][1..] == [] && [fields[2]][1..] == [];
  }

  // ----- nothing repeated: the same bytes -----

  lemma {:induction false} UnpickedConcat(a: seq<Field>, b: seq<Field>, pre: seq<Tag>)
    ensures Unpicked(a + b, pre) == Unpicked(a, pre) + Unpicked(b, pre)
    decreases |b|
  {
    if b == [] {
      assert a + b == a;
    } else {
      var front, f := b[..|b| - 1], b[|b| - 1];
      assert (a + b)[..|a + b| - 1] == a + front;
      UnpickedConcat(a, front, pre);
    }
  }

  lemma {:induction false} UnpickedNone(fields: seq<Field>, pre: seq<Tag>)
    requires forall i :: 0 <= i < |fields| ==> fields[i].tag in pre
    ensures Unpicked(fields, pre) == []
  {
    if fields != [] {
      UnpickedNone(fields[..|fields| - 1], pre);
    }
  }

  /** A header read without repetition is written in the same order. */
  lemma {:induction false} HeaderRewritten(lead: seq<Field>, head: seq<Field>)
    requires |lead| == 3 && lead[0].tag == BEGIN_STRING && lead[1].tag == BODY_LENGTH && lead[2].tag == MSG_TYPE
    requires UniqueTags(lead + head)
    ensures Written(FieldMap(lead + head, []), LEADING) == lead + head
    ensures SetField(FieldMap(lead + head, []), lead[1]) == FieldMap(lead + head, [])
  {
    var all := lead + head;
    LeadFirst(lead, head);
    HeadUnpicked(lead, head);
    assert [lead[0], lead[1], lead[2]] == lead;
    hide Written, Unpicked, InsertAll, Arranged;
    FieldsOfHeader(FieldMap(all, []));
  }

  lemma LeadFirst(lead: seq<Field>, head: seq<Field>)
    requires |lead| == 3 && lead[0].tag == BEGIN_STRING && lead[1].tag == BODY_LENGTH && lead[2].tag == MSG_TYPE
    requires UniqueTags(lead + head)
    ensures var all := lead + head;
            && HasTag(all, BEGIN_STRING) && HasTag(all, BODY_LENGTH) && HasTag(all, MSG_TYPE)
            && FieldOf(all, BEGIN_STRING) == lead[0] && FieldOf(all, BODY_LENGTH) == lead[1]
               && FieldOf(all, MSG_TYPE) == lead[2]
            && InsertField(all, lead[1]) == all
  {
    var all := lead + head;
    assert all[0] == lead[0] && all[1] == lead[1] && all[2] == lead[2];
    assert IndexOf(all, BEGIN_STRING) == 0 && IndexOf(all, BODY_LENGTH) == 1 && IndexOf(all, MSG_TYPE) == 2;
    assert all[1 := lead[1]] == all;
  }

  lemma HeadUnpicked(lead: seq<Field>, head: seq<Field>)
    requires |lead| == 3 && lead[0].tag == BEGIN_STRING && lead[1].tag == BODY_LENGTH && lead[2].tag == MSG_TYPE
    requires UniqueTags(lead + head)
    ensures Unpicked(lead + head, LEADING) == head
  {
    hide Unpicked;
    UnpickedConcat(lead, head, LEADING);
    UnpickedNone(lead, LEADING);
    forall i | 0 <= i < |head| ensures head[i].tag !in LEADING {
      assert (lead + head)[3 + i] == head[i];
      assert forall j :: 0 <= j < 3 ==> (lead + head)[j] == lead[j];
    }
    UnpickedAbsent(head, LEADING);
  }

  lemma {:induction false} TrailerRewritten(rest: seq<Field>)
    requires rest != [] && UniqueTags(rest) && rest[|rest| - 1].tag == CHECK_SUM
    ensures var last, kept := rest[|rest| - 1], rest[..TrailerSpan(rest)];
            RemoveTag(InsertAll([last], kept), CHECK_SUM) == rest[..|rest| - 1]
  {
    hide InsertAll, TrailerSpan, RemoveTag;
    var last, n, k := rest[|rest| - 1], |rest| - 1, TrailerSpan(rest);
    assert forall i :: 0 <= i < n ==> rest[i].tag != rest[n].tag;
    assert k == n;
    var kept := rest[..n];
    assert rest == kept + [last];
    hide UniqueTags;
    Rotated(kept, last);
    InsertAllDistinct([last], kept);
    FirstRemoved(last, kept);
  }

  lemma FirstRemoved(f: Field, rest: seq<Field>)
    ensures RemoveTag([f] + rest, f.tag) == rest
  {
    var fields := [f] + rest;
    assert fields[0].tag == f.tag && IndexOf(fields, f.tag) == 0;
    assert fields[..0] + fields[1..] == rest;
  }

  lemma {:induction false} SameFields(b: MessageBuilder, fields: seq<Field>, s: Sections, n: nat, sep: byte)
    requires SectionsOf(b, fields, s) && Unrepeated(fields, s) && CanonicalMessage(fields, sep)
    requires fields[0].tag == BEGIN_STRING && fields[1].tag == BODY_LENGTH && fields[2].tag == MSG_TYPE
    requires ParseUnsigned(fields[1].data, U64_LIMIT) == Some(n)
    requires BodyLength(Prepared(Assembled(fields, s))) == n
    ensures PartsFields(Prepared(Assembled(fields, s))) == fields[..|fields| - 1]
  {
    var m := Assembled(fields, s);
    var lead := fields[..3];
    SectionFacts(b, fields, s);
    assert fields[|fields| - 1].tag == CHECK_SUM;
    assert fields[1] == Field(BODY_LENGTH, Print(n)) by { ParsedCanonical(fields[1].data, U64_LIMIT); }
    BodyGrouped(b, s.layout, s.nodes, s.rest[0].tag);
    BuiltNodes(s.layout, s.nodes);
    AssembledForm(fields, s);
    PreparedForm(m, n);
    hide *;
    InsertAllDistinct(lead, s.head);
    HeaderRewritten(lead, s.head);
    TrailerRewritten(s.rest);
    WrittenPlain(m.body);
    var trailer := FieldMap(s.rest[..|s.rest| - 1], []);
    WrittenPlain(trailer);
    FlatPlain(trailer);
    AllButLast(fields, s);
  }

  lemma AssembledForm(fields: seq<Field>, s: Sections)
    requires |fields| >= 4 && WellFormed(s.layout)
    ensures Assembled(fields, s).header == FieldMap(InsertAll(fields[..3], s.head), [])
    ensures Assembled(fields, s).body == BuildMap(s.layout, s.nodes)
    ensures Assembled(fields, s).trailer
            == FieldMap(InsertAll([fields[|fields| - 1]], s.rest[..TrailerSpan(s.rest)]), [])
  {}

  lemma PreparedForm(m: Parts, n: nat)
    requires BodyLength(Prepared(m)) == n
    ensures PartsFields(Prepared(m))
            == Written(SetField(m.header, Field(BODY_LENGTH, Print(n))), LEADING) + Written(m.body, [])
                                        + Written(FieldMap(RemoveTag(m.trailer.fields, CHECK_SUM), m.trailer.groups),
                                          [])
  {
    hide MapLength, Print, Written, InsertField, Fields.RemoveTag;
    SetBodyLength(m.header, Field(BODY_LENGTH, Print(BodyLength(m.(trailer := PopField(m.trailer, CHECK_SUM))))));
  }

  lemma AllButLast(fields: seq<Field>, s: Sections)
    requires |fields| >= 4 && fields[3..] == s.head + (FlatNodes(s.nodes) + s.rest) && s.rest != []
    ensures fields[..3] + s.head + FlatNodes(s.nodes) + s.rest[..|s.rest| - 1] == fields[..|fields| - 1]
  {
    hide FlatNodes;
    var flat, n := FlatNodes(s.nodes), |s.rest| - 1;
    assert fields == fields[..3] + fields[3..];
    assert s.rest == s.rest[..n] + [s.rest[n]];
    assert fields == (fields[..3] + s.head + flat + s.rest[..n]) + [s.rest[n]];
  }

  // ----- the same bytes: nothing repeated -----

  /** If the bytes are the same, so is the announced length. */
  lemma {:induction false} SameLength(b: MessageBuilder, fields: seq<Field>, s: Sections, n: nat, sep: byte)
    requires SectionsOf(b, fields, s) && AllSeparable(fields, sep)
    requires fields[0].tag == BEGIN_STRING && fields[1].tag == BODY_LENGTH && fields[2].tag == MSG_TYPE
    requires ParseUnsigned(fields[1].data, U64_LIMIT) == Some(n)
    requires !IsDigit(sep) && Encoded(Assembled(fields, s), sep) == Render(fields, sep)
    ensures BodyLength(Prepared(Assembled(fields, s))) == n
  {
    hide *;
    SectionFacts(b, fields, s);
    var m := Assembled(fields, s);
    var length := BodyLength(Prepared(m));
    HeaderSource(fields, s);
    BuiltValid(s.layout, s.nodes);
    AssembledValid(fields, s);
    PrintedBack(length, n, sep);
    var middle := BodyLengthExact(m, sep);
    var f8 := FieldOf(m.header.fields, BEGIN_STRING);
    SeparableIn(fields, f8, sep);
    var tail := RenderField(CheckSumField(Front(m, sep)), sep);
    Associative(RenderField(f8, sep) + RenderField(Field(BODY_LENGTH, Print(length)), sep), middle, tail);
    SecondField(f8, Field(BODY_LENGTH, Print(length)), middle + tail, fields, sep);
  }

  lemma PrintedBack(length: nat, n: nat, sep: byte)
    requires !IsDigit(sep)
    ensures Separable(Field(BODY_LENGTH, Print(length)), sep)
    ensures ParseUnsigned(Print(length), U64_LIMIT) == Some(n) ==> length == n
  {
    HornerPrint(length);
  }

  lemma SeparableIn(fields: seq<Field>, f: Field, sep: byte)
    requires AllSeparable(fields, sep) && f in fields
    ensures Separable(f, sep)
  {}

  lemma HeaderSource(fields: seq<Field>, s: Sections)
    requires |fields| >= 4 && fields[3..] == s.head + (FlatNodes(s.nodes) + s.rest) && WellFormed(s.layout)
    requires fields[0].tag == BEGIN_STRING && fields[1].tag == BODY_LENGTH && fields[2].tag == MSG_TYPE
    ensures HeaderLeads(Assembled(fields, s).header) && HasTag(Assembled(fields, s).header.fields, BEGIN_STRING)
    ensures FieldOf(Assembled(fields, s).header.fields, BEGIN_STRING) in fields
  {
    hide InsertAll, BuildMap, FlatNodes;
    var lead := fields[..3];
    InsertAllHas(lead, s.head, BEGIN_STRING);
    assert lead[0].tag == BEGIN_STRING;
    InsertAllFrom(lead, s.head);
    var f := FieldOf(InsertAll(lead, s.head), BEGIN_STRING);
    assert f in InsertAll(lead, s.head);
    if f in s.head {
      assert f in fields[3..];
    }
  }

  lemma AssembledValid(fields: seq<Field>, s: Sections)
    requires |fields| >= 4 && WellFormed(s.layout) && Fields.Valid(BuildMap(s.layout, s.nodes))
    requires fields[0].tag == BEGIN_STRING && fields[1].tag == BODY_LENGTH && fields[2].tag == MSG_TYPE
    ensures ValidParts(Assembled(fields, s))
  {
    hide BuildMap, TrailerSpan, InsertAll;
    assert UniqueTags(fields[..3]);
    InsertAllUnique(fields[..3], s.head);
    InsertAllUnique([fields[|fields| - 1]], s.rest[..TrailerSpan(s.rest)]);
  }

  lemma {:induction false} InsertAllUnique(fields: seq<Field>, more: seq<Field>)
    requires UniqueTags(fields)
    ensures UniqueTags(InsertAll(fields, more))
    decreases |more|
  {
    if more != [] {
      InsertedField(fields, more[0]);
      InsertAllUnique(InsertField(fields, more[0]), more[1..]);
    }
  }

  /** Two ways of reading the same bytes at the same place agree. */
  lemma {:induction false} SameField(pre: seq<byte>, f: Field, post: seq<byte>, fields: seq<Field>, i: nat, sep: byte)
    requires i < |fields| && Separable(fields[i], sep) && Separable(f, sep)
    requires pre + RenderField(f, sep) + post == Render(fields, sep) && |pre| == |Render(fields[..i], sep)|
    ensures f == fields[i] && |pre + RenderField(f, sep)| == |Render(fields[..i + 1], sep)|
  {
    hide *;
    FieldAtBoundary(fields, i, sep);
    FieldAtRendered(pre, f, post, sep);
  }

  lemma {:induction false} SecondField(f: Field, g: Field, post: seq<byte>, fields: seq<Field>, sep: byte)
    requires |fields| >= 2 && AllSeparable(fields, sep) && Separable(f, sep) && Separable(g, sep)
    requires RenderField(f, sep) + RenderField(g, sep) + post == Render(fields, sep)
    ensures f == fields[0] && g == fields[1]
  {
    assert Separable(fields[0], sep) && Separable(fields[1], sep);
    assert fields[..0] == [] && Render([], sep) == [];
    hide *;
    var rf, rg := RenderField(f, sep), RenderField(g, sep);
    Associative(rf, rg, post);
    assert [] + rf == rf;
    SameField([], f, rg + post, fields, 0, sep);
    SameField(rf, g, post, fields, 1, sep);
  }

  /** Encoding what was built gives back exactly the original bytes if, and only if, no tag was
      repeated at one level of what the builder read: in the header, in the body or a group
      entry at any depth, or in the trailer. */
  lemma {:induction false} BuildThenEncode(b: MessageBuilder, fields: seq<Field>) returns (s: Sections)
    requires WellFormedBuilder(b) && CanonicalMessage(fields, b.config.separator)
    requires Build(b, Render(fields, b.config.separator)).Valid?
    ensures SectionsOf(b, fields, s) && forall s' :: SectionsOf(b, fields, s') ==> s' == s
    ensures Build(b, Render(fields, b.config.separator)).message == Assembled(fields, s)
    ensures var m := Build(b, Render(fields, b.config.separator)).message;
            Encoded(m, b.config.separator) == Render(fields, b.config.separator) <==> Unrepeated(fields, s)
  {
    var sep := b.config.separator;
    var n;
    s, n := ValidSections(b, fields);
    CanonicalFacts(fields, sep);
    hide *;
    var m, k := Assembled(fields, s), |fields| - 1;
    forall s' | SectionsOf(b, fields, s') ensures s' == s {
      SectionsUnique(b, fields, s, s');
    }
    LengthShrinks(b, fields, s, n, sep);
    if Unrepeated(fields, s) {
      SameFields(b, fields, s, n, sep);
      EncodedSame(m, fields, sep);
    }
    if Encoded(m, sep) == Render(fields, sep) {
      SameLength(b, fields, s, n, sep);
    }
  }

  lemma CanonicalFacts(fields: seq<Field>, sep: byte)
    requires CanonicalMessage(fields, sep)
    ensures !IsDigit(sep) && AllSeparable(fields, sep) && |fields| >= 2
    ensures var k := |fields| - 1;
            && fields[k] == CheckSumField(Render(fields[..k], sep))
            && fields[k].tag == CHECK_SUM && fields[k].Length() == CHECKSUM_LENGTH
  {
    CheckSumFacts(Render(fields[..|fields| - 1], sep), sep);
  }

  lemma EncodedSame(m: Parts, fields: seq<Field>, sep: byte)
    requires fields != [] && PartsFields(Prepared(m)) == fields[..|fields| - 1]
    requires fields[|fields| - 1] == CheckSumField(Render(fields[..|fields| - 1], sep))
    ensures Encoded(m, sep) == Render(fields, sep)
  {
    hide PartsFields, Prepared, Render;
    assert fields[..|fields| - 1] + [fields[|fields| - 1]] == fields;
  }
}
