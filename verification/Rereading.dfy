/** A message that was sent and read back can be sent again: reading keeps it sendable, and
    keeps what its header says. */
module Rereading {
  import opened Decimal
  import opened Fields
  import opened Layouts
  import opened Wire
  import opened Encoder
  import opened Lengths
  import opened Assembly
  import opened Alignment
  import opened Messages
  import opened BodyLengths
  import opened Reading
  import opened BodyGrammar
  import opened RoundTrip
  import opened Rebuilding

  // ----- aligned bodies -----

  lemma {:induction false} AlignedNodes(fm: FieldMap)
    requires Fields.Valid(fm)
    ensures Nodes(Aligned(fm)) == Nodes(fm)
    decreases fm, 1
  {
    UniqueOf(fm);
    forall i | 0 <= i < |fm.fields| ensures Nodes(Aligned(fm))[i] == Nodes(fm)[i] {
      AlignedNode(fm, i);
    }
  }

  lemma {:induction false} AlignedNode(fm: FieldMap, i: nat)
    requires Fields.Valid(fm) && i < |fm.fields|
    ensures Nodes(Aligned(fm))[i] == Nodes(fm)[i]
    decreases fm, 0
  {
    var t := fm.fields[i].tag;
    var entries := EntriesOf(fm.groups, t);
    UniqueOf(fm);
    AlignedLookup(fm.fields, fm.groups, t);
    ValidRun(fm, t);
    if entries != [] {
      var run := fm.groups[RunIndex(fm.groups, t)];
      assert run in fm.groups && entries == run.entries;
      AlignedEntries(entries);
    } else {
      assert AlignedGroups(entries) == [];
    }
    hide AlignedRuns, AlignedGroups, EntriesOf, Fields.Valid, Entries;
  }

  lemma {:induction false} AlignedEntries(groups: seq<Group>)
    requires forall j :: 0 <= j < |groups| ==> Fields.Valid(groups[j].content)
    ensures Entries(AlignedGroups(groups)) == Entries(groups)
    decreases groups, 2
  {
    forall j | 0 <= j < |groups| ensures Entries(AlignedGroups(groups))[j] == Entries(groups)[j] {
      var g := groups[j];
      assert g in groups && g.content < g;
      AlignedNodes(g.content);
    }
  }

  lemma {:induction false} AlignedLabelled(l: Layout, fm: FieldMap)
    requires WellFormed(l) && Fields.Valid(fm) && Labelled(l, fm)
    ensures Labelled(l, Aligned(fm))
    decreases fm, 1
  {
    UniqueOf(fm);
    forall i | 0 <= i < |fm.fields| && EntriesOf(Aligned(fm).groups, fm.fields[i].tag) != []
      ensures GroupFor(l, fm.fields[i].tag).Some?
      ensures LabelledRun(GroupFor(l, fm.fields[i].tag).value, EntriesOf(Aligned(fm).groups, fm.fields[i].tag))
    {
      AlignedLabelledAt(l, fm, i);
    }
    hide LabelledRun, AlignedRuns, AlignedGroups;
  }

  lemma {:induction false} AlignedLabelledAt(l: Layout, fm: FieldMap, i: nat)
    requires WellFormed(l) && Fields.Valid(fm) && Labelled(l, fm) && i < |fm.fields|
    requires EntriesOf(Aligned(fm).groups, fm.fields[i].tag) != []
    ensures GroupFor(l, fm.fields[i].tag).Some?
    ensures LabelledRun(GroupFor(l, fm.fields[i].tag).value, EntriesOf(Aligned(fm).groups, fm.fields[i].tag))
    decreases fm, 0
  {
    var t := fm.fields[i].tag;
    var entries := EntriesOf(fm.groups, t);
    UniqueOf(fm);
    AlignedLookup(fm.fields, fm.groups, t);
    ValidRun(fm, t);
    assert entries != [];
    var run := fm.groups[RunIndex(fm.groups, t)];
    assert run in fm.groups && entries == run.entries;
    AlignedLabelledRun(GroupFor(l, t).value, entries);
    hide LabelledRun, AlignedRuns, AlignedGroups, EntriesOf, Fields.Valid;
  }

  lemma {:induction false} AlignedLabelledRun(g: GroupSpec, groups: seq<Group>)
    requires WellFormedGroup(g) && LabelledRun(g, groups)
    requires forall j :: 0 <= j < |groups| ==> Fields.Valid(groups[j].content)
    ensures LabelledRun(g, AlignedGroups(groups))
    decreases groups, 2
  {
    forall j | 0 <= j < |groups| ensures Labelled(g.layout, AlignedGroups(groups)[j].content) {
      var e := groups[j];
      assert e in groups && e.content < e;
      AlignedLabelled(g.layout, e.content);
    }
    hide Labelled, Aligned;
  }

  lemma {:induction false} AlignedSendable(b: MessageBuilder, l: Layout, body: FieldMap, trailer: seq<Field>)
    requires WellFormed(l) && SendableBody(b, l, body, trailer)
    ensures SendableBody(b, l, Aligned(body), trailer) && Nodes(Aligned(body)) == Nodes(body)
  {
    BuildAligned(l, body);
    BuiltValid(l, Nodes(body));
    BuiltAnchored(l, Nodes(body));
    AlignedNodes(body);
    AlignedLabelled(l, body);
    assert Aligned(body).fields == body.fields;
    hide BodyConforms, Labelled, Fields.Valid, MapOrphans, Nodes, Aligned, BuildMap;
  }

  /** Reading a second time changes nothing more. */
  lemma {:induction false} AlignedAgain(l: Layout, fm: FieldMap)
    requires WellFormed(l) && Fields.Valid(fm) && Labelled(l, fm)
    ensures Aligned(Aligned(fm)) == Aligned(fm)
  {
    hide *;
    BuildAligned(l, fm);
    BuiltValid(l, Nodes(fm));
    AlignedNodes(fm);
    AlignedLabelled(l, fm);
    BuildAligned(l, Aligned(fm));
  }

  // ----- lookups do not depend on the order -----

  lemma {:induction false} UnpickedMembers(fields: seq<Field>, pre: seq<Tag>, f: Field)
    ensures f in Unpicked(fields, pre) <==> f in fields && f.tag !in pre
  {
    if fields != [] {
      UnpickedMembers(fields[..|fields| - 1], pre, f);
      assert fields == fields[..|fields| - 1] + [fields[|fields| - 1]];
    }
  }

  lemma SameLookups(a: seq<Field>, b: seq<Field>, t: Tag)
    requires UniqueTags(a) && UniqueTags(b) && forall f :: f in a <==> f in b
    ensures GetRaw(a, t) == GetRaw(b, t)
  {
    if HasTag(a, t) {
      LookupMember(b, a[IndexOf(a, t)]);
    }
    if HasTag(b, t) {
      LookupMember(a, b[IndexOf(b, t)]);
    }
  }

  // ----- headers -----

  /** What every field of a sendable header satisfies. */
  ghost predicate Carried(b: MessageBuilder, f: Field) {
    && (f.tag in LEADING || f.tag in b.headerTags)
    && (f.tag == BODY_LENGTH || Separable(f, b.config.separator))
  }

  ghost predicate GoodHeader(b: MessageBuilder, header: FieldMap) {
    header.groups == [] && UniqueTags(header.fields) && forall f :: f in header.fields ==> Carried(b, f)
  }

  lemma {:induction false} HeaderGood(b: MessageBuilder, header: FieldMap)
    requires SendableHeader(b, header) && AllSeparable(Unpicked(header.fields, [BODY_LENGTH]), b.config.separator)
    ensures GoodHeader(b, header)
  {
    forall f | f in header.fields ensures Carried(b, f) {
      UnpickedMembers(header.fields, [BODY_LENGTH], f);
      if f.tag != BODY_LENGTH {
        var i :| 0 <= i < |Unpicked(header.fields, [BODY_LENGTH])| && Unpicked(header.fields, [BODY_LENGTH])[i] == f;
      }
    }
  }

  lemma {:induction false} GoodSendable(b: MessageBuilder, header: FieldMap)
    requires GoodHeader(b, header)
    requires HasTag(header.fields, BEGIN_STRING) && HasTag(header.fields, MSG_TYPE)
    requires FieldOf(header.fields, MSG_TYPE).data in b.messages
    ensures SendableHeader(b, header) && AllSeparable(Unpicked(header.fields, [BODY_LENGTH]), b.config.separator)
  {
    var others := Unpicked(header.fields, [BODY_LENGTH]);
    forall i | 0 <= i < |others| ensures Separable(others[i], b.config.separator) {
      UnpickedMembers(header.fields, [BODY_LENGTH], others[i]);
      assert Carried(b, others[i]);
    }
    forall f | f in header.fields ensures f.tag in LEADING || f.tag in b.headerTags {
      assert Carried(b, f);
    }
    hide Unpicked;
  }

  lemma GoodSet(b: MessageBuilder, header: FieldMap, f: Field)
    requires GoodHeader(b, header) && Carried(b, f)
    ensures GoodHeader(b, SetField(header, f))
  {
    InsertedField(header.fields, f);
    hide Carried;
  }

  lemma GoodPop(b: MessageBuilder, header: FieldMap, t: Tag)
    requires GoodHeader(b, header)
    ensures GoodHeader(b, PopField(header, t))
  {
    RemovedTag(header.fields, t);
    hide Carried;
  }

  // ----- the header as read -----

  lemma {:induction false} AsReadHeaderForm(b: MessageBuilder, m: Parts)
    requires WellFormedBuilder(b) && Sendable(b, m)
    ensures var h := Prepared(m).header;
            && HasTag(h.fields, BEGIN_STRING) && HasTag(h.fields, BODY_LENGTH) && HasTag(h.fields, MSG_TYPE)
            && UniqueTags(h.fields) && h.groups == []
            && UniqueTags(LeadFields(m) + HeaderRest(m))
            && AsRead(m, b.config.separator).header == FieldMap(LeadFields(m) + HeaderRest(m), [])
  {
    PreparedHeader(b, m);
    FieldsOfHeader(Prepared(m).header);
    hide Picked, Unpicked, BodyLength, Sendable, SetField, PopField, Front;
  }

  lemma {:induction false} PreparedLookup(b: MessageBuilder, m: Parts, t: Tag)
    requires WellFormedBuilder(b) && Sendable(b, m)
    ensures GoodHeader(b, Prepared(m).header)
    ensures t != BODY_LENGTH ==> GetRaw(Prepared(m).header.fields, t) == GetRaw(m.header.fields, t)
  {
    HeaderGood(b, m.header);
    var f9 := Field(BODY_LENGTH, Print(BodyLength(m.(trailer := PopField(m.trailer, CHECK_SUM)))));
    assert Prepared(m).header == SetField(m.header, f9);
    InsertedField(m.header.fields, f9);
    GoodSet(b, m.header, f9);
    hide Prepared, BodyLength, GoodHeader, Sendable;
  }

  /** Reading a sent message finds in its header what was put there. */
  lemma {:induction false} AsReadHeader(b: MessageBuilder, m: Parts, t: Tag)
    requires WellFormedBuilder(b) && Sendable(b, m)
    ensures var header := AsRead(m, b.config.separator).header;
            GoodHeader(b, header) && (t != BODY_LENGTH ==> GetRaw(header.fields, t) == GetRaw(m.header.fields, t))
  {
    hide *;
    AsReadHeaderForm(b, m);
    PreparedLookup(b, m, t);
    var fields := Prepared(m).header.fields;
    ArrangedMembers(m, fields);
    SameLookups(LeadFields(m) + HeaderRest(m), fields, t);
    GoodSame(b, Prepared(m).header, AsRead(m, b.config.separator).header);
  }

  lemma GoodSame(b: MessageBuilder, header: FieldMap, header': FieldMap)
    requires GoodHeader(b, header) && UniqueTags(header'.fields) && header'.groups == []
    requires forall f :: f in header'.fields <==> f in header.fields
    ensures GoodHeader(b, header')
  {}

  lemma ArrangedMembers(m: Parts, fields: seq<Field>)
    requires fields == Prepared(m).header.fields && UniqueTags(fields)
    requires HasTag(fields, BEGIN_STRING) && HasTag(fields, BODY_LENGTH) && HasTag(fields, MSG_TYPE)
    ensures forall f :: f in LeadFields(m) + HeaderRest(m) <==> f in fields
  {
    var rest := HeaderRest(m);
    var lead := LeadFields(m);
    assert rest == Unpicked(fields, LEADING);
    assert lead == [FieldOf(fields, BEGIN_STRING), FieldOf(fields, BODY_LENGTH), FieldOf(fields, MSG_TYPE)];
    hide *;
    forall f ensures f in lead + rest <==> f in fields {
      ArrangedMember(fields, lead, rest, f);
    }
  }

  lemma ArrangedMember(fields: seq<Field>, lead: seq<Field>, rest: seq<Field>, f: Field)
    requires UniqueTags(fields) && rest == Unpicked(fields, LEADING)
    requires HasTag(fields, BEGIN_STRING) && HasTag(fields, BODY_LENGTH) && HasTag(fields, MSG_TYPE)
    requires lead == [FieldOf(fields, BEGIN_STRING), FieldOf(fields, BODY_LENGTH), FieldOf(fields, MSG_TYPE)]
    ensures f in lead + rest <==> f in fields
  {
    hide Unpicked;
    UnpickedMembers(fields, LEADING, f);
    if f in fields && f.tag in LEADING {
      LookupMember(fields, f);
      var i :| 0 <= i < |fields| && fields[i] == f;
      assert f == FieldOf(fields, f.tag);
    }
  }

  // ----- sending a read message with another header -----

  lemma {:induction false} AsReadTrailer(m: Parts, sep: byte)
    requires Fields.Valid(m.trailer) && m.trailer.groups == []
    ensures var t := AsRead(m, sep).trailer;
            Fields.Valid(t) && t.groups == []
              && RemoveTag(t.fields, CHECK_SUM) == RemoveTag(m.trailer.fields, CHECK_SUM)
  {
    var trailer, c := RemoveTag(m.trailer.fields, CHECK_SUM), CheckSumField(Front(m, sep));
    TrailerShape(m, sep);
    AsReadForm(m, sep);
    hide *;
    CheckSumFirst(c, trailer);
  }

  lemma CheckSumFirst(c: Field, trailer: seq<Field>)
    requires UniqueTags(trailer) && !HasTag(trailer, CHECK_SUM) && c.tag == CHECK_SUM
    ensures Fields.Valid(FieldMap([c] + trailer, [])) && RemoveTag([c] + trailer, CHECK_SUM) == trailer
  {
    var all := [c] + trailer;
    assert all[0].tag == CHECK_SUM && IndexOf(all, CHECK_SUM) == 0;
    assert all[..0] == [] && all[1..] == trailer;
  }

  /** A message read back can be sent again under any good header of the same type. */
  lemma {:induction false} ReheadedDescribable(b: MessageBuilder, m: Parts, header: FieldMap)
    requires WellFormedBuilder(b) && Sendable(b, m) && GoodHeader(b, header)
    requires HasTag(header.fields, BEGIN_STRING) && GetRaw(header.fields, MSG_TYPE) == GetRaw(m.header.fields, MSG_TYPE)
    ensures Describable(b, AsRead(m, b.config.separator).(header := header))
  {
    var sep := b.config.separator;
    var m' := AsRead(m, sep).(header := header);
    var l := b.messages[FieldOf(m.header.fields, MSG_TYPE).data];
    assert HasTag(header.fields, MSG_TYPE);
    assert FieldOf(header.fields, MSG_TYPE).data == FieldOf(m.header.fields, MSG_TYPE).data;
    AsReadTrailer(m, sep);
    AlignedSendable(b, l, m.body, RemoveTag(m.trailer.fields, CHECK_SUM));
    AsReadForm(m, sep);
    GoodSendable(b, header);
    assert Fields.Valid(header) && m'.body == Aligned(m.body);
    hide BodyLength, AsRead, SendableBody, SendableHeader, AllSeparable, Fields.Valid, GoodHeader, RemoveTag, Prepared;
  }
}
