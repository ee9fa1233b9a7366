/** The hypotheses of the codec and replay theorems can be met: a dictionary with the session
    messages and an execution report whose parties carry sub-parties. */
module Examples {
  import opened Decimal
  import opened Fields
  import opened Layouts
  import opened Wire
  import opened Lengths
  import opened Grammar
  import opened Assembly
  import opened Alignment
  import opened Messages
  import opened BodyLengths
  import opened Reading
  import opened BodyGrammar
  import opened RoundTrip
  import opened Rebuilding
  import opened Rereading
  import opened Timestamps
  import opened Outbound
  import opened Resending
  import opened ReplayWire
  import opened TopLevelFields

  const EXECUTION_REPORT: seq<byte> := [56]
  const NO_PARTY_IDS: Tag := 453
  const PARTY_ID: Tag := 448
  const NO_PARTY_SUB_IDS: Tag := 802
  const PARTY_SUB_ID: Tag := 523

  const SUB_PARTIES := GroupSpec(NO_PARTY_SUB_IDS, Layout([FieldSpec(PARTY_SUB_ID, true)], []))

  const PARTIES := GroupSpec(NO_PARTY_IDS,
    Layout([FieldSpec(PARTY_ID, true), FieldSpec(NO_PARTY_SUB_IDS, false)], [SUB_PARTIES]))

  const REPORT := Layout([FieldSpec(NO_PARTY_IDS, false)], [PARTIES])

  const RESET := Layout([FieldSpec(GAP_FILL_FLAG, false), FieldSpec(NEW_SEQ_NO, true)], [])

  const DICTIONARY := MessageBuilder(
    SESSION_TAGS, {CHECK_SUM},
    {GAP_FILL_FLAG, NEW_SEQ_NO, NO_PARTY_IDS, PARTY_ID, NO_PARTY_SUB_IDS, PARTY_SUB_ID},
    map[SEQUENCE_RESET := RESET, EXECUTION_REPORT := REPORT],
    Config(SOH, true))

  lemma DictionaryWellFormed()
    ensures WellFormedGroup(SUB_PARTIES) && WellFormedGroup(PARTIES) && WellFormed(REPORT) && WellFormed(RESET)
    ensures WellFormedBuilder(DICTIONARY)
  {
    assert WellFormed(SUB_PARTIES.layout);
    assert WellFormed(PARTIES.layout);
  }

  /** A context in which every gap fill is described by the dictionary. */
  lemma ContextReady(s: Session, accurate: Timestamp -> bool)
    requires SOH !in s.beginString && SOH !in s.senderCompId && SOH !in s.targetCompId
    ensures Ready(Context(DICTIONARY, s, accurate))
  {
    DictionaryWellFormed();
    assert RESET.fields[0].tag == GAP_FILL_FLAG && RESET.fields[1].tag == NEW_SEQ_NO;
    assert !Declares(RESET, CHECK_SUM);
  }

  // ----- a report with nested groups -----

  function SubParty(sub: seq<byte>): Group {
    Group(NO_PARTY_SUB_IDS, PARTY_SUB_ID, FieldMap([Field(PARTY_SUB_ID, sub)], []))
  }

  function Party(id: seq<byte>, sub: seq<byte>): Group {
    Group(NO_PARTY_IDS, PARTY_ID,
          FieldMap([Field(PARTY_ID, id), Field(NO_PARTY_SUB_IDS, [49])], [Run(NO_PARTY_SUB_IDS, [SubParty(sub)])]))
  }

  /** One party with one sub-party. */
  function ReportBody(id: seq<byte>, sub: seq<byte>): FieldMap {
    FieldMap([Field(NO_PARTY_IDS, [49])], [Run(NO_PARTY_IDS, [Party(id, sub)])])
  }

  lemma GroupsFound()
    ensures GroupFor(REPORT, NO_PARTY_IDS) == Some(PARTIES)
    ensures GroupFor(PARTIES.layout, NO_PARTY_SUB_IDS) == Some(SUB_PARTIES)
    ensures GroupFor(PARTIES.layout, PARTY_ID).None? && GroupFor(SUB_PARTIES.layout, PARTY_SUB_ID).None?
    ensures Declares(REPORT, NO_PARTY_IDS) && Declares(PARTIES.layout, NO_PARTY_SUB_IDS)
    ensures !Declares(REPORT, CHECK_SUM) && !Declares(PARTIES.layout, CHECK_SUM)
            && !Declares(SUB_PARTIES.layout, CHECK_SUM)
  {
    assert REPORT.fields[0].tag == NO_PARTY_IDS && PARTIES.layout.fields[1].tag == NO_PARTY_SUB_IDS;
  }

  // ----- its syntax -----

  function SubEntry(sub: seq<byte>): Entry {
    Entry([Node(Field(PARTY_SUB_ID, sub), [])])
  }

  function PartyEntry(id: seq<byte>, sub: seq<byte>): Entry {
    Entry([Node(Field(PARTY_ID, id), []), Node(Field(NO_PARTY_SUB_IDS, [49]), [SubEntry(sub)])])
  }

  function ReportNode(id: seq<byte>, sub: seq<byte>): Node {
    Node(Field(NO_PARTY_IDS, [49]), [PartyEntry(id, sub)])
  }

  lemma OneRun(runs: seq<Run>, run: Run)
    requires runs == [run]
    ensures EntriesOf(runs, run.countTag) == run.entries
    ensures forall t: Tag :: t != run.countTag ==> EntriesOf(runs, t) == []
  {
    assert runs[0].countTag == run.countTag;
  }

  lemma {:induction false} ReportNodes(id: seq<byte>, sub: seq<byte>)
    ensures Nodes(ReportBody(id, sub)) == [ReportNode(id, sub)]
  {
    var body, party, inner := ReportBody(id, sub), Party(id, sub), SubParty(sub);
    OneRun(body.groups, Run(NO_PARTY_IDS, [party]));
    OneRun(party.content.groups, Run(NO_PARTY_SUB_IDS, [inner]));
    assert Nodes(inner.content) == SubEntry(sub).nodes;
    assert Entries([inner]) == [SubEntry(sub)];
    assert Nodes(party.content) == PartyEntry(id, sub).nodes;
    assert Entries([party]) == [PartyEntry(id, sub)];
  }

  lemma {:induction false} SubConforms(sub: seq<byte>)
    requires WellFormedGroup(SUB_PARTIES)
    ensures RunConforms(DICTIONARY, SUB_PARTIES, [SubEntry(sub)], CHECK_SUM)
  {
    GroupsFound();
    assert EntryConforms(DICTIONARY, SUB_PARTIES, SubEntry(sub), CHECK_SUM);
  }

  lemma {:induction false} PartyConforms(id: seq<byte>, sub: seq<byte>)
    requires WellFormedGroup(PARTIES) && WellFormedGroup(SUB_PARTIES)
    ensures RunConforms(DICTIONARY, PARTIES, [PartyEntry(id, sub)], CHECK_SUM)
  {
    GroupsFound();
    SubConforms(sub);
    var e := PartyEntry(id, sub);
    assert Declares(PARTIES.layout, PARTY_ID) by {
      assert PARTIES.layout.fields[0].tag == PARTY_ID;
    }
    assert Position(PARTIES.layout, PARTY_ID) == 0 && Position(PARTIES.layout, NO_PARTY_SUB_IDS) == 1;
    assert NodeConforms(DICTIONARY, PARTIES, e.nodes[1], CHECK_SUM);
    assert InOrder(PARTIES.layout, e.nodes);
    assert EntryConforms(DICTIONARY, PARTIES, e, CHECK_SUM);
  }

  lemma {:induction false} PartyComplete(id: seq<byte>, sub: seq<byte>)
    requires WellFormedGroup(PARTIES) && WellFormedGroup(SUB_PARTIES)
    ensures BuildRun(PARTIES, [PartyEntry(id, sub)]) == [Party(id, sub)]
    ensures RequiredPresent(PARTIES, [Party(id, sub)])
  {
    GroupsFound();
    var party, inner, e := Party(id, sub), SubParty(sub), PartyEntry(id, sub);
    var n := SubEntry(sub).nodes[0];
    assert BuildMap(SUB_PARTIES.layout, [n]) == inner.content by {
      assert [n] == [] + [n];
      BuildMapSnoc(SUB_PARTIES.layout, [], n);
    }
    assert BuildRun(SUB_PARTIES, [SubEntry(sub)]) == [inner];
    assert BuildMap(PARTIES.layout, e.nodes) == party.content by {
      assert e.nodes == [] + [e.nodes[0]] + [e.nodes[1]];
      BuildMapSnoc(PARTIES.layout, [], e.nodes[0]);
      BuildMapSnoc(PARTIES.layout, [] + [e.nodes[0]], e.nodes[1]);
    }
    OneRun(party.content.groups, Run(NO_PARTY_SUB_IDS, [inner]));
    assert inner.content.fields[0].tag == PARTY_SUB_ID && party.content.fields[0].tag == PARTY_ID;
    assert EntryComplete(SUB_PARTIES, inner.content);
    assert EntryComplete(PARTIES, party.content);
  }

  lemma {:induction false} ReportLabelled(id: seq<byte>, sub: seq<byte>)
    requires WellFormed(REPORT) && WellFormedGroup(PARTIES) && WellFormedGroup(SUB_PARTIES)
    ensures Labelled(REPORT, ReportBody(id, sub)) && Fields.Valid(ReportBody(id, sub))
  {
    GroupsFound();
    var body, party, inner := ReportBody(id, sub), Party(id, sub), SubParty(sub);
    OneRun(body.groups, Run(NO_PARTY_IDS, [party]));
    OneRun(party.content.groups, Run(NO_PARTY_SUB_IDS, [inner]));
    assert Labelled(SUB_PARTIES.layout, inner.content);
    assert LabelledRun(SUB_PARTIES, [inner]);
    assert Labelled(PARTIES.layout, party.content);
    assert LabelledRun(PARTIES, [party]);
    assert Fields.Valid(inner.content) && Fields.Valid(party.content);
  }

  lemma {:induction false} ReportAnchored(id: seq<byte>, sub: seq<byte>)
    ensures MapOrphans(ReportBody(id, sub)) == 0
  {
    var body, party, inner := ReportBody(id, sub), Party(id, sub), SubParty(sub);
    assert party.content.fields[1].tag == NO_PARTY_SUB_IDS && body.fields[0].tag == NO_PARTY_IDS;
    assert RunsAnchored(inner.content);
    AnchoredOrphans(inner.content);
    NoEntryOrphans([inner]);
    assert RunsAnchored(party.content);
    AnchoredOrphans(party.content);
    NoEntryOrphans([party]);
    assert RunsAnchored(body);
    AnchoredOrphans(body);
  }

  /** The report, stamped like any other message, is described by the dictionary, for all values
      free of the separator. */
  lemma {:induction false} ReportDescribable(s: Session, n: nat, now: Moment, id: seq<byte>, sub: seq<byte>)
    requires SOH !in s.beginString && SOH !in s.senderCompId && SOH !in s.targetCompId && SOH !in id && SOH !in sub
    ensures WellFormedBuilder(DICTIONARY)
    ensures Describable(DICTIONARY, Stamped(s, n, now, Payload(EXECUTION_REPORT, [], ReportBody(id, sub))))
  {
    hide *;
    var m := Stamped(s, n, now, Payload(EXECUTION_REPORT, [], ReportBody(id, sub)));
    DictionaryWellFormed();
    ReportBodySendable(id, sub);
    StampedGood(s, n, now);
    ReportIs(s, n, now, ReportBody(id, sub));
    GoodSendable(DICTIONARY, m.header);
    DescribableFrom(DICTIONARY, m, EXECUTION_REPORT);
  }

  lemma ReportIs(s: Session, n: nat, now: Moment, body: FieldMap)
    ensures Stamped(s, n, now, Payload(EXECUTION_REPORT, [], body))
            == Parts(FieldMap(InsertAll(StampedHeader(s, n, now, EXECUTION_REPORT), []), []), body, EMPTY)
    ensures DICTIONARY.config.separator == SOH && EXECUTION_REPORT in DICTIONARY.messages
    ensures DICTIONARY.messages[EXECUTION_REPORT] == REPORT
  {
    hide InsertAll, StampedHeader;
  }

  lemma {:induction false} ReportBodySendable(id: seq<byte>, sub: seq<byte>)
    requires SOH !in id && SOH !in sub && WellFormed(REPORT) && WellFormedGroup(PARTIES) && WellFormedGroup(SUB_PARTIES)
    ensures SendableBody(DICTIONARY, REPORT, ReportBody(id, sub), [])
    ensures AllSeparable(FlatNodes(Nodes(ReportBody(id, sub))), SOH)
  {
    var node := ReportNode(id, sub);
    ReportNodes(id, sub);
    ReportLabelled(id, sub);
    ReportAnchored(id, sub);
    PartyConforms(id, sub);
    PartyComplete(id, sub);
    GroupsFound();
    assert BodyNodeConforms(DICTIONARY, REPORT, node, CHECK_SUM) by {
      hide RunConforms, RequiredPresent, BuildRun;
    }
    assert NextTag([node], 0, CHECK_SUM) == CHECK_SUM;
    assert PrefixConforms(DICTIONARY, REPORT, [node], CHECK_SUM);
    ReportFlat(id, sub);
    hide BodyNodeConforms, Labelled, Fields.Valid, MapOrphans, Nodes, FlatNodes;
  }

  lemma {:induction false} ReportFlat(id: seq<byte>, sub: seq<byte>)
    ensures FlatNodes([ReportNode(id, sub)])
            == [Field(NO_PARTY_IDS, [49]), Field(PARTY_ID, id), Field(NO_PARTY_SUB_IDS, [49]), Field(PARTY_SUB_ID, sub)]
  {
    var node, e, inner := ReportNode(id, sub), PartyEntry(id, sub), SubEntry(sub);
    FlatSingleNode(node);
    FlatSingleEntry(e);
    assert e.nodes == [e.nodes[0]] + [e.nodes[1]];
    FlatNodesConcat([e.nodes[0]], [e.nodes[1]]);
    FlatSingleNode(e.nodes[0]);
    FlatSingleNode(e.nodes[1]);
    FlatSingleEntry(inner);
    FlatSingleNode(inner.nodes[0]);
    assert FlatEntries([]) == [];
  }

  lemma {:induction false} StampedGood(s: Session, n: nat, now: Moment)
    requires SOH !in s.beginString && SOH !in s.senderCompId && SOH !in s.targetCompId
    ensures var header := FieldMap(InsertAll(StampedHeader(s, n, now, EXECUTION_REPORT), []), []);
            && GoodHeader(DICTIONARY, header)
            && HasTag(header.fields, BEGIN_STRING) && HasTag(header.fields, MSG_TYPE)
            && FieldOf(header.fields, MSG_TYPE).data == EXECUTION_REPORT
  {
    var fields := StampedHeader(s, n, now, EXECUTION_REPORT);
    TimeClean(now, SOH);
    DigitsClean(n);
    hide Print, PrintTime;
    assert UniqueTags(fields);
    assert fields[0].tag == BEGIN_STRING && fields[1].tag == MSG_TYPE;
    LookupMember(fields, fields[1]);
    assert forall i :: 0 <= i < |fields| ==> Carried(DICTIONARY, fields[i]);
  }

  // ----- a reset without its NewSeqNo -----

  /** The dictionary requires NewSeqNo in a SequenceReset; one without any body field is valid. */
  lemma {:induction false} ResetWithoutNumber()
    ensures WellFormedBuilder(DICTIONARY) && FieldSpec(NEW_SEQ_NO, true) in DICTIONARY.messages[SEQUENCE_RESET].fields
    ensures var r := Build(DICTIONARY, Encoded(Bare(SEQUENCE_RESET), SOH));
            && r.Valid? && GetRaw(r.message.header.fields, MSG_TYPE) == Some(SEQUENCE_RESET)
            && !HasTag(r.message.body.fields, NEW_SEQ_NO)
  {
    DictionaryWellFormed();
    assert !Declares(RESET, CHECK_SUM);
    assert RESET.fields[1] == FieldSpec(NEW_SEQ_NO, true);
    assert Terminable(DICTIONARY, SEQUENCE_RESET);
    hide Build, Encoded, Bare, Terminable;
    BareValid(DICTIONARY, SEQUENCE_RESET);
  }
}
