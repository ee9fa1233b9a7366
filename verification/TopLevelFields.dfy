/** Required fields at the top level of a body: nobody looks for them. */
module TopLevelFields {
  import opened Decimal
  import opened Fields
  import opened Layouts
  import opened Wire
  import opened Encoder
  import opened Lengths
  import opened Assembly
  import opened Alignment
  import opened Messages
  import opened BodyLengths
  import opened Reading
  import opened BodyGrammar
  import opened RoundTrip
  import opened Rereading
  import opened RequiredFields

  /** The message type is one of the dictionary's, and a message of that type may end where its
      header does. */
  predicate Terminable(b: MessageBuilder, t: seq<byte>) {
    && t in b.messages
    && !IsDigit(b.config.separator) && b.config.separator !in t && |t| + 4 < U64_LIMIT
    && CHECK_SUM in b.trailerTags && CHECK_SUM !in b.headerTags && !Absorbs(b, b.messages[t], CHECK_SUM)
  }

  /** A message without a body. */
  function Bare(t: seq<byte>): Parts {
    Parts(FieldMap([Field(BEGIN_STRING, []), Field(MSG_TYPE, t)], []), EMPTY, EMPTY)
  }

  lemma {:induction false} BareHeader(b: MessageBuilder, t: seq<byte>)
    requires Terminable(b, t)
    ensures var header := Bare(t).header;
            && SendableHeader(b, header) && AllSeparable(Unpicked(header.fields, [BODY_LENGTH]), b.config.separator)
            && FieldOf(header.fields, MSG_TYPE) == Field(MSG_TYPE, t)
  {
    var header := Bare(t).header;
    var fields := header.fields;
    assert fields[0].tag == BEGIN_STRING && fields[1].tag == MSG_TYPE;
    assert IndexOf(fields, MSG_TYPE) == 1;
    assert GoodHeader(b, header);
    GoodSendable(b, header);
  }

  lemma {:induction false} BareBody(b: MessageBuilder, l: Layout)
    requires WellFormed(l) && CHECK_SUM in b.trailerTags && CHECK_SUM !in b.headerTags && !Absorbs(b, l, CHECK_SUM)
    ensures SendableBody(b, l, EMPTY, []) && FlatNodes(Nodes(EMPTY)) == [] && Aligned(EMPTY) == EMPTY
  {
    assert Nodes(EMPTY) == [];
    assert RunsOrphans([], []) == 0;
  }

  lemma {:induction false} BareLength(t: seq<byte>)
    ensures BodyLength(Prepared(Bare(t))) == |t| + 4
  {
    var m := Bare(t);
    var f := Field(BODY_LENGTH, Print(BodyLength(m.(trailer := PopField(m.trailer, CHECK_SUM)))));
    assert PopField(EMPTY, CHECK_SUM) == EMPTY;
    SetBodyLength(m.header, f);
    HeaderLength(t);
    hide Print, InsertField;
  }

  lemma HeaderLength(t: seq<byte>)
    ensures MapLength(Bare(t).header, [BEGIN_STRING, BODY_LENGTH]) == |t| + 4
    ensures MapLength(EMPTY, []) == 0 && MapLength(EMPTY, [CHECK_SUM]) == 0
  {
    var fields, skip: seq<Tag> := Bare(t).header.fields, [BEGIN_STRING, BODY_LENGTH];
    assert fields[1..][1..] == [];
    assert FieldsLength(fields[1..], skip) == Field(MSG_TYPE, t).Length();
    assert Print(35) == Print(3) + [53];
  }

  lemma {:induction false} BareSendable(b: MessageBuilder, t: seq<byte>)
    requires WellFormedBuilder(b) && Terminable(b, t)
    ensures Sendable(b, Bare(t))
  {
    BareHeader(b, t);
    BareBody(b, b.messages[t]);
    BareLength(t);
    assert RemoveTag([], CHECK_SUM) == [];
    assert Fields.Valid(EMPTY);
    hide SendableHeader, SendableBody, BodyLength, Prepared, FieldOf, Unpicked;
  }

  /** A message of type `t` without a single body field is valid. */
  lemma {:induction false} BareValid(b: MessageBuilder, t: seq<byte>)
    requires WellFormedBuilder(b) && Terminable(b, t)
    ensures var r := Build(b, Encoded(Bare(t), b.config.separator));
            r.Valid? && GetRaw(r.message.header.fields, MSG_TYPE) == Some(t) && r.message.body == EMPTY
  {
    var sep, m := b.config.separator, Bare(t);
    BareHeader(b, t);
    BareBody(b, b.messages[t]);
    assert GetRaw(m.header.fields, MSG_TYPE) == Some(t);
    assert m.body == EMPTY;
    hide *;
    BareSendable(b, t);
    EncodeThenBuild(b, m);
    AsReadHeader(b, m, MSG_TYPE);
    AsReadForm(m, sep);
  }

  /** `raw` is a valid message of type `t`. */
  ghost predicate ValidOfType(b: MessageBuilder, raw: seq<byte>, t: seq<byte>)
    requires WellFormedBuilder(b)
  {
    var r := Build(b, raw);
    r.Valid? && GetRaw(r.message.header.fields, MSG_TYPE) == Some(t)
  }

  ghost predicate AlwaysComplete(b: MessageBuilder, t: seq<byte>)
    requires WellFormedBuilder(b) && t in b.messages
  {
    forall raw :: ValidOfType(b, raw, t) ==> HasRequired(b.messages[t], Build(b, raw).message.body.fields)
  }

  predicate NothingRequired(l: Layout) {
    forall k :: 0 <= k < |l.fields| ==> !l.fields[k].isRequired
  }

  /** Every valid message of a type has the fields its layout requires at the top level exactly
      if the layout requires none there. */
  lemma {:induction false} TopLevelUnchecked(b: MessageBuilder, t: seq<byte>)
    requires WellFormedBuilder(b) && Terminable(b, t)
    ensures AlwaysComplete(b, t) <==> NothingRequired(b.messages[t])
  {
    var raw, l := Encoded(Bare(t), b.config.separator), b.messages[t];
    BareValid(b, t);
    hide Build, Encoded, Bare;
    assert ValidOfType(b, raw, t);
    if AlwaysComplete(b, t) {
      assert HasRequired(l, []);
      forall k | 0 <= k < |l.fields| ensures !l.fields[k].isRequired {
        assert !HasTag([], l.fields[k].tag);
      }
    }
  }
}
