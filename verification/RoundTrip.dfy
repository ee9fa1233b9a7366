/** Building what was encoded: every sendable message comes back. */
module RoundTrip {
  import opened Decimal
  import opened Fields
  import opened Layouts
  import opened Wire
  import opened Encoder
  import opened Lengths
  import opened Assembly
  import opened Alignment
  import opened Messages
  import opened BodyLengths
  import opened Reading
  import opened BodyGrammar

  // ----- reading at a field boundary -----

  lemma {:induction false} RenderSplit(fields: seq<Field>, i: nat, sep: byte)
    requires i <= |fields|
    ensures Render(fields, sep) == Render(fields[..i], sep) + Render(fields[i..], sep)
  {
    assert fields == fields[..i] + fields[i..];
    RenderConcat(fields[..i], fields[i..], sep);
  }

  /** Reading at the start of field `i` finds field `i`. */
  lemma {:induction false} FieldAtBoundary(fields: seq<Field>, i: nat, sep: byte)
    requires i < |fields| && Separable(fields[i], sep)
    ensures |Render(fields[..i], sep)| <= |Render(fields, sep)|
    ensures |Render(fields[..i + 1], sep)| == |Render(fields[..i], sep)| + fields[i].Length()
    ensures FieldAt(Render(fields, sep), sep, |Render(fields[..i], sep)|)
            == Some((fields[i], |Render(fields[..i + 1], sep)| - 1))
  {
    hide Render, FieldAt;
    var f, pre := fields[i], Render(fields[..i], sep);
    RenderSplit(fields, i, sep);
    RenderSplit(fields[i..], 1, sep);
    assert fields[i..][..1] == [f] && fields[i..][1..] == fields[i + 1..] && fields[..i + 1] == fields[..i] + [f];
    RenderSingle(f, sep);
    RenderConcat(fields[..i], [f], sep);
    Associative(pre, RenderField(f, sep), Render(fields[i + 1..], sep));
    FieldAtRendered(pre, f, Render(fields[i + 1..], sep), sep);
  }

  lemma {:induction false} TokensAtBoundary(fields: seq<Field>, i: nat, sep: byte)
    requires i <= |fields| && forall k :: 0 <= k < |fields| ==> Separable(fields[k], sep)
    ensures |Render(fields[..i], sep)| <= |Render(fields, sep)|
    ensures Tokens(Render(fields, sep), sep, |Render(fields[..i], sep)|) == fields[i..]
  {
    hide Render, Tokens;
    RenderSplit(fields, i, sep);
    TokensRendered(Render(fields[..i], sep), fields[i..], sep);
  }

  // ----- storing fields with distinct tags -----

  lemma {:induction false} InsertAllDistinct(fields: seq<Field>, more: seq<Field>)
    requires UniqueTags(fields + more)
    ensures InsertAll(fields, more) == fields + more
    decreases |more|
  {
    if more == [] {
      assert fields + more == fields;
    } else {
      var f := more[0];
      assert (fields + more)[|fields|] == f;
      assert !HasTag(fields, f.tag) by {
        assert forall i :: 0 <= i < |fields| ==> fields[i] == (fields + more)[i];
      }
      assert fields + [f] + more[1..] == fields + more;
      InsertAllDistinct(fields + [f], more[1..]);
    }
  }

  lemma {:induction false} UnpickedOf(fields: seq<Field>, pre: seq<Tag>)
    requires UniqueTags(fields)
    ensures UniqueTags(Unpicked(fields, pre))
    ensures forall f :: f in Unpicked(fields, pre) ==> f in fields && f.tag !in pre
  {
    if fields != [] {
      var front, f := fields[..|fields| - 1], fields[|fields| - 1];
      assert forall g :: g in front ==> g in fields;
      UnpickedOf(front, pre);
      forall g | g in Unpicked(front, pre) ensures g.tag != f.tag {
        var i :| 0 <= i < |front| && front[i] == g;
        assert fields[i] == g;
      }
    }
  }

  lemma {:induction false} FlatPlain(fm: FieldMap)
    requires fm.groups == []
    ensures FlatNodes(Nodes(fm)) == fm.fields
    decreases |fm.fields|
  {
    if fm.fields != [] {
      var rest := FieldMap(fm.fields[1..], []);
      var nodes := Nodes(fm);
      assert nodes[0] == Node(fm.fields[0], []) && nodes[1..] == Nodes(rest);
      FlatPlain(rest);
      FlatHead(nodes);
      assert FlatEntries([]) == [];
    }
  }

  // ----- sendable messages -----

  /** The tag that ends the body: the first trailer field, or the checksum. */
  function BodyFollow(trailer: seq<Field>): Tag {
    if trailer == [] then CHECK_SUM else trailer[0].tag
  }

  predicate AllSeparable(fields: seq<Field>, sep: byte) {
    forall i :: 0 <= i < |fields| ==> Separable(fields[i], sep)
  }

  ghost predicate SendableHeader(b: MessageBuilder, header: FieldMap) {
    && Fields.Valid(header) && header.groups == []
    && HasTag(header.fields, BEGIN_STRING) && HasTag(header.fields, MSG_TYPE)
    && (forall f :: f in header.fields ==> f.tag in LEADING || f.tag in b.headerTags)
    && FieldOf(header.fields, MSG_TYPE).data in b.messages
  }

  /** `trailer` is what the trailer holds besides the checksum. */
  ghost predicate SendableBody(b: MessageBuilder, l: Layout, body: FieldMap, trailer: seq<Field>)
    requires WellFormed(l)
  {
    && Fields.Valid(body) && MapOrphans(body) == 0 && Labelled(l, body)
    && BodyConforms(b, l, Nodes(body), BodyFollow(trailer))
    && (if body.fields == [] then BodyFollow(trailer) else body.fields[0].tag) !in b.headerTags
  }

  /** A message the dictionary describes, with values free of the separator. */
  ghost predicate Describable(b: MessageBuilder, m: Parts)
    requires WellFormedBuilder(b)
  {
    && !IsDigit(b.config.separator)
    && SendableHeader(b, m.header)
    && Fields.Valid(m.trailer) && m.trailer.groups == []
    && SendableBody(b, b.messages[FieldOf(m.header.fields, MSG_TYPE).data], m.body,
       RemoveTag(m.trailer.fields, CHECK_SUM))
    && AllSeparable(Unpicked(m.header.fields, [BODY_LENGTH]), b.config.separator)
    && AllSeparable(FlatNodes(Nodes(m.body)), b.config.separator)
    && AllSeparable(RemoveTag(m.trailer.fields, CHECK_SUM), b.config.separator)
  }

  /** Such a message, short enough for its length to be a machine integer. */
  ghost predicate Sendable(b: MessageBuilder, m: Parts)
    requires WellFormedBuilder(b)
  {
    Describable(b, m) && BodyLength(Prepared(m)) < U64_LIMIT
  }

  // ----- the encoded fields -----

  /** Fields 8, 9 and 35, the other header fields, the body, the other trailer fields. */
  lemma {:induction false} FieldsOfHeader(header: FieldMap)
    requires Fields.Valid(header) && header.groups == []
    requires HasTag(header.fields, BEGIN_STRING) && HasTag(header.fields, BODY_LENGTH)
             && HasTag(header.fields, MSG_TYPE)
    ensures var fields := header.fields;
            var lead := [FieldOf(fields, BEGIN_STRING), FieldOf(fields, BODY_LENGTH), FieldOf(fields, MSG_TYPE)];
            && Written(header, LEADING) == lead + Unpicked(fields, LEADING)
            && Arranged(header, LEADING).fields == lead + Unpicked(fields, LEADING)
            && UniqueTags(lead + Unpicked(fields, LEADING))
  {
    var fields := header.fields;
    PickedTwo(fields);
    FlatPlain(Arranged(header, LEADING));
    UnpickedOf(fields, LEADING);
    var lead := [FieldOf(fields, BEGIN_STRING), FieldOf(fields, BODY_LENGTH), FieldOf(fields, MSG_TYPE)];
    var others := Unpicked(fields, LEADING);
    assert Picked(fields, LEADING) == lead;
    assert forall i :: 0 <= i < |others| ==> others[i] in others;
  }

  function HeaderRest(m: Parts): seq<Field> {
    Unpicked(Prepared(m).header.fields, LEADING)
  }

  /** The leading fields of a prepared message. */
  function LeadFields(m: Parts): seq<Field>
    requires var h := Prepared(m).header.fields;
             HasTag(h, BEGIN_STRING) && HasTag(h, BODY_LENGTH) && HasTag(h, MSG_TYPE)
  {
    var h := Prepared(m).header.fields;
    [FieldOf(h, BEGIN_STRING), FieldOf(h, BODY_LENGTH), FieldOf(h, MSG_TYPE)]
  }

  lemma {:induction false} PreparedHeader(b: MessageBuilder, m: Parts)
    requires WellFormedBuilder(b) && Sendable(b, m)
    ensures var h := Prepared(m).header;
            && HasTag(h.fields, BEGIN_STRING) && HasTag(h.fields, BODY_LENGTH) && HasTag(h.fields, MSG_TYPE)
            && Fields.Valid(h) && h.groups == []
            && FieldOf(h.fields, MSG_TYPE) == FieldOf(m.header.fields, MSG_TYPE)
            && FieldOf(h.fields, BODY_LENGTH) == Field(BODY_LENGTH, Print(BodyLength(Prepared(m))))
            && (forall f :: f in HeaderRest(m) ==>
                  f.tag in b.headerTags && f in m.header.fields && f.tag != BODY_LENGTH)
  {
    PreparedParts(m);
    hide MapLength, Print, SendableBody, AllSeparable;
    var fields := Prepared(m).header.fields;
    var f := Field(BODY_LENGTH, Print(BodyLength(m.(trailer := PopField(m.trailer, CHECK_SUM)))));
    InsertedField(m.header.fields, f);
    assert GetRaw(fields, MSG_TYPE) == GetRaw(m.header.fields, MSG_TYPE);
    UnpickedOf(fields, LEADING);
    forall g | g in HeaderRest(m) ensures g.tag in b.headerTags && g in m.header.fields && g.tag != BODY_LENGTH {
      assert g in fields && g.tag !in LEADING;
      assert g in m.header.fields;
    }
  }

  /** What follows the three leading fields. */
  function Tail(m: Parts, sep: byte): seq<Field> {
    HeaderRest(m) + (FlatNodes(Nodes(m.body))
      + (RemoveTag(m.trailer.fields, CHECK_SUM) + [CheckSumField(Front(m, sep))]))
  }

  lemma PartsWritten(m: Parts, sep: byte)
    requires m.trailer.groups == []
    ensures EncodedFields(m, sep) == Written(Prepared(m).header, LEADING) + FlatNodes(Nodes(m.body))
                                     + RemoveTag(m.trailer.fields, CHECK_SUM) + [CheckSumField(Front(m, sep))]
  {
    var p := Prepared(m);
    hide BodyLength, MapLength, FlatNodes, Nodes, Written;
    WrittenPlain(p.body);
    WrittenPlain(p.trailer);
    FlatPlain(p.trailer);
  }

  lemma RegroupTail(lead: seq<Field>, h: seq<Field>, b: seq<Field>, t: seq<Field>, c: seq<Field>)
    ensures (lead + h) + b + t + c == lead + (h + (b + (t + c)))
  {}

  /** The encoded message, field by field. */
  lemma {:induction false} EncodedForm(b: MessageBuilder, m: Parts)
    requires WellFormedBuilder(b) && Sendable(b, m)
    ensures var h := Prepared(m).header.fields; HasTag(h, BEGIN_STRING) && HasTag(h, BODY_LENGTH) && HasTag(h, MSG_TYPE)
    ensures EncodedFields(m, b.config.separator) == LeadFields(m) + Tail(m, b.config.separator)
  {
    var sep := b.config.separator;
    PreparedHeader(b, m);
    PartsWritten(m, sep);
    FieldsOfHeader(Prepared(m).header);
    assert Written(Prepared(m).header, LEADING) == LeadFields(m) + HeaderRest(m);
    hide *;
    TailForm(m, sep);
    RegroupTail(LeadFields(m), HeaderRest(m), FlatNodes(Nodes(m.body)), RemoveTag(m.trailer.fields, CHECK_SUM),
      [CheckSumField(Front(m, sep))]);
  }

  lemma TailForm(m: Parts, sep: byte)
    ensures Tail(m, sep) == HeaderRest(m)
            + (FlatNodes(Nodes(m.body)) + (RemoveTag(m.trailer.fields, CHECK_SUM) + [CheckSumField(Front(m, sep))]))
  {}

  lemma SeparableConcat(a: seq<Field>, b: seq<Field>, sep: byte)
    requires AllSeparable(a, sep) && AllSeparable(b, sep)
    ensures AllSeparable(a + b, sep)
  {}

  lemma {:induction false} EncodedSeparable(b: MessageBuilder, m: Parts)
    requires WellFormedBuilder(b) && Sendable(b, m)
    ensures AllSeparable(EncodedFields(m, b.config.separator), b.config.separator)
  {
    var sep := b.config.separator;
    LeadSeparable(b, m);
    assert AllSeparable(FlatNodes(Nodes(m.body)), sep) && AllSeparable(RemoveTag(m.trailer.fields, CHECK_SUM), sep);
    var c := [CheckSumField(Front(m, sep))];
    assert AllSeparable(c, sep) by { hide Front, ByteSum; }
    EncodedForm(b, m);
    hide *;
    TailForm(m, sep);
    SeparableConcat(RemoveTag(m.trailer.fields, CHECK_SUM), c, sep);
    SeparableConcat(FlatNodes(Nodes(m.body)), RemoveTag(m.trailer.fields, CHECK_SUM) + c, sep);
    SeparableConcat(HeaderRest(m), FlatNodes(Nodes(m.body)) + (RemoveTag(m.trailer.fields, CHECK_SUM) + c), sep);
    SeparableConcat(LeadFields(m), Tail(m, sep), sep);
  }

  lemma {:induction false} LeadSeparable(b: MessageBuilder, m: Parts)
    requires WellFormedBuilder(b) && Sendable(b, m)
    ensures var h := Prepared(m).header.fields; HasTag(h, BEGIN_STRING) && HasTag(h, BODY_LENGTH) && HasTag(h, MSG_TYPE)
    ensures AllSeparable(LeadFields(m), b.config.separator) && AllSeparable(HeaderRest(m), b.config.separator)
  {
    var sep := b.config.separator;
    PreparedHeader(b, m);
    PreparedParts(m);
    var f8, f9, f35 := FieldOf(m.header.fields, BEGIN_STRING), Field(BODY_LENGTH, Print(BodyLength(Prepared(m)))),
      FieldOf(m.header.fields, MSG_TYPE);
    assert LeadFields(m) == [f8, f9, f35];
    assert Separable(f9, sep);
    assert AllSeparable(Unpicked(m.header.fields, [BODY_LENGTH]), sep);
    hide *;
    ListSeparable(m.header.fields, HeaderRest(m), sep);
    HeaderSeparable(m.header.fields, f8, sep);
    HeaderSeparable(m.header.fields, f35, sep);
    ThreeSeparable(f8, f9, f35, sep);
  }

  lemma ThreeSeparable(f: Field, g: Field, h: Field, sep: byte)
    requires Separable(f, sep) && Separable(g, sep) && Separable(h, sep)
    ensures AllSeparable([f, g, h], sep)
  {}

  lemma ListSeparable(fields: seq<Field>, list: seq<Field>, sep: byte)
    requires AllSeparable(Unpicked(fields, [BODY_LENGTH]), sep)
    requires forall f :: f in list ==> f in fields && f.tag != BODY_LENGTH
    ensures AllSeparable(list, sep)
  {
    hide Unpicked;
    forall i | 0 <= i < |list| ensures Separable(list[i], sep) {
      HeaderSeparable(fields, list[i], sep);
    }
  }

  lemma {:induction false} HeaderSeparable(fields: seq<Field>, f: Field, sep: byte)
    requires AllSeparable(Unpicked(fields, [BODY_LENGTH]), sep)
    requires f in fields && f.tag != BODY_LENGTH
    ensures Separable(f, sep)
  {
    var front, last := fields[..|fields| - 1], fields[|fields| - 1];
    var all, before := Unpicked(fields, [BODY_LENGTH]), Unpicked(front, [BODY_LENGTH]);
    if last == f {
      assert all[|before|] == f;
    } else {
      assert forall i :: 0 <= i < |before| ==> before[i] == all[i];
      HeaderSeparable(front, f, sep);
    }
  }

  // ----- integrity -----

  /** A rendered field list with the right tags and length passes the integrity check unless
      its checksum consists of three digits and is wrong: anything else in that place is not
      looked at. */
  lemma {:induction false} IntegrityRendered(fields: seq<Field>, sep: byte, n: nat)
    requires |fields| >= 4 && AllSeparable(fields, sep)
    requires fields[0].tag == BEGIN_STRING && fields[1].tag == BODY_LENGTH && fields[2].tag == MSG_TYPE
    requires fields[|fields| - 1].tag == CHECK_SUM && fields[|fields| - 1].Length() == CHECKSUM_LENGTH
    requires ParseUnsigned(fields[1].data, U64_LIMIT) == Some(n)
    requires |Render(fields, sep)| == |Render(fields[..2], sep)| + n + CHECKSUM_LENGTH
    ensures var last := fields[|fields| - 1];
            Integrity(Render(fields, sep), sep)
            == if AllDigits(last.data)
              && ParseCheckSum(last.data) != Some(ByteSum(Render(fields[..|fields| - 1], sep)) % 256) then
              Err(InvalidChecksum)
            else
              Ok(Envelope(fields[0], fields[1], fields[2], last, |Render(fields[..3], sep)|))
  {
    hide *;
    var raw, k := Render(fields, sep), |fields| - 1;
    var r2, r3, rk := |Render(fields[..2], sep)|, |Render(fields[..3], sep)|, |Render(fields[..k], sep)|;
    CheckSumWidth(fields[k]);
    assert fields[..0] == [] && fields[..k + 1] == fields;
    SeparableAt(fields, sep);
    FieldAtBoundary(fields, 0, sep);
    FieldAtBoundary(fields, 1, sep);
    FieldAtBoundary(fields, 2, sep);
    FieldAtBoundary(fields, k, sep);
    RenderNothing(sep);
    RenderSplit(fields, k, sep);
    assert raw[..rk] == Render(fields[..k], sep);
    IntegrityFrom(raw, sep, fields[0], |Render(fields[..1], sep)| - 1, fields[1], r2 - 1, n);
    EnvelopeOf(raw, sep, fields[0], fields[1], fields[2], fields[k], r2, rk, r3 - 1);
  }

  lemma RenderNothing(sep: byte)
    ensures Render([], sep) == []
  {}

  lemma SeparableAt(fields: seq<Field>, sep: byte)
    requires AllSeparable(fields, sep)
    ensures forall i :: 0 <= i < |fields| ==> Separable(fields[i], sep)
  {}

  lemma CheckSumWidth(f: Field)
    requires f.tag == CHECK_SUM && f.Length() == CHECKSUM_LENGTH
    ensures |f.data| == 3 && (ParseCheckSum(f.data).Some? <==> AllDigits(f.data))
  {
    hide Horner;
    assert |Print(10)| == 2 by {
      assert Print(10) == Print(1) + [48];
    }
  }

  lemma EnvelopeOf(raw: seq<byte>, sep: byte, f8: Field, f9: Field, f35: Field, f10: Field, start: nat, end: nat,
                   end35: nat)
    requires start <= end <= |raw| && f35.tag == MSG_TYPE && f10.tag == CHECK_SUM
    requires FieldAt(raw, sep, start) == Some((f35, end35)) && FieldAt(raw, sep, end).Some?
             && FieldAt(raw, sep, end).value.0 == f10
    ensures EnvelopeAt(raw, sep, f8, f9, start, end)
            == if ParseCheckSum(f10.data).Some?
              && ParseCheckSum(f10.data) != Some(ByteSum(raw[..end]) % 256) then Err(InvalidChecksum)
            else Ok(Envelope(f8, f9, f35, f10, end35 + 1))
  {
    hide FieldAt, ByteSum, ParseCheckSum;
  }

  /** What the integrity check looks at in an encoded message. */
  lemma {:induction false} EncodedEnvelope(b: MessageBuilder, m: Parts)
    requires WellFormedBuilder(b) && Sendable(b, m)
    ensures var h := Prepared(m).header.fields;
            HasTag(h, BEGIN_STRING) && HasTag(h, BODY_LENGTH) && HasTag(h, MSG_TYPE)
    ensures var sep, n := b.config.separator, BodyLength(Prepared(m));
            var fields, lead := EncodedFields(m, sep), LeadFields(m);
            var k := |fields| - 1;
            && |fields| >= 4 && AllSeparable(fields, sep) && fields[..3] == lead
            && fields[0] == lead[0] && fields[1] == lead[1] && fields[2] == lead[2]
            && lead[0].tag == BEGIN_STRING && lead[1].tag == BODY_LENGTH && lead[2].tag == MSG_TYPE
            && fields[k] == CheckSumField(Front(m, sep)) && Render(fields[..k], sep) == Front(m, sep)
            && ParseUnsigned(fields[1].data, U64_LIMIT) == Some(n)
            && |Render(fields, sep)| == |Render(fields[..2], sep)| + n + CHECKSUM_LENGTH
            && Encoded(m, sep) == Render(fields, sep)
  {
    var sep := b.config.separator;
    EncodedForm(b, m);
    EncodedSeparable(b, m);
    PreparedHeader(b, m);
    assert BodyLength(Prepared(m)) < U64_LIMIT;
    SendableNoOrphans(b, m);
    SendableValid(b, m);
    EncodedFront(m, sep);
    hide *;
    LengthOfEncoded(m, sep);
    LeadShape(m, sep);
    ParsePrinted(BodyLength(Prepared(m)), 0, U64_LIMIT);
  }

  lemma {:induction false} IntegrityEncoded(b: MessageBuilder, m: Parts)
    requires WellFormedBuilder(b) && Sendable(b, m)
    ensures var h := Prepared(m).header.fields;
            HasTag(h, BEGIN_STRING) && HasTag(h, BODY_LENGTH) && HasTag(h, MSG_TYPE)
    ensures var sep := b.config.separator;
            var lead := LeadFields(m);
            Integrity(Encoded(m, sep), sep)
            == Ok(Envelope(lead[0], lead[1], lead[2], CheckSumField(Front(m, sep)), |Render(lead, sep)|))
  {
    hide *;
    EncodedEnvelope(b, m);
    CheckSumFacts(Front(m, b.config.separator), b.config.separator);
    IntegrityRendered(EncodedFields(m, b.config.separator), b.config.separator, BodyLength(Prepared(m)));
  }

  lemma CheckSumFacts(front: seq<byte>, sep: byte)
    ensures var f := CheckSumField(front);
            && f.tag == CHECK_SUM && f.Length() == CHECKSUM_LENGTH && AllDigits(f.data)
            && ParseCheckSum(f.data) == Some(ByteSum(front) % 256)
  {
    hide ByteSum;
    CheckSumPrinted(ByteSum(front) % 256);
    CheckSumBytes(PrintPadded(ByteSum(front) % 256, 3), sep);
    assert |RenderField(CheckSumField(front), sep)| == 7;
  }

  ghost predicate NoOrphans(m: Parts) {
    Orphans(Prepared(m)) == 0
  }

  lemma SendableNoOrphans(b: MessageBuilder, m: Parts)
    requires WellFormedBuilder(b) && Describable(b, m)
    ensures NoOrphans(m)
  {
    hide BodyLength, BodyConforms, Labelled, AllSeparable, FlatNodes, Nodes;
    assert MapOrphans(m.body) == 0;
    assert RunsOrphans([], Prepared(m).header.fields) == 0;
    assert RunsOrphans([], Prepared(m).trailer.fields) == 0;
  }

  lemma SendableValid(b: MessageBuilder, m: Parts)
    requires WellFormedBuilder(b) && Describable(b, m)
    ensures ValidParts(m) && HeaderLeads(m.header)
  {}

  lemma EncodedFront(m: Parts, sep: byte)
    ensures EncodedFields(m, sep) != []
    ensures var fields := EncodedFields(m, sep); var k := |fields| - 1;
            && fields[k] == CheckSumField(Front(m, sep))
            && Render(fields[..k], sep) == Front(m, sep)
            && Encoded(m, sep) == Render(fields, sep)
  {
    var fields := EncodedFields(m, sep);
    assert fields[..|fields| - 1] == PartsFields(Prepared(m));
  }

  /** Length of the whole message: up to field 9, the announced body, seven bytes of checksum. */
  lemma {:induction false} LengthOfEncoded(m: Parts, sep: byte)
    requires ValidParts(m) && HeaderLeads(m.header) && NoOrphans(m)
    ensures HasTag(Prepared(m).header.fields, BODY_LENGTH)
    ensures var p := Prepared(m);
            |Encoded(m, sep)| == FieldOf(m.header.fields, BEGIN_STRING).Length()
                                 + Field(BODY_LENGTH, Print(BodyLength(p))).Length() + BodyLength(p) + CHECKSUM_LENGTH
  {
    assert Orphans(Prepared(m)) == 0;
    hide *;
    var middle := BodyLengthExact(m, sep);
    CheckSumExact(m, sep);
    assert |RenderField(FieldOf(m.header.fields, BEGIN_STRING), sep)|
      == FieldOf(m.header.fields, BEGIN_STRING).Length();
  }

  lemma {:induction false} LeadShape(m: Parts, sep: byte)
    requires var h := Prepared(m).header.fields;
             HasTag(h, BEGIN_STRING) && HasTag(h, BODY_LENGTH) && HasTag(h, MSG_TYPE)
    requires ValidParts(m) && HeaderLeads(m.header)
    requires EncodedFields(m, sep) == LeadFields(m) + Tail(m, sep)
    ensures var fields := EncodedFields(m, sep); var lead := LeadFields(m);
            && |fields| >= 4 && fields[..3] == lead
            && fields[0] == lead[0] && fields[1] == lead[1] && fields[2] == lead[2]
            && lead[0].tag == BEGIN_STRING && lead[1].tag == BODY_LENGTH && lead[2].tag == MSG_TYPE
            && lead[0] == FieldOf(m.header.fields, BEGIN_STRING)
            && lead[1] == Field(BODY_LENGTH, Print(BodyLength(Prepared(m))))
            && |Render(fields[..2], sep)| == lead[0].Length() + lead[1].Length()
  {
    PreparedParts(m);
    var fields, lead := EncodedFields(m, sep), LeadFields(m);
    assert |Tail(m, sep)| >= 1;
    hide EncodedFields, Tail, LeadFields, BodyLength, Prepared;
    assert fields[..3] == lead;
    assert fields[..2] == [lead[0]] + [lead[1]];
    RenderConcat([lead[0]], [lead[1]], sep);
    RenderSingle(lead[0], sep);
    RenderSingle(lead[1], sep);
  }

  // ----- header, body and trailer -----

  lemma {:induction false} HeaderSpanExact(b: MessageBuilder, head: seq<Field>, rest: seq<Field>)
    requires forall i :: 0 <= i < |head| ==> head[i].tag in b.headerTags
    requires rest != [] && rest[0].tag !in b.headerTags
    ensures HeaderSpan(b, head + rest) == |head|
  {
    assert forall i :: 0 <= i < |head| ==> (head + rest)[i] == head[i];
    assert (head + rest)[|head|] == rest[0];
  }

  lemma {:induction false} TrailerSpanExact(trailer: seq<Field>, f10: Field)
    requires !HasTag(trailer, CHECK_SUM) && f10.tag == CHECK_SUM
    ensures TrailerSpan(trailer + [f10]) == |trailer|
  {
    var toks := trailer + [f10];
    assert forall i :: 0 <= i < |trailer| ==> toks[i] == trailer[i];
    assert toks[|trailer|] == f10;
  }

  /** Header fields, a conforming body and a trailer are told apart again. */
  lemma {:induction false} BuildFieldsExact(b: MessageBuilder, env: Envelope, head: seq<Field>, l: Layout,
                                            nodes: seq<Node>, trailer: seq<Field>)
    requires WellFormedBuilder(b)
    requires env.beginString.tag == BEGIN_STRING && env.bodyLength.tag == BODY_LENGTH
    requires env.msgType.tag == MSG_TYPE && env.checkSum.tag == CHECK_SUM
    requires UniqueTags([env.beginString, env.bodyLength, env.msgType] + head)
    requires forall i :: 0 <= i < |head| ==> head[i].tag in b.headerTags
    requires env.msgType.data in b.messages && l == b.messages[env.msgType.data]
    requires BodyConforms(b, l, nodes, BodyFollow(trailer))
    requires (if nodes == [] then BodyFollow(trailer) else nodes[0].field.tag) !in b.headerTags
    requires UniqueTags(trailer) && !HasTag(trailer, CHECK_SUM)
    ensures BuildFields(b, env, head + (FlatNodes(nodes) + (trailer + [env.checkSum])))
            == ParsedMessage.Valid(Parts(FieldMap([env.beginString, env.bodyLength, env.msgType] + head, []),
                                         BuildMap(l, nodes), FieldMap([env.checkSum] + trailer, [])))
  {
    hide BodyConforms, BuildMap, ParseBody, FlatNodes, InsertAll;
    var rest := trailer + [env.checkSum];
    var body := FlatNodes(nodes) + rest;
    var toks := head + body;
    FlatFirst(nodes, rest);
    assert rest[0].tag == BodyFollow(trailer);
    HeaderSpanExact(b, head, body);
    assert toks[..|head|] == head && toks[|head|..] == body;
    HeaderExact(b, env, head, toks);
    BodyComplete(b, l, [], nodes, rest);
    assert [] + nodes == nodes;
    TrailerSpanExact(trailer, env.checkSum);
    assert rest[..|trailer|] == trailer;
    assert UniqueTags([env.checkSum] + trailer);
    InsertAllDistinct([env.checkSum], trailer);
  }

  lemma FlatFirst(nodes: seq<Node>, rest: seq<Field>)
    requires rest != []
    ensures (FlatNodes(nodes) + rest)[0].tag == if nodes == [] then rest[0].tag else nodes[0].field.tag
  {}

  lemma {:induction false} HeaderExact(b: MessageBuilder, env: Envelope, head: seq<Field>, toks: seq<Field>)
    requires env.beginString.tag == BEGIN_STRING && env.bodyLength.tag == BODY_LENGTH && env.msgType.tag == MSG_TYPE
    requires var lead := [env.beginString, env.bodyLength, env.msgType];
             UniqueTags(lead + head) && HeaderSpan(b, toks) == |head| && toks[..|head|] == head
    ensures var fields := HeaderFields(b, env, toks);
            && fields == [env.beginString, env.bodyLength, env.msgType] + head
            && GetRaw(fields, MSG_TYPE) == Some(env.msgType.data)
  {
    var lead := [env.beginString, env.bodyLength, env.msgType];
    InsertAllDistinct(lead, head);
    var one: seq<Field> := [env.beginString];
    assert InsertField([], env.beginString) == one;
    assert InsertField(one, env.bodyLength) == one + [env.bodyLength];
    assert InsertField(one + [env.bodyLength], env.msgType) == lead;
    assert (lead + head)[2] == env.msgType;
  }

  // ----- the round trip -----

  /** The message as a reader sees it: header and trailer in wire order, groups aligned. */
  function AsRead(m: Parts, sep: byte): Parts {
    var after := AfterEncode(m, sep);
    Parts(Arranged(after.header, LEADING), Aligned(after.body), Arranged(after.trailer, [CHECK_SUM]))
  }

  /** Encoding any sendable message, groups nested to any depth, and building the bytes gives
      the message back. */
  lemma {:induction false} EncodeThenBuild(b: MessageBuilder, m: Parts)
    requires WellFormedBuilder(b) && Sendable(b, m)
    ensures Build(b, Encoded(m, b.config.separator)) == ParsedMessage.Valid(AsRead(m, b.config.separator))
  {
    var sep := b.config.separator;
    var l := b.messages[FieldOf(m.header.fields, MSG_TYPE).data];
    assert WellFormed(l);
    IntegrityEncoded(b, m);
    EncodedForm(b, m);
    EncodedSeparable(b, m);
    PreparedHeader(b, m);
    FieldsOfHeader(Prepared(m).header);
    LeadShapeOf(b, m);
    BodyShape(b, m, l);
    TrailerShape(m, sep);
    assert UniqueTags(LeadFields(m) + HeaderRest(m));
    assert Arranged(AfterEncode(m, sep).header, LEADING) == FieldMap(LeadFields(m) + HeaderRest(m), []);
    hide *;
    var lead, c, trailer := LeadFields(m), CheckSumField(Front(m, sep)), RemoveTag(m.trailer.fields, CHECK_SUM);
    var env := Envelope(lead[0], lead[1], lead[2], c, |Render(lead, sep)|);
    TokensOfTail(m, sep);
    BuildFromIntegrity(b, Encoded(m, sep), env);
    TailForm(m, sep);
    assert lead == [lead[0], lead[1], lead[2]];
    BuildFieldsExact(b, env, HeaderRest(m), l, Nodes(m.body), trailer);
    BuildAligned(l, m.body);
    AsReadForm(m, sep);
  }

  lemma AsReadForm(m: Parts, sep: byte)
    ensures AsRead(m, sep) == Parts(Arranged(AfterEncode(m, sep).header, LEADING), Aligned(m.body),
            Arranged(AfterEncode(m, sep).trailer, [CHECK_SUM]))
  {}

  lemma BuildFromIntegrity(b: MessageBuilder, raw: seq<byte>, env: Envelope)
    requires WellFormedBuilder(b) && Integrity(raw, b.config.separator) == Ok(env)
    ensures env.position <= |raw| && env.msgType.tag == MSG_TYPE
    ensures Build(b, raw) == BuildFields(b, env, Tokens(raw, b.config.separator, env.position))
  {}

  lemma LeadShapeOf(b: MessageBuilder, m: Parts)
    requires WellFormedBuilder(b) && Sendable(b, m)
    requires var h := Prepared(m).header.fields;
             HasTag(h, BEGIN_STRING) && HasTag(h, BODY_LENGTH) && HasTag(h, MSG_TYPE)
    ensures var lead := LeadFields(m);
            && lead[0].tag == BEGIN_STRING && lead[1].tag == BODY_LENGTH && lead[2].tag == MSG_TYPE
            && lead[2] == FieldOf(m.header.fields, MSG_TYPE)
            && |lead| == 3
    ensures forall i :: 0 <= i < |HeaderRest(m)| ==> HeaderRest(m)[i].tag in b.headerTags
    ensures LeadFields(m)[2].data in b.messages
  {
    PreparedHeader(b, m);
    hide BodyLength, SendableBody, AllSeparable, Unpicked;
    forall i | 0 <= i < |HeaderRest(m)| ensures HeaderRest(m)[i].tag in b.headerTags {
      assert HeaderRest(m)[i] in HeaderRest(m);
    }
  }

  lemma TokensOfTail(m: Parts, sep: byte)
    requires var h := Prepared(m).header.fields;
             HasTag(h, BEGIN_STRING) && HasTag(h, BODY_LENGTH) && HasTag(h, MSG_TYPE)
    requires EncodedFields(m, sep) == LeadFields(m) + Tail(m, sep) && AllSeparable(EncodedFields(m, sep), sep)
             && |LeadFields(m)| == 3
    ensures |Render(LeadFields(m), sep)| <= |Encoded(m, sep)|
    ensures Tokens(Encoded(m, sep), sep, |Render(LeadFields(m), sep)|) == Tail(m, sep)
  {
    var fields := EncodedFields(m, sep);
    assert Encoded(m, sep) == Render(fields, sep);
    hide EncodedFields, Tail, LeadFields, Encoded, Tokens, Render;
    assert fields[..3] == LeadFields(m) && fields[3..] == Tail(m, sep);
    TokensAtBoundary(fields, 3, sep);
  }

  lemma BodyShape(b: MessageBuilder, m: Parts, l: Layout)
    requires WellFormedBuilder(b) && Sendable(b, m) && l == b.messages[FieldOf(m.header.fields, MSG_TYPE).data]
    ensures WellFormed(l) && Fields.Valid(m.body) && Labelled(l, m.body)
    ensures var trailer := RemoveTag(m.trailer.fields, CHECK_SUM);
            && BodyConforms(b, l, Nodes(m.body), BodyFollow(trailer))
            && (if Nodes(m.body) == [] then BodyFollow(trailer) else Nodes(m.body)[0].field.tag) !in b.headerTags
  {
    hide BodyConforms, Labelled, Fields.Valid, FlatNodes, BodyLength;
  }

  lemma {:induction false} TrailerShape(m: Parts, sep: byte)
    requires Fields.Valid(m.trailer) && m.trailer.groups == []
    ensures var trailer, c := RemoveTag(m.trailer.fields, CHECK_SUM), CheckSumField(Front(m, sep));
            && UniqueTags(trailer) && !HasTag(trailer, CHECK_SUM) && c.tag == CHECK_SUM
            && Arranged(AfterEncode(m, sep).trailer, [CHECK_SUM]) == FieldMap([c] + trailer, [])
  {
    hide Front, BodyLength, Fields.RemoveTag, InsertField, Picked, Unpicked;
    UniqueOf(m.trailer);
    RemovedTag(m.trailer.fields, CHECK_SUM);
    CheckSumMoves(RemoveTag(m.trailer.fields, CHECK_SUM), CheckSumField(Front(m, sep)));
  }

  /** Set last, the checksum is the field a reader stores first. */
  lemma {:induction false} CheckSumMoves(trailer: seq<Field>, c: Field)
    requires UniqueTags(trailer) && !HasTag(trailer, CHECK_SUM) && c.tag == CHECK_SUM
    ensures InsertField(trailer, c) == trailer + [c]
    ensures Picked(trailer + [c], [CHECK_SUM]) + Unpicked(trailer + [c], [CHECK_SUM]) == [c] + trailer
  {
    hide Picked, Unpicked;
    LastMoves(trailer, c, CHECK_SUM);
  }

  lemma {:induction false} LastMoves(fields: seq<Field>, f: Field, t: Tag)
    requires UniqueTags(fields) && !HasTag(fields, t) && f.tag == t
    ensures Picked(fields + [f], [t]) + Unpicked(fields + [f], [t]) == [f] + fields
  {
    hide Picked, Unpicked;
    PickedLast(fields, f, t);
    UnpickedLast(fields, f, t);
  }

  lemma {:induction false} PickedLast(fields: seq<Field>, f: Field, t: Tag)
    requires UniqueTags(fields) && !HasTag(fields, t) && f.tag == t
    ensures Picked(fields + [f], [t]) == [f]
  {
    var all, pre := fields + [f], [t];
    assert UniqueTags(all);
    HasTagSnoc(fields, f, t);
    assert pre[..0] == [];
  }

  lemma {:induction false} UnpickedLast(fields: seq<Field>, f: Field, t: Tag)
    requires !HasTag(fields, t) && f.tag == t
    ensures Unpicked(fields + [f], [t]) == fields
  {
    assert (fields + [f])[..|fields|] == fields;
    UnpickedAbsent(fields, [t]);
  }
}
