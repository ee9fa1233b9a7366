/** BodyLength and CheckSum of an encoded message. */
module BodyLengths {
  import opened Decimal
  import opened Fields
  import opened Wire
  import opened Encoder
  import opened Lengths
  import opened Messages

  predicate Distinct(tags: seq<Tag>) {
    forall i, j :: 0 <= i < j < |tags| ==> tags[i] != tags[j]
  }

  // ----- leading fields do not change the length -----

  lemma {:induction false} FieldsWrittenConcat(a: seq<Field>, b: seq<Field>, runs: seq<Run>)
    ensures FieldsWritten(a + b, runs) == FieldsWritten(a, runs) + FieldsWritten(b, runs)
  {
    hide EntriesWritten, EntriesOf;
    if a == [] {
      assert a + b == b;
    } else {
      var ab := a + b;
      assert ab[0] == a[0] && ab[1..] == a[1..] + b;
      FieldsWrittenConcat(a[1..], b, runs);
    }
  }

  function FieldWritten(f: Field, runs: seq<Run>): nat {
    FieldsWritten([f], runs)
  }

  lemma {:induction false} HasTagSnoc(fields: seq<Field>, f: Field, t: Tag)
    requires UniqueTags(fields + [f])
    ensures HasTag(fields + [f], t) <==> HasTag(fields, t) || f.tag == t
    ensures f.tag == t ==> !HasTag(fields, t) && (fields + [f])[IndexOf(fields + [f], t)] == f
    ensures HasTag(fields, t) ==> (fields + [f])[IndexOf(fields + [f], t)] == fields[IndexOf(fields, t)]
  {
    var all := fields + [f];
    assert all[|fields|] == f;
    if HasTag(fields, t) {
      assert all[IndexOf(fields, t)].tag == t;
    }
    if HasTag(all, t) {
      var k := IndexOf(all, t);
      assert k < |fields| ==> fields[k] == all[k];
    }
  }

  /** Naming one more tag moves exactly its field from the rest to the front. */
  lemma {:induction false} UnpickOne(fields: seq<Field>, pre: seq<Tag>, t: Tag, runs: seq<Run>)
    requires UniqueTags(fields) && t !in pre
    ensures FieldsWritten(Unpicked(fields, pre), runs) == FieldsWritten(Unpicked(fields, pre + [t]), runs)
            + if HasTag(fields, t) then FieldWritten(fields[IndexOf(fields, t)], runs) else 0
  {
    hide FieldsWritten, EntriesWritten;
    if fields != [] {
      var front, f := fields[..|fields| - 1], fields[|fields| - 1];
      assert fields == front + [f];
      UnpickOne(front, pre, t, runs);
      HasTagSnoc(front, f, t);
      FieldsWrittenConcat(Unpicked(front, pre), [f], runs);
      FieldsWrittenConcat(Unpicked(front, pre + [t]), [f], runs);
      if f.tag in pre || f.tag == t {
        assert f.tag in pre + [t];
        assert Unpicked(front, pre + [t]) + [] == Unpicked(front, pre + [t]);
        assert Unpicked(front, pre) + [] == Unpicked(front, pre);
      }
    }
  }

  lemma {:induction false} ArrangedWritten(fields: seq<Field>, pre: seq<Tag>, runs: seq<Run>)
    requires UniqueTags(fields) && Distinct(pre)
    ensures FieldsWritten(Picked(fields, pre) + Unpicked(fields, pre), runs) == FieldsWritten(fields, runs)
    decreases |pre|
  {
    hide FieldsWritten;
    if pre == [] {
      UnpickedAll(fields);
      assert Picked(fields, pre) + Unpicked(fields, pre) == fields;
    } else {
      var front, t := pre[..|pre| - 1], pre[|pre| - 1];
      assert pre == front + [t];
      ArrangedWritten(fields, front, runs);
      UnpickOne(fields, front, t, runs);
      FieldsWrittenConcat(Picked(fields, front), Unpicked(fields, front), runs);
      FieldsWrittenConcat(Picked(fields, pre), Unpicked(fields, pre), runs);
      if HasTag(fields, t) {
        FieldsWrittenConcat(Picked(fields, front), [fields[IndexOf(fields, t)]], runs);
      } else {
        assert Picked(fields, pre) == Picked(fields, front);
      }
    }
  }

  /** Whichever fields are written first, the written length is the computed one, short of
      the groups that are never written. */
  lemma {:induction false} WrittenLength(fm: FieldMap, pre: seq<Tag>)
    requires Valid(fm) && Distinct(pre)
    ensures TotalLength(Written(fm, pre)) + MapOrphans(fm) == MapLength(fm, [])
  {
    assert UniqueTags(fm.fields);
    hide *;
    LengthConserved(fm);
    ArrangedWritten(fm.fields, pre, fm.groups);
    FieldsWrittenCorrect(fm.fields, fm.groups);
    FieldsWrittenCorrect(Picked(fm.fields, pre) + Unpicked(fm.fields, pre), fm.groups);
    WrittenForm(fm, pre);
    assert FieldMap(fm.fields, fm.groups) == fm;
  }

  lemma WrittenForm(fm: FieldMap, pre: seq<Tag>)
    ensures Written(fm, pre) == FlatNodes(Nodes(FieldMap(Picked(fm.fields, pre) + Unpicked(fm.fields, pre), fm.groups)))
  {}

  // ----- skipped fields -----

  lemma {:induction false} FieldsLengthSnoc(fields: seq<Field>, f: Field, skip: seq<Tag>)
    ensures FieldsLength(fields + [f], skip) == FieldsLength(fields, skip) + if f.tag in skip then 0 else f.Length()
  {
    var all := fields + [f];
    if fields == [] {
      assert all[1..] == [];
    } else {
      assert all[0] == fields[0] && all[1..] == fields[1..] + [f];
      FieldsLengthSnoc(fields[1..], f, skip);
    }
  }

  /** Skipping fields in the computation is leaving them out. */
  lemma {:induction false} SkippedLength(fields: seq<Field>, skip: seq<Tag>)
    ensures FieldsLength(fields, skip) == TotalLength(Unpicked(fields, skip))
  {
    if fields != [] {
      var front, f := fields[..|fields| - 1], fields[|fields| - 1];
      assert fields == front + [f];
      SkippedLength(front, skip);
      FieldsLengthSnoc(front, f, skip);
      TotalConcat(Unpicked(front, skip), [f]);
      TotalConcat(Unpicked(front, skip), []);
      assert TotalLength([f]) == f.Length();
    }
  }

  lemma {:induction false} TotalSplit(fields: seq<Field>, pre: seq<Tag>)
    requires UniqueTags(fields) && Distinct(pre)
    ensures TotalLength(fields) == TotalLength(Picked(fields, pre)) + TotalLength(Unpicked(fields, pre))
  {
    hide *;
    ArrangedWritten(fields, pre, []);
    var split := Picked(fields, pre) + Unpicked(fields, pre);
    LookupSplit(fields, []);
    LookupSplit(split, []);
    NothingToLookUp(fields);
    NothingToLookUp(split);
    TotalConcat(Picked(fields, pre), Unpicked(fields, pre));
  }

  lemma {:induction false} UnpickedUpdate(fields: seq<Field>, k: nat, f: Field, pre: seq<Tag>)
    requires k < |fields| && fields[k].tag == f.tag && f.tag in pre
    ensures Unpicked(fields[k := f], pre) == Unpicked(fields, pre)
  {
    var front, last := fields[..|fields| - 1], fields[|fields| - 1];
    var changed := fields[k := f];
    if k < |front| {
      assert changed[..|fields| - 1] == front[k := f];
      UnpickedUpdate(front, k, f, pre);
    } else {
      assert changed[..|fields| - 1] == front;
    }
  }

  lemma {:induction false} UnpickedInsert(fields: seq<Field>, f: Field, pre: seq<Tag>)
    requires f.tag in pre
    ensures Unpicked(InsertField(fields, f), pre) == Unpicked(fields, pre)
  {
    if HasTag(fields, f.tag) {
      UnpickedUpdate(fields, IndexOf(fields, f.tag), f, pre);
    } else {
      assert (fields + [f])[..|fields|] == fields;
    }
  }

  /** The header length does not depend on the BodyLength field, present or not. */
  lemma SetBodyLength(header: FieldMap, f: Field)
    requires f.tag == BODY_LENGTH
    ensures MapLength(SetField(header, f), [BEGIN_STRING, BODY_LENGTH])
            == MapLength(header, [BEGIN_STRING, BODY_LENGTH])
  {
    hide FieldsLength, Unpicked, RunsLength, InsertField;
    var skip: seq<Tag> := [BEGIN_STRING, BODY_LENGTH];
    UnpickedInsert(header.fields, f, skip);
    SkippedLength(header.fields, skip);
    SkippedLength(InsertField(header.fields, f), skip);
  }

  lemma {:induction false} UnpickedAbsent(fields: seq<Field>, pre: seq<Tag>)
    requires forall i :: 0 <= i < |fields| ==> fields[i].tag !in pre
    ensures Unpicked(fields, pre) == fields
  {
    if fields != [] {
      UnpickedAbsent(fields[..|fields| - 1], pre);
    }
  }

  lemma TrailerLength(trailer: FieldMap)
    requires !HasTag(trailer.fields, CHECK_SUM)
    ensures MapLength(trailer, [CHECK_SUM]) == MapLength(trailer, [])
  {
    hide FieldsLength, RunsLength;
    SkippedLength(trailer.fields, [CHECK_SUM]);
    SkippedLength(trailer.fields, []);
    UnpickedAbsent(trailer.fields, [CHECK_SUM]);
    UnpickedAll(trailer.fields);
  }

  // ----- the encoded message -----

  ghost predicate ValidParts(m: Parts) {
    Valid(m.header) && Valid(m.body) && Valid(m.trailer)
  }

  /** Field 8 is there, and nothing is written between fields 8 and 9 or right after 9. */
  predicate HeaderLeads(header: FieldMap) {
    HasTag(header.fields, BEGIN_STRING) && !HasRun(header.groups, BEGIN_STRING) && !HasRun(header.groups, BODY_LENGTH)
  }

  function FieldOf(fields: seq<Field>, tag: Tag): Field
    requires HasTag(fields, tag)
  {
    fields[IndexOf(fields, tag)]
  }

  lemma PickedTwo(fields: seq<Field>)
    requires HasTag(fields, BEGIN_STRING) && HasTag(fields, BODY_LENGTH)
    ensures var two := [FieldOf(fields, BEGIN_STRING), FieldOf(fields, BODY_LENGTH)];
            Picked(fields, LEADING[..2]) == two
            && Picked(fields, LEADING) == two + if HasTag(fields, MSG_TYPE) then [FieldOf(fields, MSG_TYPE)] else []
  {
    assert LEADING[..2][..1] == [BEGIN_STRING] && LEADING[..2] == [BEGIN_STRING, BODY_LENGTH];
    assert Picked(fields, LEADING[..2][..1]) == [FieldOf(fields, BEGIN_STRING)];
  }

  /** Fields 8 and 9 come first; `rest` is what the header writes after them. */
  lemma {:induction false} HeaderWritten(header: FieldMap) returns (rest: seq<Field>)
    requires HeaderLeads(header) && HasTag(header.fields, BODY_LENGTH)
    ensures Written(header, LEADING)
            == [FieldOf(header.fields, BEGIN_STRING), FieldOf(header.fields, BODY_LENGTH)] + rest
  {
    var nodes := Nodes(Arranged(header, LEADING));
    PickedTwo(header.fields);
    var f8, f9 := FieldOf(header.fields, BEGIN_STRING), FieldOf(header.fields, BODY_LENGTH);
    assert nodes[0] == Node(f8, []) && nodes[1] == Node(f9, []);
    rest := FlatNodes(nodes[2..]);
    FlatTwo(nodes);
  }

  lemma {:induction false} FlatTwo(nodes: seq<Node>)
    requires |nodes| >= 2 && nodes[0].entries == [] && nodes[1].entries == []
    ensures FlatNodes(nodes) == [nodes[0].field, nodes[1].field] + FlatNodes(nodes[2..])
  {
    assert nodes[1..][1..] == nodes[2..];
    FlatHead(nodes);
    FlatHead(nodes[1..]);
  }

  /** Both of fields 8 and 9, and only they, are left out of the header's share. */
  lemma HeaderShare(header: FieldMap)
    requires Valid(header) && HasTag(header.fields, BEGIN_STRING) && HasTag(header.fields, BODY_LENGTH)
    ensures MapLength(header, []) == MapLength(header, [BEGIN_STRING, BODY_LENGTH])
            + FieldOf(header.fields, BEGIN_STRING).Length() + FieldOf(header.fields, BODY_LENGTH).Length()
  {
    var fields, skip := header.fields, LEADING[..2];
    var f8, f9 := FieldOf(fields, BEGIN_STRING), FieldOf(fields, BODY_LENGTH);
    assert skip == [BEGIN_STRING, BODY_LENGTH];
    PickedTwo(fields);
    TotalSplit(fields, skip);
    SkippedLength(fields, skip);
    NothingSkipped(fields);
    assert [f8, f9] == [f8] + [f9];
    TotalConcat([f8], [f9]);
  }

  /** Bytes counted in BodyLength that are never written. */
  function Orphans(p: Parts): nat {
    MapOrphans(p.header) + MapOrphans(p.body) + MapOrphans(p.trailer)
  }

  lemma PreparedParts(m: Parts)
    requires ValidParts(m) && HeaderLeads(m.header)
    ensures var p := Prepared(m);
            && ValidParts(p) && HeaderLeads(p.header)
            && HasTag(p.header.fields, BODY_LENGTH) && !HasTag(p.trailer.fields, CHECK_SUM)
            && FieldOf(p.header.fields, BODY_LENGTH) == Field(BODY_LENGTH, Print(BodyLength(p)))
            && FieldOf(p.header.fields, BEGIN_STRING) == FieldOf(m.header.fields, BEGIN_STRING)
  {
    hide MapLength, Print;
    var m' := m.(trailer := PopField(m.trailer, CHECK_SUM));
    var f := Field(BODY_LENGTH, Print(BodyLength(m')));
    InsertedField(m.header.fields, f);
    RemovedTag(m.trailer.fields, CHECK_SUM);
    SetBodyLength(m.header, f);
    var fields := Prepared(m).header.fields;
    assert GetRaw(fields, BODY_LENGTH) == Some(f.data)
      && GetRaw(fields, BEGIN_STRING) == GetRaw(m.header.fields, BEGIN_STRING);
  }

  /** BodyLength is exactly the number of bytes between the end of field 9 and the start of
      field 10, provided no group lacks its count field; otherwise it is too large by the
      size of those groups. */
  lemma {:induction false} BodyLengthExact(m: Parts, sep: byte) returns (middle: seq<byte>)
    requires ValidParts(m) && HeaderLeads(m.header)
    ensures HasTag(Prepared(m).header.fields, BODY_LENGTH)
    ensures var p := Prepared(m);
            && Encoded(m, sep) == RenderField(FieldOf(m.header.fields, BEGIN_STRING), sep)
                                  + RenderField(Field(BODY_LENGTH, Print(BodyLength(p))), sep) + middle
                                  + RenderField(CheckSumField(Front(m, sep)), sep)
            && |middle| + Orphans(p) == BodyLength(p)
            && (|middle| == BodyLength(p) <==> Orphans(p) == 0)
  {
    PreparedParts(m);
    var p := Prepared(m);
    var rest := HeaderWritten(p.header);
    var body, trailer := Written(p.body, []), Written(p.trailer, []);
    middle := Render(rest + body + trailer, sep);
    MiddleLength(p, rest, sep);
    var f8, f9 := FieldOf(p.header.fields, BEGIN_STRING), FieldOf(p.header.fields, BODY_LENGTH);
    SplitFront(f8, f9, rest, body, trailer, sep);
    EncodedSplit(m, sep);
  }

  lemma {:induction false} SplitFront(f8: Field, f9: Field, rest: seq<Field>, body: seq<Field>, trailer: seq<Field>,
                                      sep: byte)
    ensures Render([f8, f9] + rest + body + trailer, sep)
            == RenderField(f8, sep) + RenderField(f9, sep) + Render(rest + body + trailer, sep)
  {
    hide *;
    assert [f8, f9] + rest + body + trailer == [f8] + ([f9] + (rest + body + trailer));
    RenderConcat([f8], [f9] + (rest + body + trailer), sep);
    RenderConcat([f9], rest + body + trailer, sep);
    RenderSingle(f8, sep);
    RenderSingle(f9, sep);
    Associative(RenderField(f8, sep), RenderField(f9, sep), Render(rest + body + trailer, sep));
  }

  lemma {:induction false} MiddleLength(p: Parts, rest: seq<Field>, sep: byte)
    requires ValidParts(p) && HeaderLeads(p.header) && HasTag(p.header.fields, BODY_LENGTH)
    requires !HasTag(p.trailer.fields, CHECK_SUM)
    requires Written(p.header, LEADING)
             == [FieldOf(p.header.fields, BEGIN_STRING), FieldOf(p.header.fields, BODY_LENGTH)] + rest
    ensures |Render(rest + Written(p.body, []) + Written(p.trailer, []), sep)| + Orphans(p) == BodyLength(p)
  {
    assert Distinct(LEADING);
    hide Written, MapLength, MapOrphans, Valid, TotalLength, Render;
    var body, trailer := Written(p.body, []), Written(p.trailer, []);
    RenderLength(rest + body + trailer, sep);
    TotalConcat(rest + body, trailer);
    TotalConcat(rest, body);
    WrittenLength(p.header, LEADING);
    WrittenLength(p.body, []);
    WrittenLength(p.trailer, []);
    TrailerLength(p.trailer);
    HeaderShare(p.header);
    TotalTwo(FieldOf(p.header.fields, BEGIN_STRING), FieldOf(p.header.fields, BODY_LENGTH), rest);
  }

  lemma TotalTwo(f: Field, g: Field, rest: seq<Field>)
    ensures TotalLength([f, g] + rest) == f.Length() + g.Length() + TotalLength(rest)
  {
    assert [f, g] + rest == [f] + ([g] + rest);
    TotalConcat([f], [g] + rest);
    TotalConcat([g], rest);
  }

  /** The last field is the byte sum of everything before it, modulo 256, in three digits:
      seven bytes that read back to that sum. */
  lemma CheckSumExact(m: Parts, sep: byte)
    ensures var f := CheckSumField(Front(m, sep));
            && Encoded(m, sep) == Front(m, sep) + RenderField(f, sep)
            && |RenderField(f, sep)| == 7
            && ParseCheckSum(f.data) == Some(ByteSum(Front(m, sep)) % 256)
  {
    hide Front, ByteSum;
    EncodedSplit(m, sep);
    CheckSumPrinted(ByteSum(Front(m, sep)) % 256);
    CheckSumBytes(PrintPadded(ByteSum(Front(m, sep)) % 256, 3), sep);
  }
}
