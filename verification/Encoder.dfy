/** Writing a field map, and the length that is computed for it before it is written. */
module Encoder {
  import opened Decimal
  import opened Fields
  import opened Wire

  // ----- what is written -----

  /** The fields named by `pre`, in that order. */
  function Picked(fields: seq<Field>, pre: seq<Tag>): seq<Field> {
    if pre == [] then []
    else
      var front, t := pre[..|pre| - 1], pre[|pre| - 1];
      Picked(fields, front) + if HasTag(fields, t) then [fields[IndexOf(fields, t)]] else []
  }

  /** The fields not named by `pre`, in insertion order. */
  function Unpicked(fields: seq<Field>, pre: seq<Tag>): seq<Field> {
    if fields == [] then []
    else
      var front, f := fields[..|fields| - 1], fields[|fields| - 1];
      Unpicked(front, pre) + if f.tag in pre then [] else [f]
  }

  /** The map with the leading fields moved to the front. */
  function Arranged(fm: FieldMap, pre: seq<Tag>): FieldMap {
    fm.(fields := Picked(fm.fields, pre) + Unpicked(fm.fields, pre))
  }

  function Written(fm: FieldMap, pre: seq<Tag>): seq<Field> {
    FlatNodes(Nodes(Arranged(fm, pre)))
  }

  lemma {:induction false} UnpickedAll(fields: seq<Field>)
    ensures Unpicked(fields, []) == fields
  {
    if fields != [] {
      UnpickedAll(fields[..|fields| - 1]);
    }
  }

  lemma WrittenPlain(fm: FieldMap)
    ensures Written(fm, []) == FlatNodes(Nodes(fm))
  {
    UnpickedAll(fm.fields);
    assert Picked(fm.fields, []) + Unpicked(fm.fields, []) == fm.fields;
  }

  /** One field of `fm` with the run of entries it counts. */
  function NodeOf(f: Field, runs: seq<Run>): Node {
    Node(f, Entries(EntriesOf(runs, f.tag)))
  }

  lemma {:induction false} NodesSnoc(fields: seq<Field>, f: Field, runs: seq<Run>)
    ensures Nodes(FieldMap(fields + [f], runs)) == Nodes(FieldMap(fields, runs)) + [NodeOf(f, runs)]
  {}

  // ----- writing it -----

  function FieldsBytes(fields: seq<Field>, runs: seq<Run>, sep: byte): seq<byte> {
    Render(FlatNodes(Nodes(FieldMap(fields, runs))), sep)
  }

  function EntriesBytes(entries: seq<Group>, sep: byte): seq<byte> {
    Render(FlatEntries(Entries(entries)), sep)
  }

  lemma {:induction false} FieldsSnoc(fields: seq<Field>, f: Field, runs: seq<Run>, sep: byte)
    ensures FieldsBytes(fields + [f], runs, sep)
            == FieldsBytes(fields, runs, sep) + RenderField(f, sep) + EntriesBytes(EntriesOf(runs, f.tag), sep)
  {
    var nodes, n := Nodes(FieldMap(fields, runs)), NodeOf(f, runs);
    NodesSnoc(fields, f, runs);
    FlatNodesConcat(nodes, [n]);
    FlatSingleNode(n);
    RenderConcat(FlatNodes(nodes), [f] + FlatEntries(n.entries), sep);
    RenderConcat([f], FlatEntries(n.entries), sep);
    RenderSingle(f, sep);
    Associative(Render(FlatNodes(nodes), sep), RenderField(f, sep), Render(FlatEntries(n.entries), sep));
  }

  lemma {:induction false} AppendField(buffer: seq<byte>, fields: seq<Field>, f: Field, runs: seq<Run>, sep: byte)
    ensures buffer + FieldsBytes(fields, runs, sep) + (RenderField(f, sep) + EntriesBytes(EntriesOf(runs, f.tag), sep))
            == buffer + FieldsBytes(fields + [f], runs, sep)
  {
    FieldsSnoc(fields, f, runs, sep);
    var fb, rf, eb := FieldsBytes(fields, runs, sep), RenderField(f, sep), EntriesBytes(EntriesOf(runs, f.tag), sep);
    Associative(fb, rf, eb);
    Associative(buffer, fb, rf + eb);
  }

  lemma {:induction false} EntriesSnoc(entries: seq<Group>, g: Group, sep: byte)
    ensures EntriesBytes(entries + [g], sep)
            == EntriesBytes(entries, sep) + Render(FlatNodes(Nodes(g.content)), sep)
  {
    var done, e := Entries(entries), Entry(Nodes(g.content));
    assert Entries(entries + [g]) == done + [e];
    FlatEntriesConcat(done, [e]);
    FlatSingleEntry(e);
    RenderConcat(FlatEntries(done), FlatNodes(e.nodes), sep);
  }

  /** A field, then the entries of the run it counts. */
  method WriteField(runs: seq<Run>, f: Field, sep: byte, buffer: seq<byte>) returns (out: seq<byte>)
    ensures out == buffer + (RenderField(f, sep) + EntriesBytes(EntriesOf(runs, f.tag), sep))
    decreases runs, 0
  {
    out := buffer + Print(f.tag) + [EQUALS] + f.data + [sep];
    assert out == buffer + RenderField(f, sep);
    var entries := EntriesOf(runs, f.tag);
    Associative(buffer, RenderField(f, sep), EntriesBytes(entries, sep));
    if entries != [] {
      out := WriteEntries(entries, sep, out);
    }
  }

  method WriteEntries(entries: seq<Group>, sep: byte, buffer: seq<byte>) returns (out: seq<byte>)
    ensures out == buffer + EntriesBytes(entries, sep)
    decreases entries, 2
  {
    out := buffer;
    for i := 0 to |entries|
      invariant out == buffer + EntriesBytes(entries[..i], sep)
    {
      var g := entries[i];
      assert g in entries && g.content < g;
      out := WriteMap(g.content, sep, out, []);
      WrittenPlain(g.content);
      EntriesSnoc(entries[..i], g, sep);
      assert entries[..i + 1] == entries[..i] + [g];
      Associative(buffer, EntriesBytes(entries[..i], sep), Render(FlatNodes(Nodes(g.content)), sep));
    }
    assert entries[..|entries|] == entries;
  }

  /** `FieldMap::write`: the leading fields first, then every other field. */
  method WriteMap(fm: FieldMap, sep: byte, buffer: seq<byte>, pre: seq<Tag>) returns (out: seq<byte>)
    ensures out == buffer + Render(Written(fm, pre), sep)
    decreases fm, 3
  {
    out := WriteLeading(fm, sep, buffer, pre);
    out := WriteOthers(fm, sep, out, pre, buffer);
  }

  method WriteLeading(fm: FieldMap, sep: byte, buffer: seq<byte>, pre: seq<Tag>) returns (out: seq<byte>)
    ensures out == buffer + FieldsBytes(Picked(fm.fields, pre), fm.groups, sep)
    decreases fm, 1
  {
    out := buffer;
    for i := 0 to |pre|
      invariant out == buffer + FieldsBytes(Picked(fm.fields, pre[..i]), fm.groups, sep)
    {
      ghost var lead := Picked(fm.fields, pre[..i]);
      PickedSnoc(fm.fields, pre, i);
      if HasTag(fm.fields, pre[i]) {
        var f := fm.fields[IndexOf(fm.fields, pre[i])];
        out := WriteField(fm.groups, f, sep, out);
        AppendField(buffer, lead, f, fm.groups, sep);
      }
    }
    assert pre[..|pre|] == pre;
  }

  method WriteOthers(fm: FieldMap, sep: byte, buffer: seq<byte>, pre: seq<Tag>, ghost start: seq<byte>)
    returns (out: seq<byte>)
    requires buffer == start + FieldsBytes(Picked(fm.fields, pre), fm.groups, sep)
    ensures out == start + FieldsBytes(Arranged(fm, pre).fields, fm.groups, sep)
    decreases fm, 1
  {
    out := buffer;
    ghost var lead := Picked(fm.fields, pre);
    assert lead + Unpicked(fm.fields[..0], pre) == lead;
    for i := 0 to |fm.fields|
      invariant out == start + FieldsBytes(lead + Unpicked(fm.fields[..i], pre), fm.groups, sep)
    {
      var f := fm.fields[i];
      ghost var before := lead + Unpicked(fm.fields[..i], pre);
      UnpickedSnoc(fm.fields, pre, i, lead);
      if f.tag !in pre {
        out := WriteField(fm.groups, f, sep, out);
        AppendField(start, before, f, fm.groups, sep);
      }
    }
    assert fm.fields[..|fm.fields|] == fm.fields;
  }

  lemma PickedSnoc(fields: seq<Field>, pre: seq<Tag>, i: nat)
    requires i < |pre|
    ensures Picked(fields, pre[..i + 1])
            == if HasTag(fields, pre[i]) then Picked(fields, pre[..i]) + [fields[IndexOf(fields, pre[i])]]
               else Picked(fields, pre[..i])
  {
    assert pre[..i + 1][..i] == pre[..i];
  }

  lemma UnpickedSnoc(fields: seq<Field>, pre: seq<Tag>, i: nat, lead: seq<Field>)
    requires i < |fields|
    ensures lead + Unpicked(fields[..i + 1], pre)
            == if fields[i].tag in pre then lead + Unpicked(fields[..i], pre)
               else lead + Unpicked(fields[..i], pre) + [fields[i]]
  {
    assert fields[..i + 1][..i] == fields[..i];
  }
}
