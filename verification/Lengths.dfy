/** BodyLength is computed from field sizes before anything is written. This module relates
    that computation to the bytes that are then written. */
module Lengths {
  import opened Decimal
  import opened Fields
  import opened Wire

  // ----- what the code computes -----

  function FieldsLength(fields: seq<Field>, skip: seq<Tag>): nat {
    if fields == [] then 0
    else (if fields[0].tag in skip then 0 else fields[0].Length()) + FieldsLength(fields[1..], skip)
  }

  /** `FieldMap::calculate_length`: all fields but the skipped ones, and all groups. */
  function MapLength(fm: FieldMap, skip: seq<Tag>): nat
    decreases fm
  {
    FieldsLength(fm.fields, skip) + RunsLength(fm.groups)
  }

  function RunsLength(runs: seq<Run>): nat
    decreases runs
  {
    if runs == [] then 0 else EntriesLength(runs[0].entries) + RunsLength(runs[1..])
  }

  function EntriesLength(entries: seq<Group>): nat
    decreases entries
  {
    if entries == [] then 0
    else
      assert entries[0].content < entries[0];
      MapLength(entries[0].content, []) + EntriesLength(entries[1..])
  }

  // ----- what is written -----

  function TotalLength(fields: seq<Field>): nat {
    if fields == [] then 0 else fields[0].Length() + TotalLength(fields[1..])
  }

  lemma {:induction false} RenderLength(fields: seq<Field>, sep: byte)
    ensures |Render(fields, sep)| == TotalLength(fields)
  {
    if fields != [] {
      RenderLength(fields[1..], sep);
    }
  }

  lemma {:induction false} TotalConcat(a: seq<Field>, b: seq<Field>)
    ensures TotalLength(a + b) == TotalLength(a) + TotalLength(b)
  {
    if a == [] {
      assert a + b == b;
    } else {
      var ab := a + b;
      assert ab[0] == a[0] && ab[1..] == a[1..] + b;
      TotalConcat(a[1..], b);
    }
  }

  /** Bytes written for a list of entries. */
  function EntriesWritten(entries: seq<Group>): nat {
    TotalLength(FlatEntries(Entries(entries)))
  }

  /** Bytes written for the given fields, each with its run. */
  function FieldsWritten(fields: seq<Field>, runs: seq<Run>): nat {
    if fields == [] then 0
    else fields[0].Length() + EntriesWritten(EntriesOf(runs, fields[0].tag)) + FieldsWritten(fields[1..], runs)
  }

  lemma {:induction false} FieldsWrittenCorrect(fields: seq<Field>, runs: seq<Run>)
    ensures TotalLength(FlatNodes(Nodes(FieldMap(fields, runs)))) == FieldsWritten(fields, runs)
  {
    if fields != [] {
      var nodes, rest := Nodes(FieldMap(fields, runs)), Nodes(FieldMap(fields[1..], runs));
      var entries := Entries(EntriesOf(runs, fields[0].tag));
      assert nodes == [Node(fields[0], entries)] + rest;
      FieldsWrittenCorrect(fields[1..], runs);
      FlatHead(nodes);
      TotalConcat([fields[0]], FlatEntries(entries) + FlatNodes(rest));
      TotalConcat(FlatEntries(entries), FlatNodes(rest));
    }
  }

  lemma FlatHead(nodes: seq<Node>)
    requires nodes != []
    ensures FlatNodes(nodes) == [nodes[0].field] + (FlatEntries(nodes[0].entries) + FlatNodes(nodes[1..]))
  {}

  lemma {:induction false} EntriesWrittenCons(entries: seq<Group>)
    requires entries != []
    ensures EntriesWritten(entries) == TotalLength(FlatNodes(Nodes(entries[0].content))) + EntriesWritten(entries[1..])
  {
    var all, rest := Entries(entries), Entries(entries[1..]);
    assert all[0] == Entry(Nodes(entries[0].content)) && all[1..] == rest;
    TotalConcat(FlatNodes(all[0].nodes), FlatEntries(rest));
  }

  // ----- the difference: groups whose count tag is not a field of the map -----

  /** Bytes that are counted but never written, at any depth. */
  function MapOrphans(fm: FieldMap): nat
    decreases fm
  {
    RunsOrphans(fm.groups, fm.fields)
  }

  function RunsOrphans(runs: seq<Run>, fields: seq<Field>): nat
    decreases runs
  {
    if runs == [] then 0
    else
      (if HasTag(fields, runs[0].countTag) then EntriesOrphans(runs[0].entries) else EntriesLength(runs[0].entries))
      + RunsOrphans(runs[1..], fields)
  }

  function EntriesOrphans(entries: seq<Group>): nat
    decreases entries
  {
    if entries == [] then 0
    else
      assert entries[0].content < entries[0];
      MapOrphans(entries[0].content) + EntriesOrphans(entries[1..])
  }

  /** Runs that hang off a field, in the order of the runs rather than of the fields. */
  function MatchedWritten(runs: seq<Run>, fields: seq<Field>): nat {
    if runs == [] then 0
    else (if HasTag(fields, runs[0].countTag) then EntriesWritten(runs[0].entries) else 0)
         + MatchedWritten(runs[1..], fields)
  }

  function LookedUp(fields: seq<Field>, runs: seq<Run>): nat {
    if fields == [] then 0 else EntriesWritten(EntriesOf(runs, fields[0].tag)) + LookedUp(fields[1..], runs)
  }

  lemma {:induction false} LookupSplit(fields: seq<Field>, runs: seq<Run>)
    ensures FieldsWritten(fields, runs) == TotalLength(fields) + LookedUp(fields, runs)
  {
    if fields != [] {
      LookupSplit(fields[1..], runs);
    }
  }

  lemma EntriesOfCons(runs: seq<Run>, t: Tag)
    requires runs != []
    ensures EntriesOf(runs, t) == if runs[0].countTag == t then runs[0].entries else EntriesOf(runs[1..], t)
  {
    if runs[0].countTag != t {
      if HasRun(runs, t) {
        assert runs[1..][RunIndex(runs, t) - 1].countTag == t;
      }
    }
  }

  /** One more run adds its bytes exactly once, if some field counts it. */
  lemma {:induction false} LookupCons(fields: seq<Field>, runs: seq<Run>)
    requires UniqueTags(fields) && UniqueRuns(runs) && runs != []
    ensures LookedUp(fields, runs) == LookedUp(fields, runs[1..])
            + if HasTag(fields, runs[0].countTag) then EntriesWritten(runs[0].entries) else 0
  {
    if fields != [] {
      var t, f, rest := runs[0].countTag, fields[0], fields[1..];
      LookupCons(rest, runs);
      EntriesOfCons(runs, f.tag);
      TailTag(fields, t);
      if f.tag == t {
        assert forall i :: 0 <= i < |runs[1..]| ==> runs[1..][i] == runs[i + 1];
        assert EntriesOf(runs[1..], t) == [];
        assert EntriesWritten([]) == 0;
      }
    }
  }

  lemma TailTag(fields: seq<Field>, t: Tag)
    requires fields != [] && UniqueTags(fields)
    ensures HasTag(fields, t) <==> fields[0].tag == t || HasTag(fields[1..], t)
    ensures fields[0].tag == t ==> !HasTag(fields[1..], t)
    ensures UniqueTags(fields[1..])
  {
    if HasTag(fields, t) && fields[0].tag != t {
      assert fields[1..][IndexOf(fields, t) - 1].tag == t;
    }
    if HasTag(fields[1..], t) {
      assert fields[IndexOf(fields[1..], t) + 1].tag == t;
    }
  }

  lemma {:induction false} LookupByRuns(fields: seq<Field>, runs: seq<Run>)
    requires UniqueTags(fields) && UniqueRuns(runs)
    ensures LookedUp(fields, runs) == MatchedWritten(runs, fields)
  {
    if runs == [] {
      NothingToLookUp(fields);
    } else {
      LookupCons(fields, runs);
      LookupByRuns(fields, runs[1..]);
    }
  }

  lemma {:induction false} NothingToLookUp(fields: seq<Field>)
    ensures LookedUp(fields, []) == 0
  {
    if fields != [] {
      NothingToLookUp(fields[1..]);
    }
  }

  // ----- conservation -----

  ghost predicate ValidEntries(entries: seq<Group>) {
    forall i :: 0 <= i < |entries| ==> Valid(entries[i].content)
  }

  /** The computed length is what is written plus the groups that are never written. */
  lemma {:induction false} LengthConserved(fm: FieldMap)
    requires Valid(fm)
    ensures MapLength(fm, []) == TotalLength(FlatNodes(Nodes(fm))) + MapOrphans(fm)
    decreases fm, 2
  {
    RunsConserved(fm.groups, fm.fields);
    FieldsWrittenCorrect(fm.fields, fm.groups);
    LookupSplit(fm.fields, fm.groups);
    LookupByRuns(fm.fields, fm.groups);
    NothingSkipped(fm.fields);
    assert FieldMap(fm.fields, fm.groups) == fm;
  }

  lemma {:induction false} NothingSkipped(fields: seq<Field>)
    ensures FieldsLength(fields, []) == TotalLength(fields)
  {
    if fields != [] {
      NothingSkipped(fields[1..]);
    }
  }

  lemma {:induction false} RunsConserved(runs: seq<Run>, fields: seq<Field>)
    requires forall i :: 0 <= i < |runs| ==> ValidEntries(runs[i].entries)
    ensures RunsLength(runs) == MatchedWritten(runs, fields) + RunsOrphans(runs, fields)
    decreases runs, 1
  {
    if runs != [] {
      EntriesConserved(runs[0].entries);
      RunsConserved(runs[1..], fields);
    }
  }

  lemma {:induction false} EntriesConserved(entries: seq<Group>)
    requires ValidEntries(entries)
    ensures EntriesLength(entries) == EntriesWritten(entries) + EntriesOrphans(entries)
    decreases entries, 1
  {
    if entries != [] {
      var g := entries[0];
      assert g in entries && g.content < g;
      LengthConserved(g.content);
      EntriesConserved(entries[1..]);
      EntriesWrittenCons(entries);
    } else {
      assert Entries([]) == [];
    }
  }
}
