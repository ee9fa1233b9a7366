/** Maps built from syntax: what survives when the same tag is stored twice at one level. */
module Rebuilding {
  import opened Decimal
  import opened Fields
  import opened Layouts
  import opened Lengths
  import opened Grammar
  import opened Assembly
  import opened BodyLengths

  /** Entries stand only behind count tags the layout knows as groups, at every level. */
  ghost predicate Grouped(l: Layout, nodes: seq<Node>)
    requires WellFormed(l)
    decreases nodes
  {
    forall i :: 0 <= i < |nodes| && nodes[i].entries != [] ==>
      && GroupFor(l, nodes[i].field.tag).Some?
      && GroupedRun(GroupFor(l, nodes[i].field.tag).value, nodes[i].entries)
  }

  ghost predicate GroupedRun(g: GroupSpec, entries: seq<Entry>)
    requires WellFormedGroup(g)
    decreases entries
  {
    forall j :: 0 <= j < |entries| ==> Grouped(g.layout, entries[j].nodes)
  }

  /** No tag twice at one level, at every level. */
  ghost predicate DistinctNodes(nodes: seq<Node>)
    decreases nodes
  {
    && (forall i, j :: 0 <= i < j < |nodes| ==> nodes[i].field.tag != nodes[j].field.tag)
    && forall i :: 0 <= i < |nodes| ==> DistinctEntries(nodes[i].entries)
  }

  ghost predicate DistinctEntries(entries: seq<Entry>)
    decreases entries
  {
    forall j :: 0 <= j < |entries| ==> DistinctNodes(entries[j].nodes)
  }

  // ----- one node more -----

  /** The run a node brings with it, if any. */
  function RunOf(l: Layout, n: Node): (run: seq<Run>)
    requires WellFormed(l)
    ensures |run| <= 1 && (run != [] ==> run[0].countTag == n.field.tag)
  {
    match GroupFor(l, n.field.tag)
    case Some(g) => if n.entries == [] then [] else [Run(g.countTag, BuildRun(g, n.entries))]
    case None => []
  }

  function Stored(fm: FieldMap, f: Field, run: seq<Run>): FieldMap
    requires |run| <= 1
  {
    FieldMap(InsertField(fm.fields, f), if run == [] then fm.groups else InsertRun(fm.groups, run[0]))
  }

  lemma {:induction false} BuiltLast(l: Layout, nodes: seq<Node>)
    requires WellFormed(l) && nodes != []
    ensures var n := nodes[|nodes| - 1];
            BuildMap(l, nodes) == Stored(BuildMap(l, nodes[..|nodes| - 1]), n.field, RunOf(l, n))
  {}

  // ----- index maps stay index maps -----

  lemma InsertedRun(runs: seq<Run>, run: Run)
    requires UniqueRuns(runs)
    ensures UniqueRuns(InsertRun(runs, run))
    ensures forall r :: r in InsertRun(runs, run) ==> r in runs || r == run
  {}

  lemma {:induction false} BuiltValid(l: Layout, nodes: seq<Node>)
    requires WellFormed(l)
    ensures Valid(BuildMap(l, nodes))
    decreases nodes, 1
  {
    if nodes != [] {
      var n := nodes[|nodes| - 1];
      assert n in nodes;
      BuiltValid(l, nodes[..|nodes| - 1]);
      BuiltLast(l, nodes);
      if n.entries != [] && GroupFor(l, n.field.tag).Some? {
        BuiltRunValid(GroupFor(l, n.field.tag).value, n.entries);
      }
      ValidStored(BuildMap(l, nodes[..|nodes| - 1]), n.field, RunOf(l, n));
    }
  }

  lemma ValidStored(fm: FieldMap, f: Field, run: seq<Run>)
    requires Valid(fm) && |run| <= 1
    requires run != [] ==> forall j :: 0 <= j < |run[0].entries| ==> Valid(run[0].entries[j].content)
    ensures Valid(Stored(fm, f, run))
  {
    InsertedField(fm.fields, f);
    if run != [] {
      InsertedRun(fm.groups, run[0]);
    }
    var runs := Stored(fm, f, run).groups;
    forall i, j | 0 <= i < |runs| && 0 <= j < |runs[i].entries| ensures Valid(runs[i].entries[j].content) {
      assert runs[i] in runs;
    }
  }

  lemma {:induction false} BuiltRunValid(g: GroupSpec, entries: seq<Entry>)
    requires WellFormedGroup(g)
    ensures forall j :: 0 <= j < |BuildRun(g, entries)| ==> Valid(BuildRun(g, entries)[j].content)
    decreases entries, 0
  {
    forall j | 0 <= j < |entries| ensures Valid(BuildRun(g, entries)[j].content) {
      assert entries[j] in entries;
      BuiltValid(g.layout, entries[j].nodes);
    }
  }

  // ----- no orphans -----

  lemma {:induction false} NoRunOrphans(runs: seq<Run>, fields: seq<Field>)
    requires forall r :: r in runs ==> HasTag(fields, r.countTag) && EntriesOrphans(r.entries) == 0
    ensures RunsOrphans(runs, fields) == 0
  {
    if runs != [] {
      NoRunOrphans(runs[1..], fields);
    }
  }

  lemma {:induction false} NoEntryOrphans(entries: seq<Group>)
    requires forall j :: 0 <= j < |entries| ==> MapOrphans(entries[j].content) == 0
    ensures EntriesOrphans(entries) == 0
  {
    if entries != [] {
      NoEntryOrphans(entries[1..]);
    }
  }

  ghost predicate RunsAnchored(fm: FieldMap) {
    forall r :: r in fm.groups ==> HasTag(fm.fields, r.countTag) && EntriesOrphans(r.entries) == 0
  }

  /** Every group of a built map has its count field beside it. */
  lemma {:induction false} BuiltAnchored(l: Layout, nodes: seq<Node>)
    requires WellFormed(l)
    ensures RunsAnchored(BuildMap(l, nodes)) && MapOrphans(BuildMap(l, nodes)) == 0
    decreases nodes, 1
  {
    if nodes == [] {
      assert BuildMap(l, nodes) == EMPTY;
    } else {
      var n, fm := nodes[|nodes| - 1], BuildMap(l, nodes[..|nodes| - 1]);
      assert n in nodes;
      BuiltAnchored(l, nodes[..|nodes| - 1]);
      BuiltValid(l, nodes[..|nodes| - 1]);
      if n.entries != [] && GroupFor(l, n.field.tag).Some? {
        BuiltRunAnchored(GroupFor(l, n.field.tag).value, n.entries);
      }
      assert RunOf(l, n) != [] ==> EntriesOrphans(RunOf(l, n)[0].entries) == 0;
      hide *;
      BuiltLast(l, nodes);
      AnchoredAfter(fm, n.field, RunOf(l, n));
    }
    AnchoredOrphans(BuildMap(l, nodes));
  }

  lemma AnchoredOrphans(fm: FieldMap)
    requires RunsAnchored(fm)
    ensures MapOrphans(fm) == 0
  {
    NoRunOrphans(fm.groups, fm.fields);
  }

  lemma AnchoredAfter(fm: FieldMap, f: Field, run: seq<Run>)
    requires Valid(fm) && RunsAnchored(fm) && |run| <= 1
    requires run != [] ==> run[0].countTag == f.tag && EntriesOrphans(run[0].entries) == 0
    ensures RunsAnchored(Stored(fm, f, run))
  {
    hide EntriesOrphans;
    InsertedField(fm.fields, f);
    var fields := InsertField(fm.fields, f);
    forall t: Tag | HasTag(fm.fields, t) || t == f.tag ensures HasTag(fields, t) {
      assert GetRaw(fields, t).Some?;
    }
    if run != [] {
      InsertedRun(fm.groups, run[0]);
    }
  }

  lemma {:induction false} BuiltRunAnchored(g: GroupSpec, entries: seq<Entry>)
    requires WellFormedGroup(g)
    ensures EntriesOrphans(BuildRun(g, entries)) == 0
    decreases entries, 0
  {
    var built := BuildRun(g, entries);
    forall j | 0 <= j < |entries| ensures MapOrphans(built[j].content) == 0 {
      assert entries[j] in entries;
      BuiltAnchored(g.layout, entries[j].nodes);
    }
    NoEntryOrphans(built);
  }

  // ----- lengths: storing a tag again loses the earlier field -----

  lemma {:induction false} UpdateLength(fields: seq<Field>, k: nat, f: Field, skip: seq<Tag>)
    requires k < |fields| && fields[k].tag == f.tag
    ensures FieldsLength(fields[k := f], skip) + (if f.tag in skip then 0 else fields[k].Length())
            == FieldsLength(fields, skip) + (if f.tag in skip then 0 else f.Length())
  {
    var changed := fields[k := f];
    if k == 0 {
      assert changed[1..] == fields[1..];
    } else {
      assert changed[0] == fields[0] && changed[1..] == fields[1..][k - 1 := f];
      UpdateLength(fields[1..], k - 1, f, skip);
    }
  }

  lemma InsertLength(fields: seq<Field>, f: Field, skip: seq<Tag>)
    ensures FieldsLength(InsertField(fields, f), skip)
            + (if HasTag(fields, f.tag) && f.tag !in skip then FieldOf(fields, f.tag).Length() else 0)
            == FieldsLength(fields, skip) + (if f.tag in skip then 0 else f.Length())
  {
    hide FieldsLength;
    if HasTag(fields, f.tag) {
      UpdateLength(fields, IndexOf(fields, f.tag), f, skip);
    } else {
      FieldsLengthSnoc(fields, f, skip);
    }
  }

  lemma {:induction false} RunsLengthSnoc(runs: seq<Run>, run: Run)
    ensures RunsLength(runs + [run]) == RunsLength(runs) + EntriesLength(run.entries)
  {
    var all := runs + [run];
    if runs == [] {
      assert all[1..] == [];
    } else {
      assert all[0] == runs[0] && all[1..] == runs[1..] + [run];
      RunsLengthSnoc(runs[1..], run);
    }
  }

  lemma {:induction false} UpdateRunLength(runs: seq<Run>, k: nat, run: Run)
    requires k < |runs|
    ensures RunsLength(runs[k := run]) <= RunsLength(runs) + EntriesLength(run.entries)
  {
    var changed := runs[k := run];
    if k == 0 {
      assert changed[1..] == runs[1..];
    } else {
      assert changed[0] == runs[0] && changed[1..] == runs[1..][k - 1 := run];
      UpdateRunLength(runs[1..], k - 1, run);
    }
  }

  lemma StoredLength(fm: FieldMap, f: Field, run: seq<Run>)
    requires |run| <= 1 && (run != [] ==> run[0].countTag == f.tag) && RunsAnchored(fm)
    ensures var bound := MapLength(fm, []) + f.Length() + (if run == [] then 0 else EntriesLength(run[0].entries));
            var length := MapLength(Stored(fm, f, run), []);
            length <= bound && (length == bound <==> !HasTag(fm.fields, f.tag))
  {
    hide RunsLength, FieldsLength, EntriesLength, EntriesOrphans, InsertField;
    InsertLength(fm.fields, f, []);
    if run != [] {
      if HasRun(fm.groups, f.tag) {
        assert fm.groups[RunIndex(fm.groups, f.tag)] in fm.groups;
        UpdateRunLength(fm.groups, RunIndex(fm.groups, f.tag), run[0]);
      } else {
        RunsLengthSnoc(fm.groups, run[0]);
      }
    }
  }

  lemma {:induction false} BuiltTags(l: Layout, nodes: seq<Node>, t: Tag)
    requires WellFormed(l)
    ensures HasTag(BuildMap(l, nodes).fields, t) <==> exists i :: 0 <= i < |nodes| && nodes[i].field.tag == t
  {
    if nodes == [] {
      assert BuildMap(l, nodes) == EMPTY;
    } else {
      var front, n := nodes[..|nodes| - 1], nodes[|nodes| - 1];
      BuiltTags(l, front, t);
      BuiltLast(l, nodes);
      InsertedField(BuildMap(l, front).fields, n.field);
      hide BuildMap, InsertField;
      var fields := BuildMap(l, nodes).fields;
      assert GetRaw(fields, t).Some? <==> HasTag(BuildMap(l, front).fields, t) || n.field.tag == t;
      if i :| 0 <= i < |nodes| && nodes[i].field.tag == t {
        assert i < |front| ==> front[i].field.tag == t;
      }
    }
  }

  /** Whether the last node's tag is new at its level. */
  ghost predicate FreshLast(nodes: seq<Node>)
    requires nodes != []
  {
    forall i :: 0 <= i < |nodes| - 1 ==> nodes[i].field.tag != nodes[|nodes| - 1].field.tag
  }

  lemma DistinctSnoc(nodes: seq<Node>)
    requires nodes != []
    ensures DistinctNodes(nodes) <==>
            DistinctNodes(nodes[..|nodes| - 1]) && DistinctEntries(nodes[|nodes| - 1].entries) && FreshLast(nodes)
  {
    hide DistinctEntries;
    var front := nodes[..|nodes| - 1];
    assert forall i :: 0 <= i < |front| ==> front[i] == nodes[i];
  }

  lemma {:induction false} FlatNodesLength(nodes: seq<Node>)
    requires nodes != []
    ensures var n := nodes[|nodes| - 1];
            TotalLength(FlatNodes(nodes))
              == TotalLength(FlatNodes(nodes[..|nodes| - 1])) + n.field.Length() + TotalLength(FlatEntries(n.entries))
  {
    var front, n := nodes[..|nodes| - 1], nodes[|nodes| - 1];
    assert nodes == front + [n];
    FlatNodesConcat(front, [n]);
    FlatSingleNode(n);
    TotalConcat(FlatNodes(front), [n.field] + FlatEntries(n.entries));
    TotalConcat([n.field], FlatEntries(n.entries));
    assert TotalLength([n.field]) == n.field.Length();
  }

  /** A built map is never longer than the syntax it came from, and as long only if no tag
      repeats at any level. */
  lemma {:induction false} BuiltLength(l: Layout, nodes: seq<Node>)
    requires WellFormed(l) && Grouped(l, nodes)
    ensures MapLength(BuildMap(l, nodes), []) <= TotalLength(FlatNodes(nodes))
    ensures MapLength(BuildMap(l, nodes), []) == TotalLength(FlatNodes(nodes)) <==> DistinctNodes(nodes)
    decreases nodes, 1
  {
    if nodes == [] {
      assert BuildMap(l, nodes) == EMPTY;
    } else {
      var front, n := nodes[..|nodes| - 1], nodes[|nodes| - 1];
      assert n in nodes && forall i :: 0 <= i < |front| ==> front[i] == nodes[i];
      BuiltLength(l, front);
      LastRunLength(l, nodes);
      BuiltTags(l, front, n.field.tag);
      assert HasTag(BuildMap(l, front).fields, n.field.tag) <==> !FreshLast(nodes);
      hide *;
      BuiltAnchored(l, front);
      BuiltLast(l, nodes);
      StoredLength(BuildMap(l, front), n.field, RunOf(l, n));
      FlatNodesLength(nodes);
      DistinctSnoc(nodes);
    }
  }

  lemma {:induction false} LastRunLength(l: Layout, nodes: seq<Node>)
    requires WellFormed(l) && Grouped(l, nodes) && nodes != []
    ensures var n := nodes[|nodes| - 1];
            var length := if RunOf(l, n) == [] then 0 else EntriesLength(RunOf(l, n)[0].entries);
            && length <= TotalLength(FlatEntries(n.entries))
            && (length == TotalLength(FlatEntries(n.entries)) <==> DistinctEntries(n.entries))
    decreases nodes, 0
  {
    var n := nodes[|nodes| - 1];
    assert n in nodes;
    if n.entries == [] {
      assert FlatEntries([]) == [];
    } else {
      BuiltRunLength(GroupFor(l, n.field.tag).value, n.entries);
    }
  }

  lemma {:induction false} BuiltRunLength(g: GroupSpec, entries: seq<Entry>)
    requires WellFormedGroup(g) && GroupedRun(g, entries)
    ensures EntriesLength(BuildRun(g, entries)) <= TotalLength(FlatEntries(entries))
    ensures EntriesLength(BuildRun(g, entries)) == TotalLength(FlatEntries(entries)) <==> DistinctEntries(entries)
    decreases entries, 2
  {
    if entries == [] {
      assert BuildRun(g, entries) == [];
    } else {
      var e, rest := entries[0], entries[1..];
      assert e in entries && forall j :: 0 <= j < |rest| ==> rest[j] == entries[j + 1];
      assert BuildRun(g, entries)[0].content == BuildMap(g.layout, e.nodes);
      assert BuildRun(g, entries)[1..] == BuildRun(g, rest);
      BuiltLength(g.layout, e.nodes);
      BuiltRunLength(g, rest);
      TotalConcat(FlatNodes(e.nodes), FlatEntries(rest));
      hide BuildMap, BuildRun, Grouped, MapLength, FlatNodes, TotalLength, DistinctNodes;
      assert DistinctEntries(entries) <==> DistinctNodes(e.nodes) && DistinctEntries(rest);
    }
  }

  // ----- syntax without repeated tags survives unchanged -----

  lemma EntriesOfSnoc(runs: seq<Run>, run: Run, t: Tag)
    ensures run.countTag != t ==> EntriesOf(runs + [run], t) == EntriesOf(runs, t)
    ensures run.countTag == t && !HasRun(runs, t) ==> EntriesOf(runs + [run], t) == run.entries
  {
    var all := runs + [run];
    assert all[|runs|] == run;
    if HasRun(runs, t) {
      assert all[RunIndex(runs, t)].countTag == t;
    }
  }

  lemma {:induction false} NodesStored(fm: FieldMap, f: Field, run: seq<Run>)
    requires |run| <= 1 && (run != [] ==> run[0].countTag == f.tag) && RunsAnchored(fm) && !HasTag(fm.fields, f.tag)
    ensures Nodes(Stored(fm, f, run)) == Nodes(fm) + [Node(f, if run == [] then [] else Entries(run[0].entries))]
  {
    hide EntriesOrphans;
    var fm' := Stored(fm, f, run);
    forall i | 0 <= i < |fm.groups| ensures fm.groups[i].countTag != f.tag {
      assert fm.groups[i] in fm.groups;
    }
    forall i | 0 <= i < |fm.fields| ensures EntriesOf(fm'.groups, fm.fields[i].tag)
      == EntriesOf(fm.groups, fm.fields[i].tag) {
      if run != [] {
        EntriesOfSnoc(fm.groups, run[0], fm.fields[i].tag);
      }
    }
    if run != [] {
      EntriesOfSnoc(fm.groups, run[0], f.tag);
    }
  }

  lemma {:induction false} BuiltNodes(l: Layout, nodes: seq<Node>)
    requires WellFormed(l) && Grouped(l, nodes) && DistinctNodes(nodes)
    ensures Nodes(BuildMap(l, nodes)) == nodes
    decreases nodes, 1
  {
    if nodes == [] {
      assert BuildMap(l, nodes) == EMPTY;
    } else {
      var front, n := nodes[..|nodes| - 1], nodes[|nodes| - 1];
      FrontNodes(l, nodes);
      LastRunNodes(l, nodes);
      hide *;
      BuiltNodes(l, front);
      BuiltTags(l, front, n.field.tag);
      BuiltAnchored(l, front);
      BuiltLast(l, nodes);
      NodesStored(BuildMap(l, front), n.field, RunOf(l, n));
      assert n == Node(n.field, n.entries) && nodes == front + [n];
    }
  }

  lemma FrontNodes(l: Layout, nodes: seq<Node>)
    requires WellFormed(l) && Grouped(l, nodes) && DistinctNodes(nodes) && nodes != []
    ensures var front, n := nodes[..|nodes| - 1], nodes[|nodes| - 1];
            && Grouped(l, front) && DistinctNodes(front)
            && forall i :: 0 <= i < |front| ==> front[i].field.tag != n.field.tag
  {
    hide GroupedRun, DistinctEntries;
    var front := nodes[..|nodes| - 1];
    assert forall i :: 0 <= i < |front| ==> front[i] == nodes[i];
  }

  lemma {:induction false} LastRunNodes(l: Layout, nodes: seq<Node>)
    requires WellFormed(l) && Grouped(l, nodes) && DistinctNodes(nodes) && nodes != []
    ensures var n := nodes[|nodes| - 1];
            (if RunOf(l, n) == [] then [] else Entries(RunOf(l, n)[0].entries)) == n.entries
    decreases nodes, 0
  {
    var n := nodes[|nodes| - 1];
    assert n in nodes;
    if n.entries != [] {
      var g := GroupFor(l, n.field.tag).value;
      assert GroupedRun(g, n.entries) && DistinctEntries(n.entries);
      BuiltRunNodes(g, n.entries);
    }
  }

  lemma {:induction false} BuiltRunNodes(g: GroupSpec, entries: seq<Entry>)
    requires WellFormedGroup(g) && GroupedRun(g, entries) && DistinctEntries(entries)
    ensures Entries(BuildRun(g, entries)) == entries
    decreases entries, 2
  {
    var built := BuildRun(g, entries);
    forall j | 0 <= j < |entries| ensures Entries(built)[j] == entries[j] {
      assert entries[j] in entries;
      BuiltNodes(g.layout, entries[j].nodes);
    }
  }

  // ----- conforming syntax is grouped -----

  lemma {:induction false} RunGrouped(b: MessageBuilder, g: GroupSpec, entries: seq<Entry>, follow: Tag)
    requires WellFormedGroup(g) && RunConforms(b, g, entries, follow)
    ensures GroupedRun(g, entries)
    decreases entries
  {
    forall j | 0 <= j < |entries| ensures Grouped(g.layout, entries[j].nodes) {
      assert entries[j] in entries;
      EntryGrouped(b, g, entries[j], if j + 1 < |entries| then Delimiter(g) else follow);
    }
  }

  lemma {:induction false} EntryGrouped(b: MessageBuilder, g: GroupSpec, e: Entry, follow: Tag)
    requires WellFormedGroup(g) && EntryConforms(b, g, e, follow)
    ensures Grouped(g.layout, e.nodes)
    decreases e
  {
    forall i | 0 <= i < |e.nodes| && e.nodes[i].entries != []
      ensures GroupFor(g.layout, e.nodes[i].field.tag).Some?
      ensures GroupedRun(GroupFor(g.layout, e.nodes[i].field.tag).value, e.nodes[i].entries)
    {
      var n := e.nodes[i];
      assert n in e.nodes && NodeConforms(b, g, n, NextTag(e.nodes, i, follow));
      RunGrouped(b, GroupFor(g.layout, n.field.tag).value, n.entries, NextTag(e.nodes, i, follow));
    }
  }
}
