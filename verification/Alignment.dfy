/** Reading back the syntax of a field map gives the map again, with the group runs listed in
    the order of their count fields. */
module Alignment {
  import opened Decimal
  import opened Fields
  import opened Layouts
  import opened Assembly

  /** The same fields and entries, with runs in the order of their count fields, at every level. */
  function Aligned(fm: FieldMap): FieldMap
    decreases fm
  {
    FieldMap(fm.fields, AlignedRuns(fm.fields, fm.groups))
  }

  function AlignedRuns(fields: seq<Field>, runs: seq<Run>): seq<Run>
    decreases runs, |fields|
  {
    if fields == [] then []
    else
      var t := fields[|fields| - 1].tag;
      var entries := EntriesOf(runs, t);
      AlignedRuns(fields[..|fields| - 1], runs) + if entries == [] then [] else [Run(t, AlignedGroups(entries))]
  }

  function AlignedGroups(groups: seq<Group>): (aligned: seq<Group>)
    ensures |aligned| == |groups|
    decreases groups
  {
    seq(|groups|, i requires 0 <= i < |groups| =>
      var g := groups[i];
      assert g in groups && g.content < g;
      g.(content := Aligned(g.content)))
  }

  /** Every run hangs off a count tag the layout knows as a group, and its entries carry that
      group's start and delimiter tags. */
  ghost predicate Labelled(l: Layout, fm: FieldMap)
    requires WellFormed(l)
    decreases fm
  {
    forall i :: 0 <= i < |fm.fields| ==>
      var entries := EntriesOf(fm.groups, fm.fields[i].tag);
      entries != [] ==>
        && GroupFor(l, fm.fields[i].tag).Some?
        && LabelledRun(GroupFor(l, fm.fields[i].tag).value, entries)
  }

  ghost predicate LabelledRun(g: GroupSpec, entries: seq<Group>)
    requires WellFormedGroup(g)
    decreases entries
  {
    forall j :: 0 <= j < |entries| ==>
      var e := entries[j];
      assert e in entries && e.content < e;
      e.startTag == g.countTag && e.delimiterTag == Delimiter(g) && Labelled(g.layout, e.content)
  }

  lemma {:induction false} AlignedRunTags(fields: seq<Field>, runs: seq<Run>, t: Tag)
    requires HasRun(AlignedRuns(fields, runs), t)
    ensures HasTag(fields, t)
  {
    var front, last := fields[..|fields| - 1], fields[|fields| - 1];
    if last.tag != t {
      var all := AlignedRuns(fields, runs);
      assert AlignedRuns(front, runs)[RunIndex(all, t)].countTag == t;
      AlignedRunTags(front, runs, t);
      assert fields[IndexOf(front, t)].tag == t;
    }
  }

  /** Reading back the syntax of a map builds that map, aligned. */
  lemma {:induction false} BuildAligned(l: Layout, fm: FieldMap)
    requires WellFormed(l) && Valid(fm) && Labelled(l, fm)
    ensures BuildMap(l, Nodes(fm)) == Aligned(fm)
    decreases fm, 2, 0
  {
    hide BuildMap, AlignedRuns;
    BuildPrefix(l, fm, |fm.fields|);
    assert Nodes(fm)[..|fm.fields|] == Nodes(fm) && fm.fields[..|fm.fields|] == fm.fields;
  }

  lemma {:induction false} BuildPrefix(l: Layout, fm: FieldMap, k: nat)
    requires WellFormed(l) && Valid(fm) && Labelled(l, fm) && k <= |fm.fields|
    ensures BuildMap(l, Nodes(fm)[..k]) == FieldMap(fm.fields[..k], AlignedRuns(fm.fields[..k], fm.groups))
    decreases fm, 1, k
  {
    hide *;
    var nodes := Nodes(fm);
    if k > 0 {
      BuildPrefix(l, fm, k - 1);
      RunAligned(l, fm, k - 1);
      AddAligned(l, fm, k);
      BuildMapSnoc(l, nodes[..k - 1], nodes[k - 1]);
      assert nodes[..k] == nodes[..k - 1] + [nodes[k - 1]];
    } else {
      assert nodes[..0] == [] && fm.fields[..0] == [];
      EmptyPrefix(l, fm.groups);
    }
  }

  lemma EmptyPrefix(l: Layout, runs: seq<Run>)
    requires WellFormed(l)
    ensures BuildMap(l, []) == FieldMap([], AlignedRuns([], runs))
  {}

  lemma {:induction false} RunAligned(l: Layout, fm: FieldMap, i: nat)
    requires WellFormed(l) && Valid(fm) && Labelled(l, fm) && i < |fm.fields|
    ensures var entries := EntriesOf(fm.groups, fm.fields[i].tag);
            entries != [] ==>
              && GroupFor(l, fm.fields[i].tag).Some?
              && BuildRun(GroupFor(l, fm.fields[i].tag).value, Entries(entries)) == AlignedGroups(entries)
    decreases fm, 0, 0
  {
    var t := fm.fields[i].tag;
    var entries := EntriesOf(fm.groups, t);
    if entries != [] {
      assert LabelledRun(GroupFor(l, t).value, entries);
      ValidRun(fm, t);
      var run := fm.groups[RunIndex(fm.groups, t)];
      assert run in fm.groups && entries == run.entries;
      hide *;
      BuildAlignedRun(GroupFor(l, t).value, entries);
    }
  }

  lemma ValidRun(fm: FieldMap, t: Tag)
    requires Valid(fm)
    ensures forall j :: 0 <= j < |EntriesOf(fm.groups, t)| ==> Valid(EntriesOf(fm.groups, t)[j].content)
  {}

  lemma {:induction false} AddAligned(l: Layout, fm: FieldMap, k: nat)
    requires WellFormed(l) && Valid(fm) && Labelled(l, fm) && 0 < k <= |fm.fields|
    requires var entries := EntriesOf(fm.groups, fm.fields[k - 1].tag);
             entries != [] ==>
               && GroupFor(l, fm.fields[k - 1].tag).Some?
               && BuildRun(GroupFor(l, fm.fields[k - 1].tag).value, Entries(entries)) == AlignedGroups(entries)
    ensures AddNode(l, FieldMap(fm.fields[..k - 1], AlignedRuns(fm.fields[..k - 1], fm.groups)), Nodes(fm)[k - 1])
            == FieldMap(fm.fields[..k], AlignedRuns(fm.fields[..k], fm.groups))
  {
    var f, before := fm.fields[k - 1], fm.fields[..k - 1];
    var entries, n := EntriesOf(fm.groups, f.tag), Nodes(fm)[k - 1];
    assert entries != [] ==> GroupFor(l, f.tag).Some?;
    assert n == Node(f, if entries == [] then [] else Entries(entries));
    hide Labelled, Valid, BuildRun, AlignedGroups, Nodes, Entries, EntriesOf;
    UniqueOf(fm);
    assert !HasTag(before, f.tag);
    assert fm.fields[..k] == before + [f] && fm.fields[..k][..k - 1] == before;
    if HasRun(AlignedRuns(before, fm.groups), f.tag) {
      AlignedRunTags(before, fm.groups, f.tag);
    }
  }

  lemma {:induction false} BuildAlignedRun(g: GroupSpec, entries: seq<Group>)
    requires WellFormedGroup(g) && LabelledRun(g, entries)
    requires forall j :: 0 <= j < |entries| ==> Valid(entries[j].content)
    ensures BuildRun(g, Entries(entries)) == AlignedGroups(entries)
    decreases entries, 2, 0
  {
    var built := BuildRun(g, Entries(entries));
    forall j | 0 <= j < |entries| ensures built[j] == AlignedGroups(entries)[j] {
      var e := entries[j];
      assert e in entries && e.content < e;
      BuildAligned(g.layout, e.content);
    }
  }

  lemma UniqueOf(fm: FieldMap)
    requires Valid(fm)
    ensures UniqueTags(fm.fields) && UniqueRuns(fm.groups)
  {}

  /** Aligning changes no field and no list of entries, only the order runs are listed in. */
  lemma {:induction false} AlignedLookup(fields: seq<Field>, runs: seq<Run>, t: Tag)
    requires UniqueTags(fields) && HasTag(fields, t)
    ensures EntriesOf(AlignedRuns(fields, runs), t) == AlignedGroups(EntriesOf(runs, t))
    decreases |fields|
  {
    var front, last := fields[..|fields| - 1], fields[|fields| - 1];
    var before, entries := AlignedRuns(front, runs), EntriesOf(runs, last.tag);
    var more := if entries == [] then [] else [Run(last.tag, AlignedGroups(entries))];
    assert AlignedRuns(fields, runs) == before + more;
    assert AlignedGroups([]) == [];
    if last.tag == t {
      assert forall j :: 0 <= j < |front| ==> front[j].tag != t;
      if HasRun(before, t) {
        AlignedRunTags(front, runs, t);
      }
      hide AlignedGroups, AlignedRuns;
      AppendedRun(before, more, t);
    } else {
      assert front[IndexOf(fields, t)].tag == t;
      AlignedLookup(front, runs, t);
      hide AlignedGroups, AlignedRuns;
      AppendedRun(before, more, t);
    }
  }

  lemma AppendedRun(runs: seq<Run>, more: seq<Run>, t: Tag)
    requires |more| <= 1
    ensures more == [] || more[0].countTag != t ==> EntriesOf(runs + more, t) == EntriesOf(runs, t)
    ensures more != [] && more[0].countTag == t && !HasRun(runs, t) ==> EntriesOf(runs + more, t) == more[0].entries
  {
    var all := runs + more;
    if HasRun(runs, t) {
      assert all[RunIndex(runs, t)].countTag == t;
    }
    if more != [] {
      assert all[|runs|] == more[0];
    }
  }
}
