/** From concrete syntax to field maps: fields are stored one by one, the entries of a group
    are filed under its count tag, and required fields are then looked for. */
module Assembly {
  import opened Decimal
  import opened Fields
  import opened Layouts
  import opened Grammar

  function BuildMap(l: Layout, nodes: seq<Node>): FieldMap
    requires WellFormed(l)
    decreases nodes
  {
    if nodes == [] then EMPTY
    else AddNode(l, BuildMap(l, nodes[..|nodes| - 1]), nodes[|nodes| - 1])
  }

  function AddNode(l: Layout, fm: FieldMap, n: Node): FieldMap
    requires WellFormed(l)
    decreases n
  {
    var stored := fm.(fields := InsertField(fm.fields, n.field));
    match GroupFor(l, n.field.tag)
    case Some(g) =>
      if n.entries == [] then stored
      else stored.(groups := InsertRun(stored.groups, Run(g.countTag, BuildRun(g, n.entries))))
    case None => stored
  }

  function BuildRun(g: GroupSpec, entries: seq<Entry>): (groups: seq<Group>)
    requires WellFormedGroup(g)
    ensures |groups| == |entries|
    decreases entries
  {
    seq(|entries|, i requires 0 <= i < |entries| =>
      var e := entries[i];
      Group(g.countTag, Delimiter(g), BuildMap(g.layout, e.nodes)))
  }

  lemma BuildMapSnoc(l: Layout, nodes: seq<Node>, n: Node)
    requires WellFormed(l)
    ensures BuildMap(l, nodes + [n]) == AddNode(l, BuildMap(l, nodes), n)
  {
    assert (nodes + [n])[..|nodes|] == nodes;
  }

  lemma BuildRunSnoc(g: GroupSpec, entries: seq<Entry>, e: Entry)
    requires WellFormedGroup(g)
    ensures BuildRun(g, entries + [e])
            == BuildRun(g, entries) + [Group(g.countTag, Delimiter(g), BuildMap(g.layout, e.nodes))]
  {}

  // ----- required fields -----

  /** The first required field some entry lacks, looking into nested groups as well. */
  function FirstMissing(g: GroupSpec, entries: seq<Group>): Option<ParserError>
    decreases g, 2, |entries|
  {
    if entries == [] then None
    else
      var missing := EntryMissing(g, entries[0].content);
      if missing.Some? then missing else FirstMissing(g, entries[1..])
  }

  function EntryMissing(g: GroupSpec, fm: FieldMap): Option<ParserError>
    decreases g, 1
  {
    var missing := FieldMissing(g.layout.fields, fm.fields, g.countTag);
    if missing.Some? then missing else NestedMissing(g.layout.groups, fm.groups)
  }

  function FieldMissing(specs: seq<FieldSpec>, fields: seq<Field>, groupTag: Tag): Option<ParserError> {
    if specs == [] then None
    else if specs[0].isRequired && !HasTag(fields, specs[0].tag) then Some(RequiredFieldMissing(specs[0].tag, groupTag))
    else FieldMissing(specs[1..], fields, groupTag)
  }

  function NestedMissing(groups: seq<GroupSpec>, runs: seq<Run>): Option<ParserError>
    decreases groups, 0
  {
    if groups == [] then None
    else
      var missing := FirstMissing(groups[0], EntriesOf(runs, groups[0].countTag));
      if missing.Some? then missing else NestedMissing(groups[1..], runs)
  }

  /** Every entry has every required field of its own specification, at every depth. */
  ghost predicate RequiredPresent(g: GroupSpec, entries: seq<Group>)
    decreases g, 1
  {
    forall i :: 0 <= i < |entries| ==> EntryComplete(g, entries[i].content)
  }

  ghost predicate EntryComplete(g: GroupSpec, fm: FieldMap)
    decreases g, 0
  {
    && (forall k :: 0 <= k < |g.layout.fields| && g.layout.fields[k].isRequired ==>
          HasTag(fm.fields, g.layout.fields[k].tag))
    && forall k :: 0 <= k < |g.layout.groups| ==>
        RequiredPresent(g.layout.groups[k], EntriesOf(fm.groups, g.layout.groups[k].countTag))
  }

  lemma {:induction false} FieldMissingCorrect(specs: seq<FieldSpec>, fields: seq<Field>, groupTag: Tag)
    ensures FieldMissing(specs, fields, groupTag).None? <==>
            forall k :: 0 <= k < |specs| && specs[k].isRequired ==> HasTag(fields, specs[k].tag)
  {
    if specs != [] {
      FieldMissingCorrect(specs[1..], fields, groupTag);
      assert forall k :: 1 <= k < |specs| ==> specs[k] == specs[1..][k - 1];
    }
  }

  /** The check passes exactly when nothing required is missing anywhere below. */
  lemma {:induction false} MissingCorrect(g: GroupSpec, entries: seq<Group>)
    ensures FirstMissing(g, entries).None? <==> RequiredPresent(g, entries)
    decreases g, 2, |entries|
  {
    if entries != [] {
      var fm := entries[0].content;
      FieldMissingCorrect(g.layout.fields, fm.fields, g.countTag);
      NestedMissingCorrect(g.layout.groups, fm.groups);
      MissingCorrect(g, entries[1..]);
      assert forall i :: 1 <= i < |entries| ==> entries[i] == entries[1..][i - 1];
    }
  }

  lemma {:induction false} NestedMissingCorrect(groups: seq<GroupSpec>, runs: seq<Run>)
    ensures NestedMissing(groups, runs).None? <==>
            forall k :: 0 <= k < |groups| ==> RequiredPresent(groups[k], EntriesOf(runs, groups[k].countTag))
    decreases groups, 0
  {
    if groups != [] {
      MissingCorrect(groups[0], EntriesOf(runs, groups[0].countTag));
      NestedMissingCorrect(groups[1..], runs);
      assert forall k :: 1 <= k < |groups| ==> groups[k] == groups[1..][k - 1];
    }
  }
}
