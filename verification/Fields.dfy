/** Field maps: insertion-ordered maps from tags to raw values, with repeating groups
    hanging off their count tags to any depth. */
module Fields {
  import opened Decimal

  type Tag = n: int | 1 <= n < U32_LIMIT witness 1

  const BEGIN_STRING: Tag := 8
  const BODY_LENGTH: Tag := 9
  const CHECK_SUM: Tag := 10
  const MSG_TYPE: Tag := 35

  datatype Field = Field(tag: Tag, data: seq<byte>) {
    /** Tag digits, the equal sign, the value and the separator. */
    function Length(): nat {
      |Print(tag)| + |data| + 2
    }
  }

  /** `groups` is keyed by count tag; both sequences are in insertion order. */
  datatype FieldMap = FieldMap(fields: seq<Field>, groups: seq<Run>)

  datatype Run = Run(countTag: Tag, entries: seq<Group>)

  datatype Group = Group(startTag: Tag, delimiterTag: Tag, content: FieldMap)

  const EMPTY := FieldMap([], [])

  // ----- index map operations -----

  predicate HasTag(fields: seq<Field>, tag: Tag) {
    exists i :: 0 <= i < |fields| && fields[i].tag == tag
  }

  function IndexOf(fields: seq<Field>, tag: Tag): (k: nat)
    requires HasTag(fields, tag)
    ensures k < |fields| && fields[k].tag == tag
    ensures forall j :: 0 <= j < k ==> fields[j].tag != tag
  {
    if fields[0].tag == tag then 0
    else
      assert exists i :: 0 <= i < |fields[1..]| && fields[1..][i].tag == tag by {
        var i :| 0 <= i < |fields| && fields[i].tag == tag;
        assert fields[1..][i - 1].tag == tag;
      }
      IndexOf(fields[1..], tag) + 1
  }

  function GetRaw(fields: seq<Field>, tag: Tag): (r: Option<seq<byte>>)
    ensures r.Some? <==> HasTag(fields, tag)
  {
    if HasTag(fields, tag) then Some(fields[IndexOf(fields, tag)].data) else None
  }

  /** `IndexMap::insert`: a known tag keeps its place and takes the new value. */
  function InsertField(fields: seq<Field>, f: Field): seq<Field> {
    if HasTag(fields, f.tag) then fields[IndexOf(fields, f.tag) := f] else fields + [f]
  }

  /** `IndexMap::shift_remove`. */
  function RemoveTag(fields: seq<Field>, tag: Tag): seq<Field> {
    if HasTag(fields, tag) then
      fields[..IndexOf(fields, tag)] + fields[IndexOf(fields, tag) + 1..]
    else
      fields
  }

  predicate HasRun(runs: seq<Run>, tag: Tag) {
    exists i :: 0 <= i < |runs| && runs[i].countTag == tag
  }

  function RunIndex(runs: seq<Run>, tag: Tag): (k: nat)
    requires HasRun(runs, tag)
    ensures k < |runs| && runs[k].countTag == tag
    ensures forall j :: 0 <= j < k ==> runs[j].countTag != tag
  {
    if runs[0].countTag == tag then 0
    else
      assert exists i :: 0 <= i < |runs[1..]| && runs[1..][i].countTag == tag by {
        var i :| 0 <= i < |runs| && runs[i].countTag == tag;
        assert runs[1..][i - 1].countTag == tag;
      }
      RunIndex(runs[1..], tag) + 1
  }

  function InsertRun(runs: seq<Run>, run: Run): seq<Run> {
    if HasRun(runs, run.countTag) then runs[RunIndex(runs, run.countTag) := run] else runs + [run]
  }

  /** The entries stored under a count tag, none if there is no such run. */
  function EntriesOf(runs: seq<Run>, tag: Tag): (entries: seq<Group>)
    ensures entries != [] ==> HasRun(runs, tag) && entries == runs[RunIndex(runs, tag)].entries
  {
    if HasRun(runs, tag) then runs[RunIndex(runs, tag)].entries else []
  }

  predicate UniqueTags(fields: seq<Field>) {
    forall i, j :: 0 <= i < j < |fields| ==> fields[i].tag != fields[j].tag
  }

  predicate UniqueRuns(runs: seq<Run>) {
    forall i, j :: 0 <= i < j < |runs| ==> runs[i].countTag != runs[j].countTag
  }

  /** What an index map guarantees at every level: no key twice. */
  ghost predicate Valid(fm: FieldMap) {
    && UniqueTags(fm.fields)
    && UniqueRuns(fm.groups)
    && forall i, j :: 0 <= i < |fm.groups| && 0 <= j < |fm.groups[i].entries| ==>
                        Valid(fm.groups[i].entries[j].content)
  }

  lemma InsertedField(fields: seq<Field>, f: Field)
    ensures UniqueTags(fields) ==> UniqueTags(InsertField(fields, f))
    ensures GetRaw(InsertField(fields, f), f.tag) == Some(f.data)
    ensures forall t: Tag :: t != f.tag ==>
                               GetRaw(InsertField(fields, f), t) == GetRaw(fields, t)
  {
    var r := InsertField(fields, f);
    if HasTag(fields, f.tag) {
      var k := IndexOf(fields, f.tag);
      assert r[k].tag == f.tag;
      forall t: Tag | t != f.tag ensures GetRaw(r, t) == GetRaw(fields, t) {
        SameLookup(r, fields, k, t);
      }
    } else {
      assert r[|fields|].tag == f.tag;
      forall t: Tag | t != f.tag ensures GetRaw(r, t) == GetRaw(fields, t) {
        SnocLookup(fields, f, t);
      }
    }
  }

  lemma SameLookup(a: seq<Field>, b: seq<Field>, k: nat, t: Tag)
    requires k < |a| == |b| && a == b[k := a[k]]
    requires a[k].tag == b[k].tag != t
    ensures GetRaw(a, t) == GetRaw(b, t)
  {
    if HasTag(a, t) {
      assert b[IndexOf(a, t)].tag == t;
    }
    if HasTag(b, t) {
      assert a[IndexOf(b, t)].tag == t;
    }
  }

  lemma SnocLookup(fields: seq<Field>, f: Field, t: Tag)
    requires f.tag != t
    ensures GetRaw(fields + [f], t) == GetRaw(fields, t)
  {
    if HasTag(fields, t) {
      assert (fields + [f])[IndexOf(fields, t)].tag == t;
    }
  }

  lemma {:induction false} RemovedTag(fields: seq<Field>, tag: Tag)
    requires UniqueTags(fields)
    ensures UniqueTags(RemoveTag(fields, tag)) && !HasTag(RemoveTag(fields, tag), tag)
  {
    if HasTag(fields, tag) {
      var k, r := IndexOf(fields, tag), RemoveTag(fields, tag);
      forall i | 0 <= i < |r| ensures r[i] == fields[if i < k then i else i + 1] {}
    }
  }

  /** The value found under a tag is that of the one field with the tag. */
  lemma LookupMember(fields: seq<Field>, f: Field)
    requires UniqueTags(fields) && f in fields
    ensures GetRaw(fields, f.tag) == Some(f.data) && HasTag(fields, f.tag)
  {
    var i :| 0 <= i < |fields| && fields[i] == f;
    assert HasTag(fields, f.tag);
    assert IndexOf(fields, f.tag) == i;
  }

  lemma {:induction false} RemovedMembers(fields: seq<Field>, tag: Tag, f: Field)
    requires UniqueTags(fields)
    ensures f in RemoveTag(fields, tag) <==> f in fields && f.tag != tag
  {
    RemovedTag(fields, tag);
    if HasTag(fields, tag) {
      var k := IndexOf(fields, tag);
      assert fields == fields[..k] + [fields[k]] + fields[k + 1..];
    }
  }

  // ----- groups -----

  datatype SetGroupsError = EmptyGroups | MultipleStartTagsAndDelimiters

  lemma InsertedRunLookup(runs: seq<Run>, run: Run, t: Tag)
    ensures EntriesOf(InsertRun(runs, run), t) == if t == run.countTag then run.entries else EntriesOf(runs, t)
  {
    var r := InsertRun(runs, run);
    var k := if HasRun(runs, run.countTag) then RunIndex(runs, run.countTag) else |runs|;
    assert r[k] == run;
    assert forall i :: 0 <= i < |runs| && i != k ==> r[i] == runs[i];
    if HasRun(runs, t) && t != run.countTag {
      assert r[RunIndex(runs, t)].countTag == t;
    }
    if HasRun(r, t) && t != run.countTag {
      assert runs[RunIndex(r, t)].countTag == t;
    }
  }

  lemma InsertedRunLookups(runs: seq<Run>, run: Run)
    ensures forall t: Tag ::
              EntriesOf(InsertRun(runs, run), t) == if t == run.countTag then run.entries else EntriesOf(runs, t)
  {
    forall t: Tag
      ensures EntriesOf(InsertRun(runs, run), t) == if t == run.countTag then run.entries else EntriesOf(runs, t)
    {
      InsertedRunLookup(runs, run, t);
    }
  }

  /** `Part::set_groups`: files a non-empty list of entries under the start tag they all share,
      in place of any entries filed there before. */
  function SetGroups(fm: FieldMap, groups: seq<Group>): (r: Result<FieldMap, SetGroupsError>)
    ensures r.Ok? <==> groups != [] && forall i :: 0 <= i < |groups| ==>
      (groups[i].startTag, groups[i].delimiterTag) == (groups[0].startTag, groups[0].delimiterTag)
    ensures r == Err(EmptyGroups) <==> groups == []
    ensures r.Ok? ==> r.value.fields == fm.fields
    ensures r.Ok? ==>
              forall t: Tag ::
                EntriesOf(r.value.groups, t) == if t == groups[0].startTag then groups else EntriesOf(fm.groups, t)
  {
    if groups == [] then Err(EmptyGroups)
    else
      var tags := set g | g in groups :: (g.startTag, g.delimiterTag);
      if forall p :: p in tags ==> p == (groups[0].startTag, groups[0].delimiterTag) then
        assert forall i :: 0 <= i < |groups| ==> (groups[i].startTag, groups[i].delimiterTag) in tags;
        var run := Run(groups[0].startTag, groups);
        InsertedRunLookups(fm.groups, run);
        Ok(fm.(groups := InsertRun(fm.groups, run)))
      else
        assert exists g :: g in groups && (g.startTag, g.delimiterTag) != (groups[0].startTag, groups[0].delimiterTag);
        Err(MultipleStartTagsAndDelimiters)
  }

  // ----- concrete syntax -----

  /** A field as it stands in a message, followed by the entries of the group it counts. */
  datatype Node = Node(field: Field, entries: seq<Entry>)

  datatype Entry = Entry(nodes: seq<Node>)

  function Nodes(fm: FieldMap): (nodes: seq<Node>)
    ensures |nodes| == |fm.fields|
    ensures forall i :: 0 <= i < |nodes| ==> nodes[i].field == fm.fields[i]
    decreases fm
  {
    seq(|fm.fields|, i requires 0 <= i < |fm.fields| =>
      Node(fm.fields[i],
           var entries := EntriesOf(fm.groups, fm.fields[i].tag);
           if entries == [] then [] else Entries(entries)))
  }

  function Entries(groups: seq<Group>): (entries: seq<Entry>)
    ensures |entries| == |groups|
    decreases groups
  {
    seq(|groups|, i requires 0 <= i < |groups| =>
      var g := groups[i];
      assert g in groups && g.content < g;
      Entry(Nodes(g.content)))
  }

  /** The fields of a piece of syntax in the order they are written. */
  function FlatNodes(nodes: seq<Node>): seq<Field> {
    if nodes == [] then [] else [nodes[0].field] + FlatEntries(nodes[0].entries) + FlatNodes(nodes[1..])
  }

  function FlatEntries(entries: seq<Entry>): seq<Field> {
    if entries == [] then [] else FlatNodes(entries[0].nodes) + FlatEntries(entries[1..])
  }

  lemma {:induction false} FlatNodesConcat(a: seq<Node>, b: seq<Node>)
    ensures FlatNodes(a + b) == FlatNodes(a) + FlatNodes(b)
  {
    if a == [] {
      assert a + b == b;
    } else {
      var ab := a + b;
      assert ab[0] == a[0] && ab[1..] == a[1..] + b;
      FlatNodesConcat(a[1..], b);
    }
  }

  lemma {:induction false} FlatEntriesConcat(a: seq<Entry>, b: seq<Entry>)
    ensures FlatEntries(a + b) == FlatEntries(a) + FlatEntries(b)
  {
    if a == [] {
      assert a + b == b;
    } else {
      var ab := a + b;
      assert ab[0] == a[0] && ab[1..] == a[1..] + b;
      FlatEntriesConcat(a[1..], b);
    }
  }

  lemma FlatSingleNode(n: Node)
    ensures FlatNodes([n]) == [n.field] + FlatEntries(n.entries)
  {
    assert [n][1..] == [];
  }

  lemma FlatSingleEntry(e: Entry)
    ensures FlatEntries([e]) == FlatNodes(e.nodes)
  {
    assert [e][1..] == [];
  }
}
