/** What the dictionary tells the message builder: per message type, which tags belong to
    the body, which of them count repeating groups, and what those groups contain. */
module Layouts {
  import opened Decimal
  import opened Fields

  datatype FieldSpec = FieldSpec(tag: Tag, isRequired: bool)

  /** The fields declared at one level, and the groups whose count tags stand at that level. */
  datatype Layout = Layout(fields: seq<FieldSpec>, groups: seq<GroupSpec>)

  datatype GroupSpec = GroupSpec(countTag: Tag, layout: Layout)

  datatype Config = Config(separator: byte, validateUserDefinedFields: bool)

  datatype MessageBuilder = MessageBuilder(
    headerTags: set<Tag>,
    trailerTags: set<Tag>,
    fieldTags: set<Tag>,
    messages: map<seq<byte>, Layout>,
    config: Config
  )

  const USER_DEFINED_TAG_MIN: Tag := 5000

  predicate Declares(l: Layout, tag: Tag) {
    exists i :: 0 <= i < |l.fields| && l.fields[i].tag == tag
  }

  /** Where a declared tag first stands in the declaration. */
  function Position(l: Layout, tag: Tag): (k: nat)
    requires Declares(l, tag)
    ensures k < |l.fields| && l.fields[k].tag == tag
    ensures forall j :: 0 <= j < k ==> l.fields[j].tag != tag
  {
    FirstSpec(l.fields, tag)
  }

  function FirstSpec(specs: seq<FieldSpec>, tag: Tag): (k: nat)
    requires exists i :: 0 <= i < |specs| && specs[i].tag == tag
    ensures k < |specs| && specs[k].tag == tag
    ensures forall j :: 0 <= j < k ==> specs[j].tag != tag
  {
    if specs[0].tag == tag then 0
    else
      assert exists i :: 0 <= i < |specs[1..]| && specs[1..][i].tag == tag by {
        var i :| 0 <= i < |specs| && specs[i].tag == tag;
        assert specs[1..][i - 1].tag == tag;
      }
      FirstSpec(specs[1..], tag) + 1
  }

  function GroupFor(l: Layout, tag: Tag): (r: Option<GroupSpec>)
    ensures r.Some? ==> r.value in l.groups && r.value.countTag == tag && r.value < l
    ensures r.Some? && WellFormed(l) ==> WellFormedGroup(r.value)
    ensures r.None? <==> forall i :: 0 <= i < |l.groups| ==> l.groups[i].countTag != tag
  {
    FindGroup(l.groups, tag)
  }

  function FindGroup(groups: seq<GroupSpec>, tag: Tag): (r: Option<GroupSpec>)
    ensures r.Some? ==> r.value in groups && r.value.countTag == tag
    ensures r.None? <==> forall i :: 0 <= i < |groups| ==> groups[i].countTag != tag
  {
    if groups == [] then None
    else if groups[0].countTag == tag then Some(groups[0])
    else
      assert forall i :: 1 <= i < |groups| ==> groups[i] == groups[1..][i - 1];
      FindGroup(groups[1..], tag)
  }

  /** No group without fields, at any depth: the delimiter is the first declared field. */
  predicate WellFormed(l: Layout) {
    forall i :: 0 <= i < |l.groups| ==> WellFormedGroup(l.groups[i])
  }

  predicate WellFormedGroup(g: GroupSpec) {
    g.layout.fields != [] && WellFormed(g.layout)
  }

  function Delimiter(g: GroupSpec): (tag: Tag)
    requires WellFormedGroup(g)
    ensures Declares(g.layout, tag) && Position(g.layout, tag) == 0
  {
    assert g.layout.fields[0].tag == g.layout.fields[0].tag;
    g.layout.fields[0].tag
  }

  /** User-defined tags the dictionary does not know are let through unless validation is on. */
  predicate AcceptsUnknown(b: MessageBuilder, tag: Tag) {
    !b.config.validateUserDefinedFields && tag >= USER_DEFINED_TAG_MIN && tag !in b.fieldTags
  }

  /** Whether a field with this tag is taken in at this level. */
  predicate Absorbs(b: MessageBuilder, l: Layout, tag: Tag) {
    Declares(l, tag) || AcceptsUnknown(b, tag)
  }

  predicate WellFormedBuilder(b: MessageBuilder) {
    forall t :: t in b.messages ==> WellFormed(b.messages[t])
  }
}
