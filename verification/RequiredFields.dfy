/** Required fields of a message that was built: they are there, in every entry of every group,
    however deep it is nested. */
module RequiredFields {
  import opened Decimal
  import opened Fields
  import opened Layouts
  import opened Wire
  import opened Grammar
  import opened Assembly
  import opened Reading
  import opened BodyGrammar
  import opened Rebuilding

  /** Every run is one the layout declares, at every depth. */
  ghost predicate Specified(l: Layout, fm: FieldMap)
    decreases fm
  {
    forall i :: 0 <= i < |fm.groups| ==> RunSpecified(l, fm.groups[i])
  }

  ghost predicate RunSpecified(l: Layout, run: Run)
    decreases run
  {
    && GroupFor(l, run.countTag).Some?
    && forall j :: 0 <= j < |run.entries| ==>
        var e := run.entries[j];
        assert e in run.entries && e.content < e;
        Specified(GroupFor(l, run.countTag).value.layout, e.content)
  }

  predicate HasRequired(l: Layout, fields: seq<Field>) {
    forall k :: 0 <= k < |l.fields| && l.fields[k].isRequired ==> HasTag(fields, l.fields[k].tag)
  }

  /** Every entry of every group below has what its own specification requires. */
  ghost predicate RequiredEverywhere(l: Layout, fm: FieldMap)
    requires Specified(l, fm)
    decreases fm
  {
    forall i :: 0 <= i < |fm.groups| ==> RunSpecified(l, fm.groups[i]) && RequiredInRun(l, fm.groups[i])
  }

  ghost predicate RequiredInRun(l: Layout, run: Run)
    requires RunSpecified(l, run)
    decreases run
  {
    var inner := GroupFor(l, run.countTag).value.layout;
    forall j :: 0 <= j < |run.entries| ==>
      var e := run.entries[j];
      assert e in run.entries && e.content < e;
      HasRequired(inner, e.content.fields) && Specified(inner, e.content) && RequiredEverywhere(inner, e.content)
  }

  // ----- a built map has no run without a specification -----

  lemma {:induction false} BuiltSpecified(l: Layout, nodes: seq<Node>)
    requires WellFormed(l)
    ensures Specified(l, BuildMap(l, nodes))
    decreases nodes, 1
  {
    if nodes != [] {
      var n, front := nodes[|nodes| - 1], nodes[..|nodes| - 1];
      assert n in nodes;
      BuiltSpecified(l, front);
      BuiltValid(l, front);
      if n.entries != [] && GroupFor(l, n.field.tag).Some? {
        BuiltRunSpecified(l, n);
      }
      BuiltLast(l, nodes);
      assert RunOf(l, n) != [] ==> RunSpecified(l, RunOf(l, n)[0]);
      hide BuildMap, RunSpecified, RunOf, Fields.Valid;
      UniqueRunsOf(BuildMap(l, front));
      RunsStored(l, BuildMap(l, front), n.field, RunOf(l, n));
    }
  }

  lemma UniqueRunsOf(fm: FieldMap)
    requires Fields.Valid(fm)
    ensures UniqueRuns(fm.groups)
  {}

  lemma RunsStored(l: Layout, fm: FieldMap, f: Field, run: seq<Run>)
    requires Specified(l, fm) && UniqueRuns(fm.groups) && |run| <= 1 && (run != [] ==> RunSpecified(l, run[0]))
    ensures Specified(l, Stored(fm, f, run))
  {
    hide RunSpecified;
    if run != [] {
      InsertedRun(fm.groups, run[0]);
      var runs := InsertRun(fm.groups, run[0]);
      forall i | 0 <= i < |runs| ensures RunSpecified(l, runs[i]) {
        assert runs[i] in runs;
      }
    }
  }

  lemma {:induction false} BuiltRunSpecified(l: Layout, n: Node)
    requires WellFormed(l) && GroupFor(l, n.field.tag).Some?
    ensures var g := GroupFor(l, n.field.tag).value; RunSpecified(l, Run(g.countTag, BuildRun(g, n.entries)))
    decreases n
  {
    var g := GroupFor(l, n.field.tag).value;
    var built := BuildRun(g, n.entries);
    forall j | 0 <= j < |n.entries| ensures Specified(g.layout, built[j].content) {
      assert n.entries[j] in n.entries;
      BuiltSpecified(g.layout, n.entries[j].nodes);
    }
  }

  // ----- the check covers every depth -----

  lemma {:induction false} RunsRequired(l: Layout, fm: FieldMap)
    requires Fields.Valid(fm) && Specified(l, fm)
    requires forall i :: 0 <= i < |fm.groups| ==> RunSpecified(l, fm.groups[i]) && RunChecked(l, fm.groups[i])
    ensures RequiredEverywhere(l, fm)
    decreases fm, 1
  {
    forall i | 0 <= i < |fm.groups| ensures RequiredInRun(l, fm.groups[i]) {
      assert fm.groups[i] in fm.groups;
      RunRequired(l, fm.groups[i]);
    }
    hide RunSpecified, RequiredInRun, RunChecked, Fields.Valid;
  }

  /** The run passed the builder's check. */
  ghost predicate RunChecked(l: Layout, run: Run) {
    GroupFor(l, run.countTag).Some? && RequiredPresent(GroupFor(l, run.countTag).value, run.entries)
  }

  lemma {:induction false} RunRequired(l: Layout, run: Run)
    requires RunSpecified(l, run) && RunChecked(l, run)
    requires forall j :: 0 <= j < |run.entries| ==> Fields.Valid(run.entries[j].content)
    ensures RequiredInRun(l, run)
    decreases run, 0
  {
    var g := GroupFor(l, run.countTag).value;
    forall j | 0 <= j < |run.entries|
      ensures HasRequired(g.layout, run.entries[j].content.fields) && Specified(g.layout, run.entries[j].content)
      ensures RequiredEverywhere(g.layout, run.entries[j].content)
    {
      var e := run.entries[j];
      assert e in run.entries && e.content < e;
      assert EntryComplete(g, e.content);
      NestedChecked(g, e.content);
      RunsRequired(g.layout, e.content);
    }
    hide EntryComplete, RequiredEverywhere, HasRequired, Specified;
  }

  lemma {:induction false} NestedChecked(g: GroupSpec, fm: FieldMap)
    requires EntryComplete(g, fm) && Fields.Valid(fm) && Specified(g.layout, fm)
    ensures HasRequired(g.layout, fm.fields)
    ensures forall i :: 0 <= i < |fm.groups| ==>
              RunSpecified(g.layout, fm.groups[i]) && RunChecked(g.layout, fm.groups[i])
  {
    UniqueRunsOf(fm);
    hide Fields.Valid, RequiredPresent;
    forall i | 0 <= i < |fm.groups| ensures RunSpecified(g.layout, fm.groups[i]) && RunChecked(g.layout, fm.groups[i]) {
      var run := fm.groups[i];
      assert RunSpecified(g.layout, run);
      var inner := GroupFor(g.layout, run.countTag).value;
      var k :| 0 <= k < |g.layout.groups| && g.layout.groups[k] == inner;
      assert RequiredPresent(g.layout.groups[k], EntriesOf(fm.groups, g.layout.groups[k].countTag));
      assert RunIndex(fm.groups, run.countTag) == i;
    }
  }

  // ----- messages -----

  lemma {:induction false} BodyChecked(b: MessageBuilder, l: Layout, nodes: seq<Node>, follow: Tag)
    requires WellFormed(l) && PrefixConforms(b, l, nodes, follow)
    ensures forall r :: r in BuildMap(l, nodes).groups ==> RunChecked(l, r)
    decreases nodes
  {
    if nodes != [] {
      var n, front := nodes[|nodes| - 1], nodes[..|nodes| - 1];
      assert BodyNodeConforms(b, l, n, NextTag(nodes, |nodes| - 1, follow));
      assert RunOf(l, n) != [] ==> RunChecked(l, RunOf(l, n)[0]) by {
        hide RequiredPresent, BuildRun, RunConforms;
      }
      hide BodyNodeConforms, RunChecked, RunOf, BuildMap;
      PrefixOf(b, l, nodes, follow);
      BodyChecked(b, l, front, n.field.tag);
      BuiltValid(l, front);
      BuiltLast(l, nodes);
      UniqueRunsOf(BuildMap(l, front));
      if RunOf(l, n) != [] {
        InsertedRun(BuildMap(l, front).groups, RunOf(l, n)[0]);
      }
    }
  }

  lemma PrefixOf(b: MessageBuilder, l: Layout, nodes: seq<Node>, follow: Tag)
    requires WellFormed(l) && PrefixConforms(b, l, nodes, follow) && nodes != []
    ensures PrefixConforms(b, l, nodes[..|nodes| - 1], nodes[|nodes| - 1].field.tag)
  {
    hide BodyNodeConforms;
    var front := nodes[..|nodes| - 1];
    forall i | 0 <= i < |front| ensures BodyNodeConforms(b, l, front[i],
      NextTag(front, i, nodes[|nodes| - 1].field.tag)) {
      assert BodyNodeConforms(b, l, nodes[i], NextTag(nodes, i, follow));
      assert NextTag(front, i, nodes[|nodes| - 1].field.tag) == NextTag(nodes, i, follow);
    }
  }

  lemma {:induction false} BodyRequired(b: MessageBuilder, l: Layout, nodes: seq<Node>, follow: Tag)
    requires WellFormed(l) && PrefixConforms(b, l, nodes, follow)
    ensures Specified(l, BuildMap(l, nodes)) && RequiredEverywhere(l, BuildMap(l, nodes))
  {
    var fm := BuildMap(l, nodes);
    BuiltSpecified(l, nodes);
    BuiltValid(l, nodes);
    BodyChecked(b, l, nodes, follow);
    hide BuildMap, Fields.Valid, RunSpecified, RunChecked, PrefixConforms, RequiredEverywhere;
    forall i | 0 <= i < |fm.groups| ensures RunSpecified(l, fm.groups[i]) && RunChecked(l, fm.groups[i]) {
      assert fm.groups[i] in fm.groups;
    }
    RunsRequired(l, fm);
  }

  /** If a message is built as valid, each of its groups, at whatever depth, is declared by the
      layout of its message type, and each entry has every field its own specification marks
      as required. */
  lemma {:induction false} RequiredAtEveryDepth(b: MessageBuilder, raw: seq<byte>)
    requires WellFormedBuilder(b) && Build(b, raw).Valid?
    ensures var m := Build(b, raw).message;
            && HasTag(m.header.fields, MSG_TYPE) && GetRaw(m.header.fields, MSG_TYPE).value in b.messages
            && var l := b.messages[GetRaw(m.header.fields, MSG_TYPE).value];
               Specified(l, m.body) && RequiredEverywhere(l, m.body)
  {
    var env := Integrity(raw, b.config.separator).value;
    var toks := Tokens(raw, b.config.separator, env.position);
    var n, header := HeaderSpan(b, toks), FieldMap(HeaderFields(b, env, toks), []);
    var msgType := GetRaw(header.fields, MSG_TYPE).value;
    var l := b.messages[msgType];
    var p := ParseBody(b, l, [], toks[n..]).value;
    assert Build(b, raw).message.header == header && Build(b, raw).message.body == BuildMap(l, p.nodes);
    assert WellFormed(l);
    hide Build, BuildFields, BuildMap, Integrity, Tokens, HeaderFields, HeaderSpan, Specified, RequiredEverywhere,
      ParseBody, WellFormed;
    BodySound(b, l, [], toks[n..]);
    BodyRequired(b, l, p.nodes, p.rest[0].tag);
  }
}
