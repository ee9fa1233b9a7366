/** Which messages are rejected, and what the rejection says. */
module Rejections {
  import opened Decimal
  import opened Fields
  import opened Layouts
  import opened Wire
  import opened Grammar
  import opened GroupRejections
  import opened Assembly
  import opened Messages
  import opened Reading
  import opened BodyGrammar

  // ----- missing fields -----

  /** Some entry, at some depth, of a group counted by `groupTag` lacks the field `tag`, which
      that group requires. */
  ghost predicate Lacks(g: GroupSpec, entries: seq<Group>, tag: Tag, groupTag: Tag)
    decreases g, 1
  {
    exists i :: 0 <= i < |entries| && EntryLacks(g, entries[i].content, tag, groupTag)
  }

  ghost predicate EntryLacks(g: GroupSpec, fm: FieldMap, tag: Tag, groupTag: Tag)
    decreases g, 0
  {
    || (g.countTag == groupTag && FieldSpec(tag, true) in g.layout.fields && !HasTag(fm.fields, tag))
    || exists k :: 0 <= k < |g.layout.groups|
                   && Lacks(g.layout.groups[k], EntriesOf(fm.groups, g.layout.groups[k].countTag), tag, groupTag)
  }

  lemma {:induction false} FieldMissingNamed(specs: seq<FieldSpec>, fields: seq<Field>, groupTag: Tag)
    requires FieldMissing(specs, fields, groupTag).Some?
    ensures var e := FieldMissing(specs, fields, groupTag).value;
            && e.RequiredFieldMissing? && e.groupTag == groupTag
            && FieldSpec(e.tag, true) in specs && !HasTag(fields, e.tag)
  {
    if !(specs[0].isRequired && !HasTag(fields, specs[0].tag)) {
      FieldMissingNamed(specs[1..], fields, groupTag);
    }
  }

  /** A missing field is reported with its own tag and the count tag of its own group. */
  lemma {:induction false} MissingNamed(g: GroupSpec, entries: seq<Group>)
    requires FirstMissing(g, entries).Some?
    ensures var e := FirstMissing(g, entries).value; e.RequiredFieldMissing? && Lacks(g, entries, e.tag, e.groupTag)
    decreases g, 2, |entries|
  {
    var fm := entries[0].content;
    if EntryMissing(g, fm).Some? {
      if FieldMissing(g.layout.fields, fm.fields, g.countTag).Some? {
        FieldMissingNamed(g.layout.fields, fm.fields, g.countTag);
      } else {
        var k := NestedMissingNamed(g.layout.groups, fm.groups);
      }
    } else {
      MissingNamed(g, entries[1..]);
      var e := FirstMissing(g, entries).value;
      var i :| 0 <= i < |entries[1..]| && EntryLacks(g, entries[1..][i].content, e.tag, e.groupTag);
      assert entries[1..][i] == entries[i + 1];
    }
  }

  lemma {:induction false} NestedMissingNamed(groups: seq<GroupSpec>, runs: seq<Run>) returns (k: nat)
    requires NestedMissing(groups, runs).Some?
    ensures k < |groups|
    ensures var e := NestedMissing(groups, runs).value;
            e.RequiredFieldMissing? && Lacks(groups[k], EntriesOf(runs, groups[k].countTag), e.tag, e.groupTag)
    decreases groups, 0
  {
    if FirstMissing(groups[0], EntriesOf(runs, groups[0].countTag)).Some? {
      MissingNamed(groups[0], EntriesOf(runs, groups[0].countTag));
      k := 0;
    } else {
      k := NestedMissingNamed(groups[1..], runs);
      k := k + 1;
    }
  }

  /** Of the entries' own fields, the first one missing in the first entry that lacks one is
      named, if every entry before it is complete. */
  lemma {:induction false} FirstMissingNamed(g: GroupSpec, entries: seq<Group>, i: nat, k: nat)
    requires i < |entries| && k < |g.layout.fields| && RequiredPresent(g, entries[..i])
    requires g.layout.fields[k].isRequired && !HasTag(entries[i].content.fields, g.layout.fields[k].tag)
    requires forall j :: 0 <= j < k && g.layout.fields[j].isRequired ==>
               HasTag(entries[i].content.fields, g.layout.fields[j].tag)
    ensures FirstMissing(g, entries) == Some(RequiredFieldMissing(g.layout.fields[k].tag, g.countTag))
    decreases i
  {
    if i == 0 {
      FirstFieldNamed(g.layout.fields, entries[0].content.fields, g.countTag, k);
    } else {
      assert entries[..i][0] == entries[0];
      MissingCorrect(g, [entries[0]]);
      assert RequiredPresent(g, [entries[0]]);
      assert EntryMissing(g, entries[0].content).None? by {
        assert [entries[0]][0] == entries[0];
      }
      var before := entries[1..][..i - 1];
      forall j | 0 <= j < |before| ensures EntryComplete(g, before[j].content) {
        assert before[j] == entries[..i][j + 1];
      }
      FirstMissingNamed(g, entries[1..], i - 1, k);
    }
  }

  lemma {:induction false} FirstFieldNamed(specs: seq<FieldSpec>, fields: seq<Field>, groupTag: Tag, k: nat)
    requires k < |specs| && specs[k].isRequired && !HasTag(fields, specs[k].tag)
    requires forall j :: 0 <= j < k && specs[j].isRequired ==> HasTag(fields, specs[j].tag)
    ensures FieldMissing(specs, fields, groupTag) == Some(RequiredFieldMissing(specs[k].tag, groupTag))
  {
    if k > 0 {
      FirstFieldNamed(specs[1..], fields, groupTag, k - 1);
    }
  }

  // ----- bodies -----

  /** What is wrong with the field at the head of `rest`: it belongs nowhere, it is declared but
      not in the dictionary, its group cannot be read, or its group lacks a field. */
  ghost predicate BodyFailsAt(b: MessageBuilder, l: Layout, rest: seq<Field>, e: ParserError)
    requires WellFormed(l) && rest != []
  {
    var t := rest[0].tag;
    if !Declares(l, t) then !AcceptsUnknown(b, t) && t !in b.trailerTags && e == InvalidField(t)
    else if t !in b.fieldTags then e == InvalidField(t)
    else
      && GroupFor(l, t).Some?
      && var g := GroupFor(l, t).value;
         RunFails(b, g, rest[1..], e) || RunLacks(b, g, rest[1..], e)
  }

  /** A run that can be read, with a required field missing. */
  ghost predicate RunLacks(b: MessageBuilder, g: GroupSpec, toks: seq<Field>, e: ParserError)
    requires WellFormedGroup(g)
  {
    exists entries: seq<Entry>, rest: seq<Field> ::
      && rest != [] && toks == FlatEntries(entries) + rest && RunConforms(b, g, entries, rest[0].tag)
      && FirstMissing(g, BuildRun(g, entries)) == Some(e)
  }

  /** The body cannot be read: a conforming beginning, and then either nothing more or a field
      with which something is wrong. */
  ghost predicate BodyFails(b: MessageBuilder, l: Layout, toks: seq<Field>, e: ParserError)
    requires WellFormed(l)
  {
    exists nodes, rest :: BodyFailsBehind(b, l, toks, nodes, rest, e)
  }

  ghost predicate BodyFailsBehind(b: MessageBuilder, l: Layout, toks: seq<Field>, nodes: seq<Node>, rest: seq<Field>,
                                  e: ParserError)
    requires WellFormed(l)
  {
    && toks == FlatNodes(nodes) + rest
    && if rest == [] then EndsPlain(b, l, nodes) && e == Malformed
       else PrefixConforms(b, l, nodes, rest[0].tag) && BodyFailsAt(b, l, rest, e)
  }

  /** A conforming beginning of a body that ends in a field counting no group. */
  ghost predicate EndsPlain(b: MessageBuilder, l: Layout, nodes: seq<Node>)
    requires WellFormed(l)
  {
    nodes == [] || (PrefixConforms(b, l, nodes, CHECK_SUM) && nodes[|nodes| - 1].entries == [])
  }

  lemma {:induction false} StepRejected(b: MessageBuilder, l: Layout, toks: seq<Field>, e: ParserError)
    requires WellFormed(l) && toks != []
    ensures NextBodyStep(b, l, toks) == Reject(e) <==> BodyFailsAt(b, l, toks, e)
  {
    var t := toks[0].tag;
    if Declares(l, t) && t in b.fieldTags && GroupFor(l, t).Some? {
      var g := GroupFor(l, t).value;
      hide RunFails, FirstMissing, BuildRun, ParseRun, RunConforms;
      RunRejected(b, g, toks[1..], e);
      LacksRejected(b, g, toks[1..], e);
    }
  }

  lemma {:induction false} LacksRejected(b: MessageBuilder, g: GroupSpec, toks: seq<Field>, e: ParserError)
    requires WellFormedGroup(g)
    ensures RunLacks(b, g, toks, e) <==>
            ParseRun(b, g, toks).Ok? && FirstMissing(g, BuildRun(g, ParseRun(b, g, toks).value.entries)) == Some(e)
  {
    hide FirstMissing, BuildRun, ParseRun, RunConforms;
    if ParseRun(b, g, toks).Ok? {
      RunSound(b, g, toks);
    }
    if RunLacks(b, g, toks, e) {
      var entries: seq<Entry>, rest: seq<Field> :|
        && rest != [] && toks == FlatEntries(entries) + rest && RunConforms(b, g, entries, rest[0].tag)
        && FirstMissing(g, BuildRun(g, entries)) == Some(e);
      RunComplete(b, g, entries, rest);
    }
  }

  /** Reading a conforming beginning leaves the rest to be read. */
  lemma {:induction false} BodyAdvance(b: MessageBuilder, l: Layout, done: seq<Node>, nodes: seq<Node>,
                                       rest: seq<Field>)
    requires WellFormed(l) && rest != [] && PrefixConforms(b, l, nodes, rest[0].tag)
    ensures ParseBody(b, l, done, FlatNodes(nodes) + rest) == ParseBody(b, l, done + nodes, rest)
    decreases |nodes|
  {
    hide *;
    if nodes == [] {
      NoEntries();
      assert done + nodes == done && FlatNodes(nodes) + rest == rest;
    } else {
      PrefixHead(b, l, nodes, rest);
      FlatCons(nodes, rest);
      BodyStepComplete(b, l, nodes[0], FlatNodes(nodes[1..]) + rest);
      BodyUnfold(b, l, done, FlatNodes(nodes) + rest);
      BodyAdvance(b, l, done + [nodes[0]], nodes[1..], rest);
      assert done + [nodes[0]] + nodes[1..] == done + nodes;
    }
  }

  lemma PrefixHead(b: MessageBuilder, l: Layout, nodes: seq<Node>, rest: seq<Field>)
    requires WellFormed(l) && nodes != [] && rest != [] && PrefixConforms(b, l, nodes, rest[0].tag)
    ensures (FlatNodes(nodes[1..]) + rest) != []
    ensures BodyNodeConforms(b, l, nodes[0], (FlatNodes(nodes[1..]) + rest)[0].tag)
    ensures PrefixConforms(b, l, nodes[1..], rest[0].tag)
  {
    hide BodyNodeConforms;
    assert (FlatNodes(nodes[1..]) + rest)[0].tag == NextTag(nodes, 0, rest[0].tag);
    var more, follow := nodes[1..], rest[0].tag;
    forall i | 0 <= i < |more| ensures BodyNodeConforms(b, l, more[i], NextTag(more, i, follow)) {
      assert more[i] == nodes[i + 1] && NextTag(more, i, follow) == NextTag(nodes, i + 1, follow);
    }
  }

  lemma {:induction false} BodyFailsError(b: MessageBuilder, l: Layout, toks: seq<Field>, e: ParserError)
    requires WellFormed(l) && BodyFails(b, l, toks, e)
    ensures ParseBody(b, l, [], toks) == Err(e)
  {
    hide EndsPlain, PrefixConforms, BodyFailsAt, ParseBody, FlatNodes, NextBodyStep;
    var nodes, rest :| BodyFailsBehind(b, l, toks, nodes, rest, e);
    if rest == [] {
      BodyCutOff(b, l, nodes);
      assert toks == FlatNodes(nodes);
    } else {
      BodyAdvance(b, l, [], nodes, rest);
      StepRejects(b, l, [] + nodes, rest, e);
    }
  }

  lemma StepRejects(b: MessageBuilder, l: Layout, done: seq<Node>, rest: seq<Field>, e: ParserError)
    requires WellFormed(l) && rest != [] && BodyFailsAt(b, l, rest, e)
    ensures ParseBody(b, l, done, rest) == Err(e)
  {
    hide *;
    StepRejected(b, l, rest, e);
    BodyUnfold(b, l, done, rest);
  }

  lemma {:induction false} BodyCutOff(b: MessageBuilder, l: Layout, nodes: seq<Node>)
    requires WellFormed(l) && EndsPlain(b, l, nodes)
    ensures ParseBody(b, l, [], FlatNodes(nodes)) == Err(Malformed)
  {
    NoEntries();
    if nodes != [] {
      var k := |nodes| - 1;
      var n, front := nodes[k], nodes[..k];
      assert nodes == front + [n];
      assert BodyNodeConforms(b, l, n, NextTag(nodes, k, CHECK_SUM));
      PrefixFront(b, l, nodes, CHECK_SUM);
      PlainTaken(b, l, n, NextTag(nodes, k, CHECK_SUM));
      hide *;
      FlatNodesConcat(front, [n]);
      FlatSingleNode(n);
      assert FlatNodes(nodes) == FlatNodes(front) + [n.field];
      BodyAdvance(b, l, [], front, [n.field]);
      BodyUnfold(b, l, [] + front, [n.field]);
      NothingLeft(b, l, [] + front + [n]);
    }
  }

  lemma NothingLeft(b: MessageBuilder, l: Layout, done: seq<Node>)
    requires WellFormed(l)
    ensures ParseBody(b, l, done, []) == Err(Malformed)
  {}

  lemma PrefixFront(b: MessageBuilder, l: Layout, nodes: seq<Node>, follow: Tag)
    requires WellFormed(l) && nodes != [] && PrefixConforms(b, l, nodes, follow)
    ensures PrefixConforms(b, l, nodes[..|nodes| - 1], nodes[|nodes| - 1].field.tag)
  {
    hide BodyNodeConforms;
    var front, t := nodes[..|nodes| - 1], nodes[|nodes| - 1].field.tag;
    forall i | 0 <= i < |front| ensures BodyNodeConforms(b, l, front[i], NextTag(front, i, t)) {
      assert NextTag(front, i, t) == NextTag(nodes, i, follow);
    }
  }

  lemma {:induction false} PlainTaken(b: MessageBuilder, l: Layout, n: Node, follow: Tag)
    requires WellFormed(l) && BodyNodeConforms(b, l, n, follow) && n.entries == []
    ensures NextBodyStep(b, l, [n.field]) == Take(n, [])
  {
    assert [n.field][1..] == [] && n == Node(n.field, []);
  }

  lemma {:induction false} BodyErrorFails(b: MessageBuilder, l: Layout, all: seq<Field>, done: seq<Node>,
                                          toks: seq<Field>)
    requires WellFormed(l) && ParseBody(b, l, done, toks).Err? && all == FlatNodes(done) + toks
    requires if toks == [] then EndsPlain(b, l, done) else PrefixConforms(b, l, done, toks[0].tag)
    ensures BodyFails(b, l, all, ParseBody(b, l, done, toks).error)
    decreases |toks|
  {
    hide EndsPlain, PrefixConforms, BodyFailsAt, ParseBody, FlatNodes, NextBodyStep, BodyFails;
    if toks == [] {
      NothingLeft(b, l, done);
      FailsBehind(b, l, all, done, [], Malformed);
    } else {
      BodyUnfold(b, l, done, toks);
      match NextBodyStep(b, l, toks) {
        case Take(n, rest) =>
          TakenStands(b, l, done, toks);
          BodyErrorFails(b, l, all, done + [n], rest);
        case Reject(e) =>
          StepRejected(b, l, toks, e);
          FailsBehind(b, l, all, done, toks, e);
        case Stop =>
      }
    }
  }

  lemma FailsBehind(b: MessageBuilder, l: Layout, toks: seq<Field>, nodes: seq<Node>, rest: seq<Field>, e: ParserError)
    requires WellFormed(l) && BodyFailsBehind(b, l, toks, nodes, rest, e)
    ensures BodyFails(b, l, toks, e)
  {
    hide BodyFailsBehind;
  }

  lemma {:induction false} TakenStands(b: MessageBuilder, l: Layout, done: seq<Node>, toks: seq<Field>)
    requires WellFormed(l) && toks != [] && PrefixConforms(b, l, done, toks[0].tag) && NextBodyStep(b, l, toks).Take?
    ensures var s := NextBodyStep(b, l, toks);
            && FlatNodes(done + [s.node]) + s.rest == FlatNodes(done) + toks
            && if s.rest == [] then EndsPlain(b, l, done + [s.node])
               else PrefixConforms(b, l, done + [s.node], s.rest[0].tag)
  {
    var s := NextBodyStep(b, l, toks);
    if s.rest == [] {
      TakenLast(b, l, toks);
      hide NextBodyStep, BodyNodeConforms, PrefixConforms, FlatNodes, FlatEntries;
      NoEntries();
      PrefixSnoc(b, l, done, s.node, CHECK_SUM);
    } else {
      BodyStepSound(b, l, toks);
      hide NextBodyStep, BodyNodeConforms, PrefixConforms, FlatNodes, FlatEntries;
      PrefixSnoc(b, l, done, s.node, s.rest[0].tag);
    }
    FlatSnoc(done, s.node, s.rest, toks);
  }

  lemma {:induction false} TakenLast(b: MessageBuilder, l: Layout, toks: seq<Field>)
    requires WellFormed(l) && toks != [] && NextBodyStep(b, l, toks).Take? && NextBodyStep(b, l, toks).rest == []
    ensures var n := NextBodyStep(b, l, toks).node;
            toks == [n.field] && n == Node(toks[0], []) && BodyNodeConforms(b, l, n, CHECK_SUM)
  {
    assert toks == [toks[0]] + toks[1..];
  }

  /** A body is rejected exactly if it cannot be read, with the error of the first field that
      something is wrong with, or as malformed if there is none. */
  lemma {:induction false} BodyRejected(b: MessageBuilder, l: Layout, toks: seq<Field>, e: ParserError)
    requires WellFormed(l)
    ensures ParseBody(b, l, [], toks) == Err(e) <==> BodyFails(b, l, toks, e)
  {
    if ParseBody(b, l, [], toks) == Err(e) {
      NoEntries();
      assert EndsPlain(b, l, []);
      assert toks != [] ==> PrefixConforms(b, l, [], toks[0].tag);
      assert FlatNodes([]) + toks == toks;
      BodyErrorFails(b, l, toks, [], toks);
    }
    if BodyFails(b, l, toks, e) {
      BodyFailsError(b, l, toks, e);
    }
  }
}
