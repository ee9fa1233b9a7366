/** The group grammar: which concrete syntax a layout allows, and a parser for it over the
    list of fields still to be read. */
module Grammar {
  import opened Decimal
  import opened Fields
  import opened Layouts

  datatype ParserError =
    | InvalidField(tag: Tag)
    | InvalidGroupFieldOrder(tag: Tag, groupTag: Tag)
    | InvalidMsgType(msgType: seq<byte>)
    | RequiredFieldMissing(tag: Tag, groupTag: Tag)
    | Malformed

  // ----- the grammar -----

  /** The tag that stands right after node `i` has ended. */
  function NextTag(nodes: seq<Node>, i: nat, follow: Tag): Tag
    requires i < |nodes|
  {
    if i + 1 < |nodes| then nodes[i + 1].field.tag else follow
  }

  /** Declared tags come in strictly increasing declaration order, hence at most once. */
  predicate InOrder(l: Layout, nodes: seq<Node>) {
    forall i, j :: 0 <= i < j < |nodes| && Declares(l, nodes[i].field.tag) && Declares(l, nodes[j].field.tag)
      ==> Position(l, nodes[i].field.tag) < Position(l, nodes[j].field.tag)
  }

  /** A run of entries of group `g`, with a field of tag `follow` right behind it. */
  ghost predicate RunConforms(b: MessageBuilder, g: GroupSpec, entries: seq<Entry>, follow: Tag)
    requires WellFormedGroup(g)
    decreases entries
  {
    && entries != []
    && !Absorbs(b, g.layout, follow)
    && forall i :: 0 <= i < |entries| ==>
        EntryConforms(b, g, entries[i], if i + 1 < |entries| then Delimiter(g) else follow)
  }

  ghost predicate EntryConforms(b: MessageBuilder, g: GroupSpec, e: Entry, follow: Tag)
    requires WellFormedGroup(g)
    decreases e
  {
    && e.nodes != []
    && e.nodes[0].field.tag == Delimiter(g) && e.nodes[0].entries == []
    && InOrder(g.layout, e.nodes)
    && forall i :: 1 <= i < |e.nodes| ==> NodeConforms(b, g, e.nodes[i], NextTag(e.nodes, i, follow))
  }

  ghost predicate NodeConforms(b: MessageBuilder, g: GroupSpec, n: Node, follow: Tag)
    requires WellFormedGroup(g)
    decreases n
  {
    && n.field.tag != Delimiter(g)
    && if Declares(g.layout, n.field.tag) then
         match GroupFor(g.layout, n.field.tag)
         case Some(nested) => RunConforms(b, nested, n.entries, follow)
         case None => n.entries == []
       else
         AcceptsUnknown(b, n.field.tag) && n.entries == []
  }

  // ----- the parser -----

  datatype Parsed = Parsed(entries: seq<Entry>, rest: seq<Field>)

  /** Reads a run of entries after its count field; `rest` starts with the field that ended it. */
  function ParseRun(b: MessageBuilder, g: GroupSpec, toks: seq<Field>): (r: Result<Parsed, ParserError>)
    requires WellFormedGroup(g)
    ensures r.Ok? ==> 0 < |r.value.rest| < |toks|
    decreases |toks|, 0
  {
    if toks == [] then Err(Malformed)
    else if toks[0].tag != Delimiter(g) then Err(InvalidGroupFieldOrder(toks[0].tag, g.countTag))
    else ParseEntries(b, g, [], [Node(toks[0], [])], 1, toks[1..])
  }

  /** What the field at hand does to the open entry: it joins it (with the nested run it
      counts), opens the next entry, ends the run, or is out of place. */
  datatype Step =
    | Join(node: Node, next: nat, rest: seq<Field>)
    | Open
    | End
    | Fail(error: ParserError)

  function NextStep(b: MessageBuilder, g: GroupSpec, next: nat, toks: seq<Field>): (s: Step)
    requires WellFormedGroup(g) && toks != []
    ensures s.Join? ==> |s.rest| < |toks|
    decreases |toks|, 1
  {
    var f := toks[0];
    if f.tag == Delimiter(g) then Open
    else if Declares(g.layout, f.tag) then
      var position := Position(g.layout, f.tag);
      if position < next then Fail(InvalidGroupFieldOrder(f.tag, g.countTag))
      else
        match GroupFor(g.layout, f.tag)
        case None => Join(Node(f, []), position + 1, toks[1..])
        case Some(nested) =>
          match ParseRun(b, nested, toks[1..])
          case Err(e) => Fail(e)
          case Ok(p) => Join(Node(f, p.entries), position + 1, p.rest)
    else if AcceptsUnknown(b, f.tag) then Join(Node(f, []), next, toks[1..])
    else End
  }

  /** Carries on with `done` entries complete, `cur` open, and the declared fields before
      position `next` used up. */
  function ParseEntries(b: MessageBuilder, g: GroupSpec, done: seq<Entry>, cur: seq<Node>, next: nat,
                        toks: seq<Field>): (r: Result<Parsed, ParserError>)
    requires WellFormedGroup(g)
    ensures r.Ok? ==> 0 < |r.value.rest| <= |toks|
    decreases |toks|, 2
  {
    if toks == [] then Err(Malformed)
    else
      match NextStep(b, g, next, toks)
      case Fail(e) => Err(e)
      case Join(n, next', rest) => ParseEntries(b, g, done, cur + [n], next', rest)
      case Open => ParseEntries(b, g, done + [Entry(cur)], [Node(toks[0], [])], 1, toks[1..])
      case End => Ok(Parsed(done + [Entry(cur)], toks))
  }

  // ----- soundness: whatever is accepted is in the grammar, and nothing is lost -----

  lemma {:induction false} RunSound(b: MessageBuilder, g: GroupSpec, toks: seq<Field>)
    requires WellFormedGroup(g) && ParseRun(b, g, toks).Ok?
    ensures var p := ParseRun(b, g, toks).value;
            FlatEntries(p.entries) + p.rest == toks && RunConforms(b, g, p.entries, p.rest[0].tag)
    decreases |toks|, 0
  {
    var cur := [Node(toks[0], [])];
    EntriesSound(b, g, [], cur, 1, toks[1..]);
    FlatSingleNode(cur[0]);
    assert [toks[0]] + toks[1..] == toks;
    assert FlatEntries([]) + FlatNodes(cur) + toks[1..] == [toks[0]] + toks[1..];
  }

  ghost predicate OpenEntry(b: MessageBuilder, g: GroupSpec, cur: seq<Node>, next: nat, follow: Tag)
    requires WellFormedGroup(g)
  {
    && EntryConforms(b, g, Entry(cur), follow)
    && 1 <= next
    && forall i :: 0 <= i < |cur| && Declares(g.layout, cur[i].field.tag) ==>
        Position(g.layout, cur[i].field.tag) < next
  }

  ghost predicate DoneEntries(b: MessageBuilder, g: GroupSpec, done: seq<Entry>)
    requires WellFormedGroup(g)
  {
    forall i :: 0 <= i < |done| ==> EntryConforms(b, g, done[i], Delimiter(g))
  }

  ghost predicate Advances(l: Layout, next: nat, tag: Tag, next': nat) {
    if Declares(l, tag) then next <= Position(l, tag) && next' == Position(l, tag) + 1 else next' == next
  }

  /** A field that joins brings a conforming node with it. */
  lemma {:induction false} StepSound(b: MessageBuilder, g: GroupSpec, next: nat, toks: seq<Field>)
    requires WellFormedGroup(g) && toks != []
    requires var s := NextStep(b, g, next, toks); s.Join? && s.rest != []
    ensures var s := NextStep(b, g, next, toks);
            && toks == [s.node.field] + (FlatEntries(s.node.entries) + s.rest)
            && s.node.field == toks[0]
            && NodeConforms(b, g, s.node, s.rest[0].tag)
            && Advances(g.layout, next, toks[0].tag, s.next)
    decreases |toks|, 1
  {
    assert toks == [toks[0]] + toks[1..];
    if Declares(g.layout, toks[0].tag) && GroupFor(g.layout, toks[0].tag).Some? {
      RunSound(b, GroupFor(g.layout, toks[0].tag).value, toks[1..]);
    }
  }

  /** Adding a conforming node keeps the open entry in the grammar. */
  lemma ExtendOpen(b: MessageBuilder, g: GroupSpec, cur: seq<Node>, next: nat, n: Node, next': nat, follow: Tag)
    requires WellFormedGroup(g) && OpenEntry(b, g, cur, next, n.field.tag)
    requires NodeConforms(b, g, n, follow) && Advances(g.layout, next, n.field.tag, next')
    ensures OpenEntry(b, g, cur + [n], next', follow)
  {
    hide NodeConforms;
    var nodes := cur + [n];
    forall i | 1 <= i < |nodes| ensures NodeConforms(b, g, nodes[i], NextTag(nodes, i, follow)) {
      if i < |cur| {
        assert NextTag(nodes, i, follow) == NextTag(cur, i, n.field.tag);
      }
    }
  }

  lemma {:induction false} EntriesSound(b: MessageBuilder, g: GroupSpec, done: seq<Entry>, cur: seq<Node>,
                                        next: nat, toks: seq<Field>)
    requires WellFormedGroup(g) && ParseEntries(b, g, done, cur, next, toks).Ok?
    requires DoneEntries(b, g, done) && OpenEntry(b, g, cur, next, toks[0].tag)
    ensures var p := ParseEntries(b, g, done, cur, next, toks).value;
            && FlatEntries(p.entries) + p.rest == FlatEntries(done) + FlatNodes(cur) + toks
            && RunConforms(b, g, p.entries, p.rest[0].tag)
    decreases |toks|, 2
  {
    hide *;
    StepsUnfold(b, g, done, cur, next, toks);
    match NextStep(b, g, next, toks)
    case Join(n, next', rest) =>
      StepSound(b, g, next, toks);
      ExtendOpen(b, g, cur, next, n, next', rest[0].tag);
      TakeNode(done, cur, n, rest, toks);
      EntriesSound(b, g, done, cur + [n], next', rest);
    case Open =>
      CloseEntry(done, cur, toks[0], toks[1..]);
      assert toks == [toks[0]] + toks[1..];
      OpenFresh(b, g, toks[0], toks[1..][0].tag);
      DoneSnoc(b, g, done, cur, next, toks[0].tag);
      EntriesSound(b, g, done + [Entry(cur)], [Node(toks[0], [])], 1, toks[1..]);
    case End =>
      LastEntry(b, g, done, cur, next, toks);
  }

  lemma {:induction false} StepsUnfold(b: MessageBuilder, g: GroupSpec, done: seq<Entry>, cur: seq<Node>,
                                       next: nat, toks: seq<Field>)
    requires WellFormedGroup(g) && ParseEntries(b, g, done, cur, next, toks).Ok?
    ensures toks != []
    ensures var r := ParseEntries(b, g, done, cur, next, toks);
            match NextStep(b, g, next, toks)
            case Fail(_) => false
            case Join(n, next', rest) => rest != [] && r == ParseEntries(b, g, done, cur + [n], next', rest)
            case Open => toks[1..] != [] && toks[0].tag == Delimiter(g)
                         && r == ParseEntries(b, g, done + [Entry(cur)], [Node(toks[0], [])], 1, toks[1..])
            case End => r == Ok(Parsed(done + [Entry(cur)], toks)) && !Absorbs(b, g.layout, toks[0].tag)
  {}

  lemma DoneSnoc(b: MessageBuilder, g: GroupSpec, done: seq<Entry>, cur: seq<Node>, next: nat, follow: Tag)
    requires WellFormedGroup(g) && DoneEntries(b, g, done) && OpenEntry(b, g, cur, next, follow)
    requires follow == Delimiter(g)
    ensures DoneEntries(b, g, done + [Entry(cur)])
  {}

  lemma OpenFresh(b: MessageBuilder, g: GroupSpec, f: Field, follow: Tag)
    requires WellFormedGroup(g) && f.tag == Delimiter(g)
    ensures OpenEntry(b, g, [Node(f, [])], 1, follow)
  {}

  lemma CloseEntry(done: seq<Entry>, cur: seq<Node>, f: Field, rest: seq<Field>)
    ensures FlatEntries(done + [Entry(cur)]) + FlatNodes([Node(f, [])]) + rest
            == FlatEntries(done) + FlatNodes(cur) + ([f] + rest)
  {
    FlatEntriesConcat(done, [Entry(cur)]);
    FlatSingleEntry(Entry(cur));
    FlatSingleNode(Node(f, []));
  }

  lemma TakeNode(done: seq<Entry>, cur: seq<Node>, n: Node, rest: seq<Field>, toks: seq<Field>)
    requires toks == [n.field] + (FlatEntries(n.entries) + rest)
    ensures FlatEntries(done) + FlatNodes(cur + [n]) + rest == FlatEntries(done) + FlatNodes(cur) + toks
  {
    FlatNodesConcat(cur, [n]);
    FlatSingleNode(n);
  }

  lemma LastEntry(b: MessageBuilder, g: GroupSpec, done: seq<Entry>, cur: seq<Node>, next: nat, toks: seq<Field>)
    requires WellFormedGroup(g) && toks != [] && !Absorbs(b, g.layout, toks[0].tag)
    requires DoneEntries(b, g, done) && OpenEntry(b, g, cur, next, toks[0].tag)
    ensures FlatEntries(done + [Entry(cur)]) + toks == FlatEntries(done) + FlatNodes(cur) + toks
    ensures RunConforms(b, g, done + [Entry(cur)], toks[0].tag)
  {
    FlatEntriesConcat(done, [Entry(cur)]);
    FlatSingleEntry(Entry(cur));
  }

  // ----- completeness: whatever is in the grammar is accepted, unchanged -----

  /** The fields still to come: the rest of the open entry, further entries, and what follows. */
  function Ahead(nodes: seq<Node>, entries: seq<Entry>, rest: seq<Field>): seq<Field> {
    FlatNodes(nodes) + FlatEntries(entries) + rest
  }

  lemma {:induction false} AheadNode(nodes: seq<Node>, entries: seq<Entry>, rest: seq<Field>)
    requires nodes != []
    ensures Ahead(nodes, entries, rest)
            == [nodes[0].field] + (FlatEntries(nodes[0].entries) + Ahead(nodes[1..], entries, rest))
  {}

  lemma {:induction false} FlatPlainHead(nodes: seq<Node>)
    requires nodes != [] && nodes[0].entries == []
    ensures FlatNodes(nodes) == [nodes[0].field] + FlatNodes(nodes[1..])
  {
    assert FlatEntries(nodes[0].entries) == [];
  }

  lemma {:induction false} AheadEntry(entries: seq<Entry>, rest: seq<Field>)
    requires entries != [] && entries[0].nodes != [] && entries[0].nodes[0].entries == []
    ensures Ahead([], entries, rest)
            == [entries[0].nodes[0].field] + Ahead(entries[0].nodes[1..], entries[1..], rest)
  {
    var nodes := entries[0].nodes;
    FlatPlainHead(nodes);
    assert FlatEntries(entries) == FlatNodes(nodes) + FlatEntries(entries[1..]);
  }

  lemma {:induction false} RunComplete(b: MessageBuilder, g: GroupSpec, entries: seq<Entry>, rest: seq<Field>)
    requires WellFormedGroup(g) && rest != [] && RunConforms(b, g, entries, rest[0].tag)
    ensures ParseRun(b, g, FlatEntries(entries) + rest) == Ok(Parsed(entries, rest))
    decreases |FlatEntries(entries) + rest|, 0
  {
    var e := entries[0];
    assert e.nodes == [e.nodes[0]] + e.nodes[1..];
    assert Ahead([], entries, rest) == FlatEntries(entries) + rest;
    AheadEntry(entries, rest);
    EntriesComplete(b, g, [], [e.nodes[0]], 1, e.nodes[1..], entries[1..], rest);
    assert [] + [Entry(e.nodes)] + entries[1..] == entries;
  }

  ghost predicate Upcoming(b: MessageBuilder, g: GroupSpec, cur: seq<Node>, next: nat, nodes: seq<Node>,
                           entries: seq<Entry>, follow: Tag)
    requires WellFormedGroup(g)
  {
    && cur != []
    && EntryConforms(b, g, Entry(cur + nodes), if entries == [] then follow else Delimiter(g))
    && (forall i :: 0 <= i < |nodes| && Declares(g.layout, nodes[i].field.tag) ==>
          next <= Position(g.layout, nodes[i].field.tag))
    && forall i :: 0 <= i < |entries| ==>
        EntryConforms(b, g, entries[i], if i + 1 < |entries| then Delimiter(g) else follow)
  }

  lemma AheadTag(b: MessageBuilder, g: GroupSpec, cur: seq<Node>, next: nat, nodes: seq<Node>,
                 entries: seq<Entry>, rest: seq<Field>)
    requires WellFormedGroup(g) && rest != [] && nodes != []
    requires Upcoming(b, g, cur, next, nodes, entries, rest[0].tag)
    ensures var toks := Ahead(nodes[1..], entries, rest);
            toks != [] && NodeConforms(b, g, nodes[0], toks[0].tag)
  {
    var all, follow := cur + nodes, if entries == [] then rest[0].tag else Delimiter(g);
    assert all[|cur|] == nodes[0];
    assert NodeConforms(b, g, all[|cur|], NextTag(all, |cur|, follow));
    if |nodes| > 1 {
      AheadNode(nodes[1..], entries, rest);
    } else if entries != [] {
      assert entries[0].nodes[0].field.tag == Delimiter(g);
      AheadEntry(entries, rest);
    }
  }

  /** A conforming node joins the open entry again. */
  lemma {:induction false} StepComplete(b: MessageBuilder, g: GroupSpec, next: nat, n: Node, next': nat,
                                        rest: seq<Field>)
    requires WellFormedGroup(g) && rest != []
    requires NodeConforms(b, g, n, rest[0].tag) && Advances(g.layout, next, n.field.tag, next')
    ensures NextStep(b, g, next, [n.field] + (FlatEntries(n.entries) + rest)) == Join(n, next', rest)
    decreases |FlatEntries(n.entries) + rest|, 1
  {
    var toks := [n.field] + (FlatEntries(n.entries) + rest);
    assert toks[1..] == FlatEntries(n.entries) + rest;
    if Declares(g.layout, n.field.tag) && GroupFor(g.layout, n.field.tag).Some? {
      RunComplete(b, GroupFor(g.layout, n.field.tag).value, n.entries, rest);
    } else {
      assert toks[1..] == rest && n == Node(n.field, []);
    }
  }

  lemma UpcomingNode(b: MessageBuilder, g: GroupSpec, cur: seq<Node>, next: nat, nodes: seq<Node>,
                     entries: seq<Entry>, follow: Tag) returns (next': nat)
    requires WellFormedGroup(g) && nodes != []
    requires Upcoming(b, g, cur, next, nodes, entries, follow)
    ensures Advances(g.layout, next, nodes[0].field.tag, next')
    ensures Upcoming(b, g, cur + [nodes[0]], next', nodes[1..], entries, follow)
  {
    var l, tag := g.layout, nodes[0].field.tag;
    next' := if Declares(l, tag) then Position(l, tag) + 1 else next;
    var all := cur + nodes;
    assert all == cur + [nodes[0]] + nodes[1..] && all[|cur|] == nodes[0];
    forall i | 0 <= i < |nodes[1..]| && Declares(l, nodes[1..][i].field.tag)
      ensures next' <= Position(l, nodes[1..][i].field.tag)
    {
      assert all[|cur| + 1 + i] == nodes[1..][i] == nodes[i + 1];
    }
  }

  lemma UpcomingEntry(b: MessageBuilder, g: GroupSpec, cur: seq<Node>, next: nat, entries: seq<Entry>, follow: Tag)
    requires WellFormedGroup(g) && entries != []
    requires Upcoming(b, g, cur, next, [], entries, follow)
    ensures entries[0].nodes != [] && entries[0].nodes[0].entries == [] && entries[0].nodes[0].field.tag == Delimiter(g)
    ensures Upcoming(b, g, [entries[0].nodes[0]], 1, entries[0].nodes[1..], entries[1..], follow)
  {
    var e := entries[0];
    assert [e.nodes[0]] + e.nodes[1..] == e.nodes && Entry(e.nodes) == e;
  }

  lemma {:induction false} EntriesComplete(b: MessageBuilder, g: GroupSpec, done: seq<Entry>, cur: seq<Node>, next: nat,
                                           nodes: seq<Node>, entries: seq<Entry>, rest: seq<Field>)
    requires WellFormedGroup(g) && rest != [] && !Absorbs(b, g.layout, rest[0].tag)
    requires Upcoming(b, g, cur, next, nodes, entries, rest[0].tag)
    ensures ParseEntries(b, g, done, cur, next, Ahead(nodes, entries, rest))
            == Ok(Parsed(done + [Entry(cur + nodes)] + entries, rest))
    decreases |Ahead(nodes, entries, rest)|, 2
  {
    hide *;
    if nodes != [] {
      AheadNode(nodes, entries, rest);
      AheadTag(b, g, cur, next, nodes, entries, rest);
      var next' := UpcomingNode(b, g, cur, next, nodes, entries, rest[0].tag);
      var toks := Ahead(nodes[1..], entries, rest);
      StepComplete(b, g, next, nodes[0], next', toks);
      JoinsEntry(b, g, done, cur, next, Ahead(nodes, entries, rest));
      EntriesComplete(b, g, done, cur + [nodes[0]], next', nodes[1..], entries, rest);
      assert cur + [nodes[0]] + nodes[1..] == cur + nodes;
    } else if entries != [] {
      UpcomingEntry(b, g, cur, next, entries, rest[0].tag);
      var e := entries[0];
      AheadEntry(entries, rest);
      OpensEntry(b, g, done, cur, next, e.nodes[0], Ahead(e.nodes[1..], entries[1..], rest));
      EntriesComplete(b, g, done + [Entry(cur)], [e.nodes[0]], 1, e.nodes[1..], entries[1..], rest);
      Regroup(done, cur, entries);
    } else {
      EndsRun(b, g, done, cur, next, rest);
    }
  }

  lemma {:induction false} JoinsEntry(b: MessageBuilder, g: GroupSpec, done: seq<Entry>, cur: seq<Node>, next: nat,
                                      toks: seq<Field>)
    requires WellFormedGroup(g) && toks != [] && NextStep(b, g, next, toks).Join?
    ensures var s := NextStep(b, g, next, toks);
            ParseEntries(b, g, done, cur, next, toks) == ParseEntries(b, g, done, cur + [s.node], s.next, s.rest)
  {}

  lemma {:induction false} EndsRun(b: MessageBuilder, g: GroupSpec, done: seq<Entry>, cur: seq<Node>, next: nat,
                                   rest: seq<Field>)
    requires WellFormedGroup(g) && rest != [] && !Absorbs(b, g.layout, rest[0].tag)
    ensures ParseEntries(b, g, done, cur, next, Ahead([], [], rest)) == Ok(Parsed(done + [Entry(cur + [])] + [], rest))
  {
    assert Ahead([], [], rest) == rest && cur + [] == cur && done + [Entry(cur)] + [] == done + [Entry(cur)];
  }

  lemma {:induction false} OpensEntry(b: MessageBuilder, g: GroupSpec, done: seq<Entry>, cur: seq<Node>, next: nat,
                                      n: Node, toks: seq<Field>)
    requires WellFormedGroup(g) && n.field.tag == Delimiter(g) && n.entries == []
    ensures ParseEntries(b, g, done, cur, next, [n.field] + toks)
            == ParseEntries(b, g, done + [Entry(cur)], [n], 1, toks)
  {
    assert ([n.field] + toks)[1..] == toks && n == Node(n.field, []);
  }

  lemma Regroup(done: seq<Entry>, cur: seq<Node>, entries: seq<Entry>)
    requires entries != [] && entries[0].nodes != []
    ensures var e := entries[0];
            done + [Entry(cur)] + [Entry([e.nodes[0]] + e.nodes[1..])] + entries[1..]
              == done + [Entry(cur + [])] + entries
  {
    var e := entries[0];
    assert [e.nodes[0]] + e.nodes[1..] == e.nodes && cur + [] == cur;
  }
}
