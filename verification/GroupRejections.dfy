/** When the group parser gives up, and what it then says. */
module GroupRejections {
  import opened Decimal
  import opened Fields
  import opened Layouts
  import opened Grammar

  // ----- what counts as a failure -----

  /** A declared field as early in the declaration as one the entry already has. */
  predicate OutOfOrder(l: Layout, cur: seq<Node>, tag: Tag) {
    && Declares(l, tag)
    && exists i :: 0 <= i < |cur| && Declares(l, cur[i].field.tag) && Position(l, tag) <= Position(l, cur[i].field.tag)
  }

  /** `toks` starts with complete entries and an open one, up to the field at the head of
      `rest`; if nothing is left, the open entry ends in a field that counts no group. */
  ghost predicate Reached(b: MessageBuilder, g: GroupSpec, toks: seq<Field>, done: seq<Entry>, cur: seq<Node>,
                          rest: seq<Field>)
    requires WellFormedGroup(g)
  {
    && toks == FlatEntries(done) + FlatNodes(cur) + rest
    && DoneEntries(b, g, done)
    && EntryConforms(b, g, Entry(cur), if rest == [] then Delimiter(g) else rest[0].tag)
    && (rest == [] ==> cur[|cur| - 1].entries == [])
  }

  /** The run cannot be read: it does not open with its delimiter, its fields run out, a field is
      out of order, or a nested run cannot be read. */
  ghost predicate RunFails(b: MessageBuilder, g: GroupSpec, toks: seq<Field>, e: ParserError)
    requires WellFormedGroup(g)
    decreases |toks|, 1
  {
    if toks == [] then e == Malformed
    else if toks[0].tag != Delimiter(g) then e == InvalidGroupFieldOrder(toks[0].tag, g.countTag)
    else exists done, cur, rest ::
           Reached(b, g, toks, done, cur, rest) && |rest| < |toks| && FailsAt(b, g, cur, rest, e)
  }

  ghost predicate FailsAt(b: MessageBuilder, g: GroupSpec, cur: seq<Node>, rest: seq<Field>, e: ParserError)
    requires WellFormedGroup(g)
    decreases |rest|, 2
  {
    if rest == [] then e == Malformed
    else
      var t := rest[0].tag;
      && t != Delimiter(g) && Declares(g.layout, t)
      && if OutOfOrder(g.layout, cur, t) then e == InvalidGroupFieldOrder(t, g.countTag)
         else GroupFor(g.layout, t).Some? && RunFails(b, GroupFor(g.layout, t).value, rest[1..], e)
  }

  // ----- how far the declared fields of an entry are used up -----

  /** One behind the last declared field of the entry. */
  function NextOf(l: Layout, cur: seq<Node>): nat {
    if cur == [] then 0
    else
      var t := cur[|cur| - 1].field.tag;
      if Declares(l, t) then Position(l, t) + 1 else NextOf(l, cur[..|cur| - 1])
  }

  lemma {:induction false} NextOfBounds(l: Layout, cur: seq<Node>)
    requires InOrder(l, cur)
    ensures forall i :: 0 <= i < |cur| && Declares(l, cur[i].field.tag) ==>
              Position(l, cur[i].field.tag) < NextOf(l, cur)
    ensures NextOf(l, cur) > 0 ==>
              exists i :: 0 <= i < |cur| && Declares(l, cur[i].field.tag)
                && Position(l, cur[i].field.tag) + 1 == NextOf(l, cur)
  {
    if cur != [] {
      var front, last := cur[..|cur| - 1], |cur| - 1;
      if Declares(l, cur[last].field.tag) {
        assert Position(l, cur[last].field.tag) + 1 == NextOf(l, cur);
      } else {
        assert forall i :: 0 <= i < |front| ==> front[i] == cur[i];
        NextOfBounds(l, front);
        if NextOf(l, front) > 0 {
          var i :| 0 <= i < |front| && Declares(l, front[i].field.tag)
            && Position(l, front[i].field.tag) + 1 == NextOf(l, front);
          assert cur[i] == front[i];
        }
      }
    }
  }

  lemma {:induction false} OutOfOrderMeans(l: Layout, cur: seq<Node>, tag: Tag)
    requires InOrder(l, cur) && Declares(l, tag)
    ensures OutOfOrder(l, cur, tag) <==> Position(l, tag) < NextOf(l, cur)
  {
    NextOfBounds(l, cur);
    if Position(l, tag) < NextOf(l, cur) {
      var i :| 0 <= i < |cur| && Declares(l, cur[i].field.tag) && Position(l, cur[i].field.tag) + 1 == NextOf(l, cur);
    }
  }

  lemma NextOfSnoc(l: Layout, cur: seq<Node>, n: Node)
    ensures NextOf(l, cur + [n]) == if Declares(l, n.field.tag) then Position(l, n.field.tag) + 1 else NextOf(l, cur)
  {
    assert (cur + [n])[..|cur|] == cur;
  }

  lemma NextOfFresh(g: GroupSpec, n: Node)
    requires WellFormedGroup(g) && n.field.tag == Delimiter(g)
    ensures NextOf(g.layout, [n]) == 1
  {
    assert [n][..0] == [];
  }

  // ----- every error has its failure -----

  /** Where the parser stands: entries done, one open. */
  ghost predicate Standing(b: MessageBuilder, g: GroupSpec, all: seq<Field>, done: seq<Entry>, cur: seq<Node>,
                           next: nat,
                           toks: seq<Field>)
    requires WellFormedGroup(g)
  {
    Reached(b, g, all, done, cur, toks) && next == NextOf(g.layout, cur) && |toks| < |all|
  }

  lemma {:induction false} RunErrorFails(b: MessageBuilder, g: GroupSpec, toks: seq<Field>)
    requires WellFormedGroup(g) && ParseRun(b, g, toks).Err?
    ensures RunFails(b, g, toks, ParseRun(b, g, toks).error)
    decreases |toks|, 0
  {
    if toks != [] && toks[0].tag == Delimiter(g) {
      StandingFirst(b, g, toks);
      var done, cur, rest := EntriesErrorFails(b, g, toks, [], [Node(toks[0], [])], 1, toks[1..]);
    }
  }

  lemma {:induction false} StandingFirst(b: MessageBuilder, g: GroupSpec, toks: seq<Field>)
    requires WellFormedGroup(g) && toks != [] && toks[0].tag == Delimiter(g)
    ensures Standing(b, g, toks, [], [Node(toks[0], [])], 1, toks[1..])
  {
    var n := Node(toks[0], []);
    FlatSingleNode(n);
    assert FlatEntries([]) == [];
    assert toks == FlatEntries([]) + FlatNodes([n]) + toks[1..];
    NextOfFresh(g, n);
  }

  lemma {:induction false} EntriesErrorFails(b: MessageBuilder, g: GroupSpec, all: seq<Field>, done: seq<Entry>,
                                             cur: seq<Node>, next: nat, toks: seq<Field>)
    returns (done': seq<Entry>, cur': seq<Node>, rest: seq<Field>)
    requires WellFormedGroup(g) && Standing(b, g, all, done, cur, next, toks)
    requires ParseEntries(b, g, done, cur, next, toks).Err?
    ensures Reached(b, g, all, done', cur', rest) && |rest| < |all|
    ensures FailsAt(b, g, cur', rest, ParseEntries(b, g, done, cur, next, toks).error)
    decreases |toks|, 2
  {
    done', cur', rest := done, cur, toks;
    if toks != [] {
      match NextStep(b, g, next, toks)
      case Join(n, next', rest') =>
        StandingJoined(b, g, all, done, cur, next, toks);
        JoinsEntry(b, g, done, cur, next, toks);
        done', cur', rest := EntriesErrorFails(b, g, all, done, cur + [n], next', rest');
      case Open =>
        StandingOpened(b, g, all, done, cur, next, toks);
        done', cur', rest := EntriesErrorFails(b, g, all, done + [Entry(cur)], [Node(toks[0], [])], 1, toks[1..]);
      case Fail(e) =>
        StepErrorFails(b, g, cur, next, toks);
      case End =>
    }
  }

  lemma {:induction false} StepErrorFails(b: MessageBuilder, g: GroupSpec, cur: seq<Node>, next: nat, toks: seq<Field>)
    requires WellFormedGroup(g) && toks != [] && InOrder(g.layout, cur) && next == NextOf(g.layout, cur)
    requires NextStep(b, g, next, toks).Fail?
    ensures FailsAt(b, g, cur, toks, NextStep(b, g, next, toks).error)
    decreases |toks|, 1
  {
    var t := toks[0].tag;
    OutOfOrderMeans(g.layout, cur, t);
    if Position(g.layout, t) >= next {
      RunErrorFails(b, GroupFor(g.layout, t).value, toks[1..]);
    }
  }

  lemma {:induction false} OpenAt(b: MessageBuilder, g: GroupSpec, cur: seq<Node>, follow: Tag)
    requires WellFormedGroup(g) && EntryConforms(b, g, Entry(cur), follow)
    ensures OpenEntry(b, g, cur, NextOf(g.layout, cur), follow) && InOrder(g.layout, cur)
  {
    NextOfBounds(g.layout, cur);
    assert cur[0].field.tag == Delimiter(g);
    hide NodeConforms;
  }

  lemma {:induction false} JoinedLast(b: MessageBuilder, g: GroupSpec, next: nat, toks: seq<Field>)
    requires WellFormedGroup(g) && toks != []
    requires var s := NextStep(b, g, next, toks); s.Join? && s.rest == []
    ensures var s := NextStep(b, g, next, toks);
            && toks == [s.node.field] && s.node == Node(toks[0], [])
            && NodeConforms(b, g, s.node, Delimiter(g)) && Advances(g.layout, next, toks[0].tag, s.next)
  {
    assert toks == [toks[0]] + toks[1..];
  }

  lemma {:induction false} StandingJoined(b: MessageBuilder, g: GroupSpec, all: seq<Field>, done: seq<Entry>,
                                          cur: seq<Node>, next: nat, toks: seq<Field>)
    requires WellFormedGroup(g) && Standing(b, g, all, done, cur, next, toks) && toks != []
    requires NextStep(b, g, next, toks).Join?
    ensures var s := NextStep(b, g, next, toks); Standing(b, g, all, done, cur + [s.node], s.next, s.rest)
  {
    hide NextStep, NodeConforms, EntryConforms, DoneEntries, Advances, OpenEntry, FlatNodes, FlatEntries, NextOf;
    var s := NextStep(b, g, next, toks);
    OpenAt(b, g, cur, toks[0].tag);
    var follow := if s.rest == [] then Delimiter(g) else s.rest[0].tag;
    if s.rest == [] {
      JoinedLast(b, g, next, toks);
      NoEntries();
    } else {
      StepSound(b, g, next, toks);
    }
    ExtendOpen(b, g, cur, next, s.node, s.next, follow);
    TakeNode(done, cur, s.node, s.rest, toks);
    Joined(b, g, cur, next, s.node, s.next, follow);
  }

  lemma NoEntries()
    ensures FlatEntries([]) == [] && FlatNodes([]) == []
  {}

  lemma Joined(b: MessageBuilder, g: GroupSpec, cur: seq<Node>, next: nat, n: Node, next': nat, follow: Tag)
    requires WellFormedGroup(g) && OpenEntry(b, g, cur + [n], next', follow)
    requires next == NextOf(g.layout, cur) && Advances(g.layout, next, n.field.tag, next')
    ensures EntryConforms(b, g, Entry(cur + [n]), follow) && next' == NextOf(g.layout, cur + [n])
  {
    hide EntryConforms;
    NextOfSnoc(g.layout, cur, n);
  }

  lemma {:induction false} StandingOpened(b: MessageBuilder, g: GroupSpec, all: seq<Field>, done: seq<Entry>,
                                          cur: seq<Node>, next: nat, toks: seq<Field>)
    requires WellFormedGroup(g) && Standing(b, g, all, done, cur, next, toks) && toks != []
    requires toks[0].tag == Delimiter(g)
    ensures Standing(b, g, all, done + [Entry(cur)], [Node(toks[0], [])], 1, toks[1..])
  {
    hide EntryConforms, OpenEntry, FlatNodes, FlatEntries, NextOf;
    OpenAt(b, g, cur, toks[0].tag);
    DoneSnoc(b, g, done, cur, next, toks[0].tag);
    CloseEntry(done, cur, toks[0], toks[1..]);
    assert toks == [toks[0]] + toks[1..];
    FreshConforms(b, g, toks[0], if toks[1..] == [] then Delimiter(g) else toks[1].tag);
    NextOfFresh(g, Node(toks[0], []));
  }

  lemma FreshConforms(b: MessageBuilder, g: GroupSpec, f: Field, follow: Tag)
    requires WellFormedGroup(g) && f.tag == Delimiter(g)
    ensures EntryConforms(b, g, Entry([Node(f, [])]), follow)
  {}

  // ----- every failure has its error -----

  /** Reading conforming entries up to any field leaves the last of them open. */
  lemma {:induction false} EntriesAdvance(b: MessageBuilder, g: GroupSpec, done: seq<Entry>, cur: seq<Node>, next: nat,
                                          nodes: seq<Node>, entries: seq<Entry>, rest: seq<Field>)
    requires WellFormedGroup(g) && rest != [] && next == NextOf(g.layout, cur)
    requires Upcoming(b, g, cur, next, nodes, entries, rest[0].tag)
    ensures var done', cur' := Closed(done, cur + nodes, entries), LastOf(cur + nodes, entries);
            ParseEntries(b, g, done, cur, next, Ahead(nodes, entries, rest))
            == ParseEntries(b, g, done', cur', NextOf(g.layout, cur'), rest)
    decreases |Ahead(nodes, entries, rest)|
  {
    hide *;
    if nodes != [] {
      AheadNode(nodes, entries, rest);
      AheadTag(b, g, cur, next, nodes, entries, rest);
      var next' := UpcomingNode(b, g, cur, next, nodes, entries, rest[0].tag);
      StepComplete(b, g, next, nodes[0], next', Ahead(nodes[1..], entries, rest));
      JoinsEntry(b, g, done, cur, next, Ahead(nodes, entries, rest));
      Advanced(g.layout, cur, nodes[0], next');
      assert cur + [nodes[0]] + nodes[1..] == cur + nodes;
      EntriesAdvance(b, g, done, cur + [nodes[0]], next', nodes[1..], entries, rest);
    } else if entries != [] {
      UpcomingEntry(b, g, cur, next, entries, rest[0].tag);
      var e := entries[0];
      AheadEntry(entries, rest);
      OpensEntry(b, g, done, cur, next, e.nodes[0], Ahead(e.nodes[1..], entries[1..], rest));
      NextOfFresh(g, e.nodes[0]);
      EntriesAdvance(b, g, done + [Entry(cur)], [e.nodes[0]], 1, e.nodes[1..], entries[1..], rest);
      assert [e.nodes[0]] + e.nodes[1..] == e.nodes && cur + nodes == cur;
      ClosedCons(done, cur, entries);
    } else {
      assert cur + nodes == cur;
      NothingAhead(done, cur, rest);
    }
  }

  function Closed(done: seq<Entry>, cur: seq<Node>, entries: seq<Entry>): seq<Entry> {
    if entries == [] then done else done + [Entry(cur)] + entries[..|entries| - 1]
  }

  function LastOf(cur: seq<Node>, entries: seq<Entry>): seq<Node> {
    if entries == [] then cur else entries[|entries| - 1].nodes
  }

  lemma ClosedCons(done: seq<Entry>, cur: seq<Node>, entries: seq<Entry>)
    requires entries != []
    ensures Closed(done, cur, entries) == Closed(done + [Entry(cur)], entries[0].nodes, entries[1..])
    ensures LastOf(cur, entries) == LastOf(entries[0].nodes, entries[1..])
  {
    if |entries| > 1 {
      assert [Entry(entries[0].nodes)] + entries[1..][..|entries| - 2] == entries[..|entries| - 1];
    }
  }

  lemma NothingAhead(done: seq<Entry>, cur: seq<Node>, rest: seq<Field>)
    ensures Ahead([], [], rest) == rest && Closed(done, cur, []) == done && LastOf(cur, []) == cur
  {}

  lemma Advanced(l: Layout, cur: seq<Node>, n: Node, next': nat)
    requires Advances(l, NextOf(l, cur), n.field.tag, next')
    ensures next' == NextOf(l, cur + [n])
  {
    NextOfSnoc(l, cur, n);
  }

  /** The run parser gets to every field it can be led up to. */
  lemma {:induction false} RunReached(b: MessageBuilder, g: GroupSpec, toks: seq<Field>, done: seq<Entry>,
                                      cur: seq<Node>, rest: seq<Field>)
    requires WellFormedGroup(g) && Reached(b, g, toks, done, cur, rest) && rest != []
    ensures ParseRun(b, g, toks) == ParseEntries(b, g, done, cur, NextOf(g.layout, cur), rest)
  {
    var entries := done + [Entry(cur)];
    var e := entries[0];
    assert e.nodes != [] && e.nodes[0].field.tag == Delimiter(g) && e.nodes[0].entries == [];
    assert Upcoming(b, g, [e.nodes[0]], 1, e.nodes[1..], entries[1..], rest[0].tag) by {
      FirstUpcoming(b, g, done, cur, rest[0].tag);
    }
    hide Reached, EntryConforms, DoneEntries, NodeConforms, Upcoming, ParseEntries;
    FlatEntriesConcat(done, [Entry(cur)]);
    FlatSingleEntry(Entry(cur));
    assert toks == FlatEntries(entries) + rest by {
      hide FlatEntries, FlatNodes;
      assert toks == FlatEntries(done) + FlatNodes(cur) + rest by {
        ReachedFlat(b, g, toks, done, cur, rest);
      }
    }
    assert Ahead([], entries, rest) == toks;
    AheadEntry(entries, rest);
    NextOfFresh(g, e.nodes[0]);
    FirstOpens(b, g, toks, e.nodes[0], Ahead(e.nodes[1..], entries[1..], rest));
    EntriesAdvance(b, g, [], [e.nodes[0]], 1, e.nodes[1..], entries[1..], rest);
    assert [e.nodes[0]] + e.nodes[1..] == e.nodes;
    FirstClosed(done, cur);
  }

  lemma ReachedFlat(b: MessageBuilder, g: GroupSpec, toks: seq<Field>, done: seq<Entry>, cur: seq<Node>,
                    rest: seq<Field>)
    requires WellFormedGroup(g) && Reached(b, g, toks, done, cur, rest)
    ensures toks == FlatEntries(done) + FlatNodes(cur) + rest
  {}

  lemma FirstUpcoming(b: MessageBuilder, g: GroupSpec, done: seq<Entry>, cur: seq<Node>, follow: Tag)
    requires WellFormedGroup(g) && DoneEntries(b, g, done) && EntryConforms(b, g, Entry(cur), follow)
    ensures var entries := done + [Entry(cur)];
            entries[0].nodes != []
            && Upcoming(b, g, [entries[0].nodes[0]], 1, entries[0].nodes[1..], entries[1..], follow)
  {
    var entries := done + [Entry(cur)];
    forall i | 0 <= i < |entries|
      ensures EntryConforms(b, g, entries[i], if i + 1 < |entries| then Delimiter(g) else follow)
    {
      assert i < |done| ==> entries[i] == done[i];
    }
    var e := entries[0];
    assert [e.nodes[0]] + e.nodes[1..] == e.nodes && Entry(e.nodes) == e;
    assert entries[1..] == [] <==> |entries| == 1;
    forall i | 0 <= i < |entries[1..]|
      ensures EntryConforms(b, g, entries[1..][i], if i + 1 < |entries[1..]| then Delimiter(g) else follow)
    {
      assert entries[1..][i] == entries[i + 1];
    }
  }

  lemma FirstOpens(b: MessageBuilder, g: GroupSpec, toks: seq<Field>, n: Node, more: seq<Field>)
    requires WellFormedGroup(g) && toks == [n.field] + more && n.field.tag == Delimiter(g) && n.entries == []
    ensures ParseRun(b, g, toks) == ParseEntries(b, g, [], [n], 1, more)
  {
    hide ParseEntries;
    assert toks[1..] == more && n == Node(toks[0], []);
  }

  lemma FirstClosed(done: seq<Entry>, cur: seq<Node>)
    ensures var entries := done + [Entry(cur)];
            && Closed([], entries[0].nodes, entries[1..]) == done
            && LastOf(entries[0].nodes, entries[1..]) == cur
  {
    var entries := done + [Entry(cur)];
    if done != [] {
      assert entries[1..][..|entries| - 2] == done[1..];
      assert [] + [done[0]] + done[1..] == done;
      assert entries[1..][|entries| - 2] == Entry(cur);
    }
  }

  /** What a failing field does to the parser. */
  lemma {:induction false} StepFails(b: MessageBuilder, g: GroupSpec, cur: seq<Node>, rest: seq<Field>, e: ParserError)
    requires WellFormedGroup(g) && rest != [] && InOrder(g.layout, cur) && FailsAt(b, g, cur, rest, e)
    ensures NextStep(b, g, NextOf(g.layout, cur), rest) == Fail(e)
    decreases |rest|, 1
  {
    var t := rest[0].tag;
    OutOfOrderMeans(g.layout, cur, t);
    if !OutOfOrder(g.layout, cur, t) {
      RunFailsError(b, GroupFor(g.layout, t).value, rest[1..], e);
    }
  }

  lemma StepFailed(b: MessageBuilder, g: GroupSpec, done: seq<Entry>, cur: seq<Node>, next: nat, toks: seq<Field>)
    requires WellFormedGroup(g) && toks != [] && NextStep(b, g, next, toks).Fail?
    ensures ParseEntries(b, g, done, cur, next, toks) == Err(NextStep(b, g, next, toks).error)
  {
    hide NextStep;
  }

  lemma RanOut(b: MessageBuilder, g: GroupSpec, done: seq<Entry>, cur: seq<Node>, next: nat)
    requires WellFormedGroup(g)
    ensures ParseEntries(b, g, done, cur, next, []) == Err(Malformed)
  {}

  lemma {:induction false} RunFailsError(b: MessageBuilder, g: GroupSpec, toks: seq<Field>, e: ParserError)
    requires WellFormedGroup(g) && RunFails(b, g, toks, e)
    ensures ParseRun(b, g, toks) == Err(e)
    decreases |toks|, 0
  {
    if toks != [] && toks[0].tag == Delimiter(g) {
      var done: seq<Entry>, cur: seq<Node>, rest: seq<Field> :|
        Reached(b, g, toks, done, cur, rest) && |rest| < |toks| && FailsAt(b, g, cur, rest, e);
      if rest == [] {
        CutOff(b, g, toks, done, cur);
      } else {
        RunReached(b, g, toks, done, cur, rest);
        OpenAt(b, g, cur, rest[0].tag);
        StepFails(b, g, cur, rest, e);
        StepFailed(b, g, done, cur, NextOf(g.layout, cur), rest);
      }
    }
  }

  lemma {:induction false} CutOff(b: MessageBuilder, g: GroupSpec, toks: seq<Field>, done: seq<Entry>, cur: seq<Node>)
    requires WellFormedGroup(g) && Reached(b, g, toks, done, cur, [])
    ensures ParseRun(b, g, toks) == Err(Malformed)
  {
    var k := |cur| - 1;
    var n, front := cur[k], cur[..k];
    assert cur == front + [n];
    if front != [] {
      CutInEntry(b, g, toks, done, front, n);
    } else {
      CutAtDelimiter(b, g, toks, done, n);
    }
  }

  lemma {:induction false} CutInEntry(b: MessageBuilder, g: GroupSpec, toks: seq<Field>, done: seq<Entry>,
                                      front: seq<Node>, n: Node)
    requires WellFormedGroup(g) && front != [] && Reached(b, g, toks, done, front + [n], [])
    ensures ParseRun(b, g, toks) == Err(Malformed)
  {
    var cur := front + [n];
    assert NodeConforms(b, g, cur[|front|], Delimiter(g));
    FrontConforms(b, g, front, n, Delimiter(g));
    assert n.entries == [];
    hide Reached, EntryConforms, NodeConforms, ParseEntries, ParseRun, NextOf;
    ReachedFront(b, g, toks, done, front, n);
    RunReached(b, g, toks, done, front, [n.field]);
    var next := NextOf(g.layout, front);
    PlainJoins(b, g, next, n);
    JoinsEntry(b, g, done, front, next, [n.field]);
    RanOut(b, g, done, front + [n], NextStep(b, g, next, [n.field]).next);
  }

  lemma {:induction false} FrontConforms(b: MessageBuilder, g: GroupSpec, front: seq<Node>, n: Node, follow: Tag)
    requires WellFormedGroup(g) && front != [] && EntryConforms(b, g, Entry(front + [n]), follow)
    ensures EntryConforms(b, g, Entry(front), n.field.tag)
    ensures Declares(g.layout, n.field.tag) ==> NextOf(g.layout, front) <= Position(g.layout, n.field.tag)
  {
    var cur := front + [n];
    hide NodeConforms;
    assert forall i :: 0 <= i < |front| ==> cur[i] == front[i];
    assert cur[|front|] == n;
    forall i | 1 <= i < |front| ensures NodeConforms(b, g, front[i], NextTag(front, i, n.field.tag)) {
      assert NextTag(front, i, n.field.tag) == NextTag(cur, i, follow);
    }
    NextOfBounds(g.layout, front);
  }

  lemma {:induction false} ReachedFront(b: MessageBuilder, g: GroupSpec, toks: seq<Field>, done: seq<Entry>,
                                        front: seq<Node>, n: Node)
    requires WellFormedGroup(g) && Reached(b, g, toks, done, front + [n], []) && n.entries == []
    requires EntryConforms(b, g, Entry(front), n.field.tag)
    ensures Reached(b, g, toks, done, front, [n.field])
  {
    hide EntryConforms, FlatNodes, FlatEntries;
    NoEntries();
    FlatNodesConcat(front, [n]);
    FlatSingleNode(n);
    assert FlatNodes([n]) == [n.field];
  }

  lemma {:induction false} PlainJoins(b: MessageBuilder, g: GroupSpec, next: nat, n: Node)
    requires WellFormedGroup(g) && NodeConforms(b, g, n, Delimiter(g)) && n.entries == []
    requires Declares(g.layout, n.field.tag) ==> next <= Position(g.layout, n.field.tag)
    ensures var s := NextStep(b, g, next, [n.field]); s.Join? && s.node == n && s.rest == []
  {
    assert [n.field][1..] == [] && n == Node(n.field, []);
  }

  lemma {:induction false} CutAtDelimiter(b: MessageBuilder, g: GroupSpec, toks: seq<Field>, done: seq<Entry>, n: Node)
    requires WellFormedGroup(g) && Reached(b, g, toks, done, [n], [])
    ensures ParseRun(b, g, toks) == Err(Malformed)
  {
    var f := n.field;
    assert f.tag == Delimiter(g) && n.entries == [];
    NoEntries();
    FlatSingleNode(n);
    if done == [] {
      assert toks == [f];
      FirstOpens(b, g, toks, n, []);
      RanOut(b, g, [], [n], 1);
    } else {
      var k := |done| - 1;
      assert EntryConforms(b, g, done[k], Delimiter(g)) && Entry(done[k].nodes) == done[k];
      hide EntryConforms, ParseEntries, ParseRun, FlatNodes, FlatEntries;
      assert done == done[..k] + [done[k]];
      FlatEntriesConcat(done[..k], [done[k]]);
      FlatSingleEntry(done[k]);
      assert Reached(b, g, toks, done[..k], done[k].nodes, [f]);
      RunReached(b, g, toks, done[..k], done[k].nodes, [f]);
      OpensEntry(b, g, done[..k], done[k].nodes, NextOf(g.layout, done[k].nodes), n, []);
      assert [n.field] + [] == [f];
      RanOut(b, g, done[..k] + [Entry(done[k].nodes)], [n], 1);
    }
  }

  /** A run is rejected exactly if it cannot be read, with the error of the first thing wrong:
      out of place is the field that is, with the count tag of the group it is in; malformed is
      what ends too soon. */
  lemma {:induction false} RunRejected(b: MessageBuilder, g: GroupSpec, toks: seq<Field>, e: ParserError)
    requires WellFormedGroup(g)
    ensures ParseRun(b, g, toks) == Err(e) <==> RunFails(b, g, toks, e)
  {
    hide *;
    if ParseRun(b, g, toks) == Err(e) {
      RunErrorFails(b, g, toks);
    }
    if RunFails(b, g, toks, e) {
      RunFailsError(b, g, toks, e);
    }
  }

  lemma {:induction false} RunFailsKinds(b: MessageBuilder, g: GroupSpec, toks: seq<Field>, e: ParserError)
    requires WellFormedGroup(g) && RunFails(b, g, toks, e)
    ensures e.Malformed? || e.InvalidGroupFieldOrder?
    decreases |toks|
  {
    if toks != [] && toks[0].tag == Delimiter(g) {
      var done: seq<Entry>, cur: seq<Node>, rest: seq<Field> :|
        Reached(b, g, toks, done, cur, rest) && |rest| < |toks| && FailsAt(b, g, cur, rest, e);
      hide Reached;
      if rest != [] && !OutOfOrder(g.layout, cur, rest[0].tag) {
        RunFailsKinds(b, GroupFor(g.layout, rest[0].tag).value, rest[1..], e);
      }
    }
  }
}
