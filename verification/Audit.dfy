/** The audit page: bursts folded into one line, and the log as CSV. */
module Audit {
  import opened Text
  import opened Json

  /** One event; `at` is its time in milliseconds when the text `ts` parses. */
  datatype Entry = Entry(
    id: int, ts: string, at: Moment, actor: string, action: string, entityType: string, entityId: string, detail: Json)
  datatype Moment = Unreadable | At(ms: int)

  // -------------------------------------------------------------------------
  // Bursts
  // -------------------------------------------------------------------------

  /** The newest event first. */
  datatype Group = Group(events: seq<Entry>, actor: string, action: string, entityType: string)

  const BURST_MS: int := 60000

  predicate WithinBurst(prev: Moment, next: Moment) {
    prev.At? && next.At? && prev.ms - next.ms <= BURST_MS
  }

  /** The same change by the same actor, within a minute of the one before. */
  predicate Continues(prev: Entry, e: Entry) {
    prev.actor == e.actor && prev.action == e.action && prev.entityType == e.entityType && WithinBurst(prev.at, e.at)
  }

  function Alone(e: Entry): Group { Group([e], e.actor, e.action, e.entityType) }

  ghost predicate GroupOf(g: Group) {
    && g.events != []
    && (forall e | e in g.events :: e.actor == g.actor && e.action == g.action && e.entityType == g.entityType)
    && (forall i | 0 <= i < |g.events| - 1 :: WithinBurst(g.events[i].at, g.events[i + 1].at))
  }

  function First(g: Group): Entry requires g.events != [] { g.events[0] }

  function Last(g: Group): Entry requires g.events != [] { g.events[|g.events| - 1] }

  /** The older group's first event could not have joined the newer group. */
  ghost predicate Apart(g: Group, h: Group) {
    g.events != [] && h.events != [] && !Continues(Last(g), First(h))
  }

  /** Groups of one kind of change each, none of which could take in the next one's first event. */
  ghost predicate Greedy(groups: seq<Group>) {
    && (forall i | 0 <= i < |groups| :: GroupOf(groups[i]))
    && (forall i | 0 <= i < |groups| - 1 :: Apart(groups[i], groups[i + 1]))
  }

  function Flatten(groups: seq<Group>): seq<Entry> {
    if groups == [] then [] else Flatten(groups[..|groups| - 1]) + groups[|groups| - 1].events
  }

  /** Fold runs of the same change into groups, newest first. */
  method GroupBursts(entries: seq<Entry>) returns (out: seq<Group>)
    ensures Flatten(out) == entries && Greedy(out)
  {
    out := [];
    for i := 0 to |entries|
      invariant Flatten(out) == entries[..i] && Greedy(out)
    {
      var e := entries[i];
      assert entries[..i + 1] == entries[..i] + [e];
      if out != [] {
        var last := out[|out| - 1];
        assert GroupOf(last);
        var prev := Last(last);
        if last.actor == e.actor && last.action == e.action && last.entityType == e.entityType && WithinBurst(prev.at, e.at) {
          var grown := last.(events := last.events + [e]);
          GrowLast(out, grown, e);
          out := out[|out| - 1 := grown];
          continue;
        }
      }
      AddAlone(out, e);
      out := out + [Alone(e)];
    }
    assert entries[..|entries|] == entries;
  }

  lemma GrowLast(out: seq<Group>, grown: Group, e: Entry)
    requires out != [] && Greedy(out)
    requires var last := out[|out| - 1]; last.events != [] && Continues(Last(last), e) && grown == last.(events := last.events + [e])
    ensures Greedy(out[|out| - 1 := grown])
    ensures Flatten(out[|out| - 1 := grown]) == Flatten(out) + [e]
  {
    var n := |out| - 1;
    var next := out[n := grown];
    assert next[..n] == out[..n];
    assert First(grown) == First(out[n]);
    assert GroupOf(out[n]);
    assert GroupOf(grown);
    forall i | 0 <= i < |next| - 1 ensures Apart(next[i], next[i + 1]) {
      assert Apart(out[i], out[i + 1]);
    }
  }

  lemma {:induction false} AddAlone(out: seq<Group>, e: Entry)
    requires Greedy(out)
    requires out != [] ==> out[|out| - 1].events != [] && !Continues(Last(out[|out| - 1]), e)
    ensures Greedy(out + [Alone(e)])
    ensures Flatten(out + [Alone(e)]) == Flatten(out) + [e]
  {
    assert (out + [Alone(e)])[..|out|] == out;
    if out != [] { assert GroupOf(out[|out| - 1]); }
    AddGroup(out, Alone(e));
  }

  lemma {:induction false} FlattenCons(groups: seq<Group>)
    requires groups != []
    ensures Flatten(groups) == groups[0].events + Flatten(groups[1..])
  {
    if |groups| > 1 {
      var front := groups[..|groups| - 1];
      FlattenCons(front);
      assert groups[1..][..|groups[1..]| - 1] == front[1..];
    } else {
      assert groups[..0] == [];
    }
  }

  lemma GreedyTail(groups: seq<Group>)
    requires groups != [] && Greedy(groups)
    ensures Greedy(groups[1..])
  {
    var t := groups[1..];
    forall i | 0 <= i < |t| - 1 ensures Apart(t[i], t[i + 1]) {
      assert t[i] == groups[i + 1] && t[i + 1] == groups[i + 1 + 1];
    }
  }

  /** Event `i` takes the next one into its group. */
  predicate Linked(all: seq<Entry>, i: nat) { i + 1 < |all| && Continues(all[i], all[i + 1]) }

  lemma SameRun(all: seq<Entry>, m: nat, n: nat)
    requires 1 <= m <= |all| && !Linked(all, m - 1) && forall i | 0 <= i < m - 1 :: Linked(all, i)
    requires 1 <= n <= |all| && !Linked(all, n - 1) && forall i | 0 <= i < n - 1 :: Linked(all, i)
    ensures m == n
  {
  }

  /** The event after a greedy list's first group starts the next group. */
  lemma NextStartsGroup(groups: seq<Group>)
    requires groups != [] && Greedy(groups)
    ensures var all := Flatten(groups);
            var n := |groups[0].events|;
            && 1 <= n <= |all| && all[..n] == groups[0].events
            && !Linked(all, n - 1)
            && (forall i | 0 <= i < n - 1 :: Linked(all, i))
  {
    hide Flatten, Continues;
    var rest := Flatten(groups[1..]);
    FlattenCons(groups);
    assert GroupOf(groups[0]);
    if |groups| > 1 {
      FlattenCons(groups[1..]);
      assert GroupOf(groups[1]);
      assert Apart(groups[0], groups[0 + 1]);
    } else {
      assert groups[1..] == [];
      NoEvents();
    }
    RunThenRest(groups[0], rest);
  }

  lemma NoEvents()
    ensures Flatten([]) == []
  {
  }

  /** A group's events are linked, and the next event starts another group. */
  lemma RunThenRest(g: Group, rest: seq<Entry>)
    requires GroupOf(g) && (rest == [] || !Continues(Last(g), rest[0]))
    ensures var all, n := g.events + rest, |g.events|;
            1 <= n <= |all| && all[..n] == g.events && !Linked(all, n - 1) && forall i | 0 <= i < n - 1 :: Linked(all, i)
  {
    var all := g.events + rest;
    forall i | 0 <= i < |g.events| - 1 ensures Linked(all, i) {
      assert all[i] == g.events[i] && all[i + 1] == g.events[i + 1];
      assert g.events[i] in g.events && g.events[i + 1] in g.events;
    }
  }

  lemma SomeEvents(groups: seq<Group>)
    requires Greedy(groups)
    ensures Flatten(groups) == [] <==> groups == []
  {
    if groups != [] {
      FlattenCons(groups);
      assert GroupOf(groups[0]);
    }
  }

  /** Only one greedy grouping flattens to a list. */
  lemma {:induction false} GreedyUnique(a: seq<Group>, b: seq<Group>)
    requires Greedy(a) && Greedy(b) && Flatten(a) == Flatten(b)
    ensures a == b
  {
    SomeEvents(a);
    SomeEvents(b);
    if a == [] {
    } else {
      NextStartsGroup(a);
      NextStartsGroup(b);
      var m, n := |a[0].events|, |b[0].events|;
      var all := Flatten(a);
      SameRun(all, m, n);
      assert a[0].events == all[..m] && b[0].events == all[..n];
      assert a[0].events[0] in a[0].events && b[0].events[0] in b[0].events;
      FlattenCons(a);
      FlattenCons(b);
      assert all[m..] == Flatten(a[1..]) && all[n..] == Flatten(b[1..]);
      GreedyTail(a);
      GreedyTail(b);
      GreedyUnique(a[1..], b[1..]);
    }
  }

  /** Older entries only ever grow the last group and add groups after it. */
  ghost predicate Extends(before: seq<Group>, after: seq<Group>) {
    before != [] ==>
      && |before| <= |after|
      && before[..|before| - 1] == after[..|before| - 1]
      && before[|before| - 1].events <= after[|before| - 1].events
  }

  lemma CutGroup(g: Group)
    requires GroupOf(g) && |g.events| > 1
    ensures GroupOf(g.(events := g.events[..|g.events| - 1])) && First(g.(events := g.events[..|g.events| - 1])) == First(g)
  {
  }

  lemma FlattenFront(groups: seq<Group>, g: Group)
    ensures Flatten(groups + [g]) == Flatten(groups) + g.events
  {
    assert (groups + [g])[..|groups|] == groups;
  }

  lemma ExtendsFront(front: seq<Group>, cut: Group, last: Group)
    ensures Extends(front, front + [last])
    ensures cut.events <= last.events ==> Extends(front + [cut], front + [last])
  {
    assert (front + [last])[..|front|] == front == (front + [cut])[..|front|];
    if front != [] { assert (front + [last])[..|front| - 1] == front[..|front| - 1]; }
  }

  /** Dropping the newest-last event of a greedy grouping leaves a greedy grouping. */
  lemma DropLastEvent(groups: seq<Group>) returns (shorter: seq<Group>)
    requires groups != [] && Greedy(groups)
    ensures Greedy(shorter) && Extends(shorter, groups)
    ensures Flatten(groups) != [] && Flatten(shorter) == Flatten(groups)[..|Flatten(groups)| - 1]
  {
    hide Extends, GroupOf, Flatten;
    var front, last := groups[..|groups| - 1], groups[|groups| - 1];
    HasEvents(last);
    var cut := last.(events := last.events[..|last.events| - 1]);
    assert groups == front + [last];
    GreedyFront(groups);
    FlattenFront(front, last);
    ExtendsFront(front, cut, last);
    if |last.events| == 1 {
      shorter := front;
    } else {
      shorter := front + [cut];
      FlattenFront(front, cut);
      CutGroup(last);
      if front != [] { assert Apart(groups[|front| - 1], groups[|front| - 1 + 1]); }
      AddGroup(front, cut);
    }
  }

  lemma HasEvents(g: Group)
    requires GroupOf(g)
    ensures g.events != []
  {
  }

  lemma GreedyFront(groups: seq<Group>)
    requires groups != [] && Greedy(groups)
    ensures Greedy(groups[..|groups| - 1])
  {
    var front := groups[..|groups| - 1];
    forall i | 0 <= i < |front| - 1 ensures Apart(front[i], front[i + 1]) {
      assert Apart(groups[i], groups[i + 1]);
    }
  }

  lemma AddGroup(front: seq<Group>, g: Group)
    requires Greedy(front) && GroupOf(g)
    requires front != [] ==> Apart(front[|front| - 1], g)
    ensures Greedy(front + [g])
  {
    var next := front + [g];
    forall i | 0 <= i < |next| - 1 ensures Apart(next[i], next[i + 1]) {
      if i < |front| - 1 { assert Apart(front[i], front[i + 1]); }
    }
  }

  lemma ExtendsTransitive(a: seq<Group>, b: seq<Group>, c: seq<Group>)
    requires Extends(a, b) && Extends(b, c)
    ensures Extends(a, c)
  {
    if a != [] {
      var n := |a| - 1;
      assert a[..n] == b[..n];
      if n < |b| - 1 {
        assert b[n] == b[..|b| - 1][n] == c[..|b| - 1][n] == c[n];
        assert b[..n] == b[..|b| - 1][..n] == c[..|b| - 1][..n] == c[..n];
      }
    }
  }

  /** Appending older entries changes only the last group. */
  lemma {:induction false} OlderEntriesExtend(entries: seq<Entry>, more: seq<Entry>, before: seq<Group>, after: seq<Group>)
    requires Greedy(before) && Flatten(before) == entries
    requires Greedy(after) && Flatten(after) == entries + more
    ensures Extends(before, after)
    decreases |more|
  {
    if more == [] {
      assert entries + more == entries;
      GreedyUnique(before, after);
    } else {
      var shorter := DropLastEvent(after);
      var fewer := more[..|more| - 1];
      assert (entries + more)[..|entries + more| - 1] == entries + fewer;
      OlderEntriesExtend(entries, fewer, before, shorter);
      ExtendsTransitive(before, shorter, after);
    }
  }

  /** Two events next to each other in a group: the same actor, action and type, and at most a minute apart. */
  ghost predicate SameBurst(a: Entry, b: Entry) {
    a.actor == b.actor && a.action == b.action && a.entityType == b.entityType && a.at.At? && b.at.At? && a.at.ms - b.at.ms <= 60000
  }

  /** Within a group neighbours are of one burst; where a group ends, the next event is not. */
  lemma GroupsMean(groups: seq<Group>)
    requires Greedy(groups)
    ensures forall g | g in groups :: g.events != [] && forall i | 0 < i < |g.events| :: SameBurst(g.events[i - 1], g.events[i])
    ensures forall g, e | g in groups && e in g.events :: e.actor == g.actor && e.action == g.action && e.entityType == g.entityType
    ensures forall i | 0 < i < |groups| ::
              var a, b := groups[i - 1].events, groups[i].events;
              a != [] && b != [] && !SameBurst(a[|a| - 1], b[0])
  {
    forall i | 0 < i < |groups|
      ensures var a, b := groups[i - 1].events, groups[i].events; a != [] && b != [] && !SameBurst(a[|a| - 1], b[0])
    {
      assert Apart(groups[i - 1], groups[i - 1 + 1]);
    }
    forall g, i | g in groups && 0 < i < |g.events| ensures SameBurst(g.events[i - 1], g.events[i]) {
      assert GroupOf(g);
      assert WithinBurst(g.events[i - 1].at, g.events[i - 1 + 1].at);
      assert g.events[i - 1] in g.events && g.events[i] in g.events;
    }
  }
}
