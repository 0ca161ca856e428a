/**
 * The benchmark backend: runtime faults, request counters and a fixed number
 * of slots shared by every request being served. A request is a task that
 * takes one atomic step at a time; any interleaving of steps is possible.
 */
module Backend {
  import opened Wrappers
  import opened Text

  datatype FaultMode = NoFault | Fail | Stall | Slow

  function ParseMode(s: string): Option<FaultMode> {
    if s == "ok" || s == "recover" then Some(NoFault)
    else if s == "fail" then Some(Fail)
    else if s == "stall" then Some(Stall)
    else if s == "slow" then Some(Slow)
    else None
  }

  // -------------------------------------------------------------------------
  // The fault map
  // -------------------------------------------------------------------------

  type Faults = map<string, FaultMode>

  const EVERY: string := "*"

  /** The map after one command. */
  function Controlled(faults: Faults, model: string, mode: FaultMode): Faults {
    if mode != NoFault then faults[model := mode]
    else if model == EVERY then map[]
    else faults - {model}
  }

  datatype Command = Command(model: string, mode: FaultMode)

  function AfterAll(commands: seq<Command>): Faults {
    if commands == [] then map[]
    else
      var last := commands[|commands| - 1];
      Controlled(AfterAll(commands[..|commands| - 1]), last.model, last.mode)
  }

  /** The last thing said about a key: the latest command that names it or clears everything. */
  function LastWord(commands: seq<Command>, key: string): FaultMode {
    if commands == [] then NoFault
    else
      var last := commands[|commands| - 1];
      if last.model == key || last == Command(EVERY, NoFault) then last.mode
      else LastWord(commands[..|commands| - 1], key)
  }

  /** After any run of commands the map holds exactly each key's last word, and never a recovery. */
  lemma {:induction false} MapIsLastWord(commands: seq<Command>)
    ensures forall key :: key in AfterAll(commands) <==> LastWord(commands, key) != NoFault
    ensures forall key | key in AfterAll(commands) :: AfterAll(commands)[key] == LastWord(commands, key)
  {
    if commands == [] {
    } else {
      MapIsLastWord(commands[..|commands| - 1]);
    }
  }

  predicate ReadsAt(s: string, part: string, i: int) { 0 <= i <= |s| - |part| && s[i..i + |part|] == part }

  predicate Contains(s: string, part: string) { exists i | 0 <= i <= |s| :: ReadsAt(s, part, i) }

  /** A key faults a model when the model's name contains it, whatever the case. */
  predicate Hits(key: string, model: string) { key != EVERY && Contains(Lower(model), Lower(key)) }

  ghost predicate Matched(faults: Faults, model: string) { exists key :: key in faults && Hits(key, model) }

  ghost predicate NoRecoveryKept(faults: Faults) { forall key | key in faults :: faults[key] != NoFault }

  /** The faults a lookup may answer: a map is read in no fixed order. */
  ghost predicate MayAnswer(faults: Faults, model: string, fault: FaultMode) {
    if EVERY in faults && faults[EVERY] != NoFault then fault == faults[EVERY]
    else if Matched(faults, model) then exists key :: key in faults && Hits(key, model) && faults[key] == fault
    else fault == NoFault
  }

  method FaultForModel(model: string, faults: Faults) returns (fault: FaultMode)
    ensures MayAnswer(faults, model, fault)
    ensures NoRecoveryKept(faults) ==> (fault == NoFault <==> EVERY !in faults && !Matched(faults, model))
  {
    if EVERY in faults && faults[EVERY] != NoFault { return faults[EVERY]; }
    var left := faults.Keys;
    while left != {}
      invariant left <= faults.Keys
      invariant forall key | key in faults && key !in left :: !Hits(key, model)
      decreases |left|
    {
      var key :| key in left;
      if Hits(key, model) { return faults[key]; }
      left := left - {key};
    }
    return NoFault;
  }

  /** The words of a control command. */
  lemma ModesAre(word: string)
    ensures ParseMode(word) == Some(NoFault) <==> word in {"ok", "recover"}
    ensures ParseMode(word) == Some(Fail) <==> word == "fail"
    ensures ParseMode(word) == Some(Stall) <==> word == "stall"
    ensures ParseMode(word) == Some(Slow) <==> word == "slow"
  {
  }

  lemma ContainsIs(s: string, part: string)
    ensures Contains(s, part) <==> exists a, b :: s == a + part + b
  {
    if Contains(s, part) {
      var i :| 0 <= i <= |s| && ReadsAt(s, part, i);
      assert s == s[..i] + part + s[i + |part|..];
    }
    if a, b :| s == a + part + b {
      assert ReadsAt(s, part, |a|);
    }
  }

  /** A key hits a model whose name holds it somewhere, capital and small letters alike; `*` is no name. */
  lemma HitsMeans(key: string, model: string)
    ensures Hits(key, model) <==> key != "*" && exists a, b :: Lower(model) == a + Lower(key) + b
  {
    ContainsIs(Lower(model), Lower(key));
  }

  /** A lookup answers the fault of every model first, then that of a key that hits, and else none. */
  lemma AnswersMean(faults: Faults, model: string, fault: FaultMode)
    requires NoRecoveryKept(faults)
    ensures MayAnswer(faults, model, fault)
       <==> if "*" in faults then fault == faults["*"]
            else if exists key :: key in faults && Hits(key, model) then exists key :: key in faults && Hits(key, model) && faults[key] == fault
            else fault == NoFault
  {
    hide Hits;
  }

  /** The reading order never shows exactly when everything is faulted or the matching keys agree. */
  lemma OrderNeverShows(faults: Faults, model: string)
    requires NoRecoveryKept(faults)
    ensures (forall f, g | MayAnswer(faults, model, f) && MayAnswer(faults, model, g) :: f == g)
       <==> EVERY in faults || forall k, l | k in faults && l in faults && Hits(k, model) && Hits(l, model) :: faults[k] == faults[l]
  {
    if EVERY !in faults {
      if k, l :| k in faults && l in faults && Hits(k, model) && Hits(l, model) && faults[k] != faults[l] {
        assert MayAnswer(faults, model, faults[k]) && MayAnswer(faults, model, faults[l]);
      }
    }
  }

  // -------------------------------------------------------------------------
  // Requests as tasks
  // -------------------------------------------------------------------------

  datatype Kind = Chat(stream: bool) | Embeddings

  datatype Request = Request(kind: Kind, model: string, prompt: nat, output: nat)

  /** Counting: how many of its four counters a request has raised. */
  datatype Phase = Counting(raised: nat) | Waiting(fault: FaultMode) | Holding(fault: FaultMode)
                 | Failed | Answered | Dropped(held: bool)

  datatype Task = Task(request: Request, phase: Phase)

  datatype Counters = Counters(requests: nat, streaming: nat, nonStreaming: nat, embeddings: nat, prompt: nat, completion: nat)

  datatype State = State(faults: Faults, counters: Counters, free: nat, tasks: seq<Task>)

  const COUNTED: nat := 4

  /** The next counter a request raises. */
  function Raise(c: Counters, r: Request, raised: nat): Counters {
    if raised == 0 then c.(requests := c.requests + 1)
    else if raised == 1 then
      if r.kind == Chat(true) then c.(streaming := c.streaming + 1) else c.(nonStreaming := c.nonStreaming + 1)
    else if r.kind.Chat? then
      if raised == 2 then c.(prompt := c.prompt + r.prompt) else c.(completion := c.completion + r.output)
    else if raised == 2 then c.(embeddings := c.embeddings + 1) else c.(prompt := c.prompt + r.prompt)
  }

  datatype Event = Arrive(request: Request) | Count(i: nat) | ReadFault(i: nat, fault: FaultMode)
                 | Acquire(i: nat) | Finish(i: nat) | Drop(i: nat) | Control(model: string, mode: FaultMode)

  ghost predicate Enabled(s: State, e: Event) {
    match e
    case Arrive(_) => true
    case Control(_, _) => true
    case Count(i) => i < |s.tasks| && s.tasks[i].phase.Counting? && s.tasks[i].phase.raised < COUNTED
    case ReadFault(i, fault) =>
      && i < |s.tasks| && s.tasks[i].phase == Counting(COUNTED)
      && MayAnswer(s.faults, s.tasks[i].request.model, fault)
    case Acquire(i) => i < |s.tasks| && s.tasks[i].phase.Waiting? && s.free > 0
    case Finish(i) => i < |s.tasks| && s.tasks[i].phase.Holding?
    case Drop(i) => i < |s.tasks| && (s.tasks[i].phase.Waiting? || s.tasks[i].phase.Holding?)
  }

  function Moved(tasks: seq<Task>, i: nat, phase: Phase): seq<Task>
    requires i < |tasks|
  {
    tasks[i := tasks[i].(phase := phase)]
  }

  ghost function After(s: State, e: Event): State
    requires Enabled(s, e)
  {
    match e
    case Arrive(request) => s.(tasks := s.tasks + [Task(request, Counting(0))])
    case Control(model, mode) => s.(faults := Controlled(s.faults, model, mode))
    case Count(i) =>
      var t := s.tasks[i];
      s.(counters := Raise(s.counters, t.request, t.phase.raised), tasks := Moved(s.tasks, i, Counting(t.phase.raised + 1)))
    case ReadFault(i, fault) => s.(tasks := Moved(s.tasks, i, if fault == Fail then Failed else Waiting(fault)))
    case Acquire(i) => s.(free := s.free - 1, tasks := Moved(s.tasks, i, Holding(s.tasks[i].phase.fault)))
    case Finish(i) => s.(free := s.free + 1, tasks := Moved(s.tasks, i, Answered))
    case Drop(i) =>
      var held := s.tasks[i].phase.Holding?;
      s.(free := if held then s.free + 1 else s.free, tasks := Moved(s.tasks, i, Dropped(held)))
  }

  function Start(slots: nat): State { State(map[], Counters(0, 0, 0, 0, 0, 0), slots, []) }

  /** The state a run of events reaches from an idle backend; None when an event could not happen when it did. */
  ghost function Reached(slots: nat, events: seq<Event>): Option<State> {
    if events == [] then Some(Start(slots))
    else
      var before, e := Reached(slots, events[..|events| - 1]), events[|events| - 1];
      if before.Some? && Enabled(before.value, e) then Some(After(before.value, e)) else None
  }

  // -------------------------------------------------------------------------
  // What the counters and the slots stand for
  // -------------------------------------------------------------------------

  datatype Meter = Requests | Streaming | NonStreaming | Embedded | Prompt | Completion | Held

  function Raised(t: Task): nat { if t.phase.Counting? then t.phase.raised else COUNTED }

  function One(b: bool): nat { if b then 1 else 0 }

  /** A task's share of a meter. */
  function Share(t: Task, m: Meter): nat {
    var r, n := t.request, Raised(t);
    match m
    case Requests => One(n > 0)
    case Streaming => One(n > 1 && r.kind == Chat(true))
    case NonStreaming => One(n > 1 && r.kind != Chat(true))
    case Embedded => One(n > 2 && r.kind == Embeddings)
    case Prompt => if n > (if r.kind.Chat? then 2 else 3) then r.prompt else 0
    case Completion => if n > 3 && r.kind.Chat? then r.output else 0
    case Held => One(t.phase.Holding?)
  }

  function Total(tasks: seq<Task>, m: Meter): nat {
    if tasks == [] then 0 else Total(tasks[1..], m) + Share(tasks[0], m)
  }

  function Reading(s: State, slots: nat, m: Meter): int {
    match m
    case Requests => s.counters.requests
    case Streaming => s.counters.streaming
    case NonStreaming => s.counters.nonStreaming
    case Embedded => s.counters.embeddings
    case Prompt => s.counters.prompt
    case Completion => s.counters.completion
    case Held => slots - s.free
  }

  /** Every counter, and the slots not free, are the tasks' shares and nothing else. */
  ghost predicate Accounted(s: State, slots: nat) {
    && (forall m: Meter :: Reading(s, slots, m) == Total(s.tasks, m))
    && (forall i | 0 <= i < |s.tasks| && s.tasks[i].phase.Counting? :: s.tasks[i].phase.raised <= COUNTED)
    && NoRecoveryKept(s.faults)
  }

  lemma {:induction false} TotalAppend(tasks: seq<Task>, t: Task, m: Meter)
    ensures Total(tasks + [t], m) == Total(tasks, m) + Share(t, m)
  {
    if tasks == [] {
      assert tasks + [t] == [t];
    } else {
      assert (tasks + [t])[1..] == tasks[1..] + [t];
      TotalAppend(tasks[1..], t, m);
    }
  }

  lemma {:induction false} TotalUpdate(tasks: seq<Task>, i: nat, t: Task, m: Meter)
    requires i < |tasks|
    ensures Total(tasks[i := t], m) == Total(tasks, m) - Share(tasks[i], m) + Share(t, m)
  {
    hide Share;
    if i == 0 {
      assert tasks[0 := t][1..] == tasks[1..];
    } else {
      assert tasks[i := t][1..] == tasks[1..][i - 1 := t];
      TotalUpdate(tasks[1..], i - 1, t, m);
    }
  }

  /** The task an event moves on. */
  function Mover(e: Event): Option<nat> {
    match e
    case Arrive(_) => None
    case Control(_, _) => None
    case Count(i) => Some(i)
    case ReadFault(i, _) => Some(i)
    case Acquire(i) => Some(i)
    case Finish(i) => Some(i)
    case Drop(i) => Some(i)
  }

  /** Moving one task on changes each meter by what the task's share changes. */
  lemma MoveMeter(s: State, e: Event, slots: nat, m: Meter)
    requires Enabled(s, e) && Mover(e).Some?
    ensures var i, t := Mover(e).value, After(s, e);
            && i < |s.tasks| && |t.tasks| == |s.tasks| && t.tasks == s.tasks[i := t.tasks[i]]
            && Reading(t, slots, m) == Reading(s, slots, m) - Share(s.tasks[i], m) + Share(t.tasks[i], m)
  {
    hide MayAnswer;
  }

  lemma StepMeter(s: State, e: Event, slots: nat, m: Meter)
    requires Enabled(s, e) && Reading(s, slots, m) == Total(s.tasks, m)
    ensures Reading(After(s, e), slots, m) == Total(After(s, e).tasks, m)
  {
    hide Total, MayAnswer;
    if e.Arrive? {
      TotalAppend(s.tasks, Task(e.request, Counting(0)), m);
    } else if !e.Control? {
      hide After, Share, Reading, Enabled;
      MoveMeter(s, e, slots, m);
      TotalUpdate(s.tasks, Mover(e).value, After(s, e).tasks[Mover(e).value], m);
    }
  }

  /** One step of any request, or one command, keeps the books. */
  lemma StepAccounted(s: State, e: Event, slots: nat)
    requires Accounted(s, slots) && Enabled(s, e)
    ensures Accounted(After(s, e), slots)
  {
    forall m: Meter ensures Reading(After(s, e), slots, m) == Total(After(s, e).tasks, m) {
      assert Reading(s, slots, m) == Total(s.tasks, m);
      StepMeter(s, e, slots, m);
    }
    hide Total, MayAnswer, Reading, Share;
  }

  /** In every interleaving of requests and commands the books balance. */
  lemma {:induction false} AlwaysAccounted(slots: nat, events: seq<Event>)
    requires Reached(slots, events).Some?
    ensures Accounted(Reached(slots, events).value, slots)
  {
    hide Enabled, After;
    if events == [] {
      assert forall m: Meter :: Total([], m) == 0;
    } else {
      AlwaysAccounted(slots, events[..|events| - 1]);
      StepAccounted(Reached(slots, events[..|events| - 1]).value, events[|events| - 1], slots);
    }
  }

  // -------------------------------------------------------------------------
  // Over whole runs
  // -------------------------------------------------------------------------

  /** Free and held slots always make up the slot count. */
  lemma SlotsConserved(slots: nat, events: seq<Event>)
    requires Reached(slots, events).Some?
    ensures var s := Reached(slots, events).value; s.free + Total(s.tasks, Held) == slots
  {
    AlwaysAccounted(slots, events);
    assert Reading(Reached(slots, events).value, slots, Held) == slots - Reached(slots, events).value.free;
  }

  predicate Arriving(t: Task) { Raised(t) == 1 }

  lemma {:induction false} TotalsCover(tasks: seq<Task>)
    ensures Total(tasks, Requests) >= Total(tasks, Streaming) + Total(tasks, NonStreaming)
    ensures Total(tasks, Requests) == Total(tasks, Streaming) + Total(tasks, NonStreaming)
       <==> forall i | 0 <= i < |tasks| :: !Arriving(tasks[i])
    ensures Total(tasks, Embedded) <= Total(tasks, NonStreaming)
  {
    if tasks == [] {
    } else {
      TotalsCover(tasks[1..]);
      assert forall i | 0 <= i < |tasks[1..]| :: tasks[1..][i] == tasks[i + 1];
      assert (forall i | 0 <= i < |tasks| :: !Arriving(tasks[i]))
        <==> !Arriving(tasks[0]) && forall i | 0 <= i < |tasks[1..]| :: !Arriving(tasks[1..][i]);
    }
  }

  /**
   * The request count is never below the streaming and non-streaming counts
   * together, and equals them exactly when no request is between the two.
   */
  lemma RequestsCoverKinds(slots: nat, events: seq<Event>)
    requires Reached(slots, events).Some?
    ensures var s := Reached(slots, events).value;
            && s.counters.requests >= s.counters.streaming + s.counters.nonStreaming
            && (s.counters.requests == s.counters.streaming + s.counters.nonStreaming
                <==> forall i | 0 <= i < |s.tasks| :: !Arriving(s.tasks[i]))
            && s.counters.embeddings <= s.counters.nonStreaming
  {
    hide Total, Arriving;
    var s := Reached(slots, events).value;
    AlwaysAccounted(slots, events);
    TotalsCover(s.tasks);
    assert Reading(s, slots, Requests) == Total(s.tasks, Requests);
    assert Reading(s, slots, Streaming) == Total(s.tasks, Streaming);
    assert Reading(s, slots, NonStreaming) == Total(s.tasks, NonStreaming);
    assert Reading(s, slots, Embedded) == Total(s.tasks, Embedded);
  }

  // -------------------------------------------------------------------------
  // What a report shows
  // -------------------------------------------------------------------------

  /** How many requests are between their first counter and their second. */
  function ArrivingCount(tasks: seq<Task>): nat {
    if tasks == [] then 0 else ArrivingCount(tasks[1..]) + One(Arriving(tasks[0]))
  }

  lemma {:induction false} KindsAndArriving(tasks: seq<Task>)
    ensures Total(tasks, Requests) == Total(tasks, Streaming) + Total(tasks, NonStreaming) + ArrivingCount(tasks)
  {
    if tasks == [] {
    } else {
      KindsAndArriving(tasks[1..]);
    }
  }

  /** The counters after the first `n` events. */
  ghost function CountersAt(slots: nat, events: seq<Event>, n: nat): Counters
    requires n <= |events| && Reached(slots, events[..n]).Some?
  {
    Reached(slots, events[..n]).value.counters
  }

  ghost predicate NoMore(a: Counters, b: Counters) {
    a.requests <= b.requests && a.streaming <= b.streaming && a.nonStreaming <= b.nonStreaming
  }

  lemma StepCounts(s: State, e: Event)
    requires Enabled(s, e)
    ensures NoMore(s.counters, After(s, e).counters)
  {
    hide MayAnswer, Controlled;
  }

  /** A run reaches all its moments, and counters only grow. */
  lemma {:induction false} CountersGrow(slots: nat, events: seq<Event>, n: nat, m: nat)
    requires n <= m <= |events| && Reached(slots, events).Some?
    ensures Reached(slots, events[..n]).Some? && Reached(slots, events[..m]).Some?
    ensures NoMore(CountersAt(slots, events, n), CountersAt(slots, events, m))
    decreases |events|
  {
    hide Enabled, After, NoMore;
    if m < |events| {
      var front := events[..|events| - 1];
      assert front[..n] == events[..n] && front[..m] == events[..m];
      CountersGrow(slots, front, n, m);
    } else {
      assert events[..m] == events;
      if n < m {
        var front := events[..m - 1];
        assert front[..n] == events[..n] && front[..m - 1] == front;
        CountersGrow(slots, front, n, m - 1);
        StepCounts(Reached(slots, front).value, events[m - 1]);
        NoMoreTwice(CountersAt(slots, events, n), Reached(slots, front).value.counters, CountersAt(slots, events, m));
      } else {
        assert NoMore(CountersAt(slots, events, n), CountersAt(slots, events, m)) by { NoMoreItself(CountersAt(slots, events, n)); }
      }
    }
  }

  lemma NoMoreItself(a: Counters)
    ensures NoMore(a, a)
  {
  }

  lemma NoMoreTwice(a: Counters, b: Counters, c: Counters)
    requires NoMore(a, b) && NoMore(b, c)
    ensures NoMore(a, c)
  {
  }

  /** The counters of a report, each read at its own moment of a run. */
  datatype Report = Report(requests: nat, streaming: nat, nonStreaming: nat)

  ghost function ReportOf(slots: nat, events: seq<Event>, r: nat, s: nat, n: nat): Report
    requires r <= |events| && s <= |events| && n <= |events| && Reached(slots, events).Some?
  {
    CountersGrow(slots, events, r, |events|);
    CountersGrow(slots, events, s, |events|);
    CountersGrow(slots, events, n, |events|);
    Report(CountersAt(slots, events, r).requests, CountersAt(slots, events, s).streaming, CountersAt(slots, events, n).nonStreaming)
  }

  /** How far the kinds rose after the requests were read. */
  ghost function RoseSince(slots: nat, events: seq<Event>, r: nat, s: nat, n: nat): int
    requires r <= |events| && s <= |events| && n <= |events| && Reached(slots, events).Some?
  {
    CountersGrow(slots, events, r, |events|);
    CountersGrow(slots, events, s, |events|);
    CountersGrow(slots, events, n, |events|);
    var c := CountersAt(slots, events, r);
    CountersAt(slots, events, s).streaming - c.streaming + (CountersAt(slots, events, n).nonStreaming - c.nonStreaming)
  }

  /**
   * A report covers its kinds exactly when the kinds rose by no more, since the
   * requests were read, than there were requests between the two counters
   * then; so always when the requests are read last.
   */
  lemma ReportCovers(slots: nat, events: seq<Event>, r: nat, s: nat, n: nat)
    requires r <= |events| && s <= |events| && n <= |events| && Reached(slots, events).Some?
    ensures Reached(slots, events[..r]).Some?
    ensures var report, between := ReportOf(slots, events, r, s, n), ArrivingCount(Reached(slots, events[..r]).value.tasks);
            && (report.requests >= report.streaming + report.nonStreaming <==> RoseSince(slots, events, r, s, n) <= between)
            && (s <= r && n <= r ==> report.requests >= report.streaming + report.nonStreaming)
            && (s >= r && n >= r ==> RoseSince(slots, events, r, s, n) >= 0)
  {
    hide Reached, Total, ArrivingCount, Reading;
    CountersGrow(slots, events, r, |events|);
    var state := Reached(slots, events[..r]).value;
    AtMoment(slots, events[..r]);
    if s <= r { CountersGrow(slots, events, s, r); } else { CountersGrow(slots, events, r, s); }
    if n <= r { CountersGrow(slots, events, n, r); } else { CountersGrow(slots, events, r, n); }
  }

  lemma AtMoment(slots: nat, events: seq<Event>)
    requires Reached(slots, events).Some?
    ensures var s := Reached(slots, events).value;
            s.counters.requests == s.counters.streaming + s.counters.nonStreaming + ArrivingCount(s.tasks)
  {
    hide Total, ArrivingCount, Reached;
    AlwaysAccounted(slots, events);
    var s := Reached(slots, events).value;
    KindsAndArriving(s.tasks);
    assert Reading(s, slots, Requests) == Total(s.tasks, Requests);
    assert Reading(s, slots, Streaming) == Total(s.tasks, Streaming);
    assert Reading(s, slots, NonStreaming) == Total(s.tasks, NonStreaming);
  }

  /** A request that arrives between the loads is reported as streaming and not as a request. */
  lemma ReportFallsShort(slots: nat, request: Request)
    requires request.kind == Chat(true)
    ensures var events := [Arrive(request), Count(0), Count(0)];
            Reached(slots, events).Some? && ReportOf(slots, events, 0, 3, 3) == Report(0, 1, 0)
  {
    var events := [Arrive(request), Count(0), Count(0)];
    assert events[..0] == [] && events[..3] == events;
    var one, two := [Arrive(request)], [Arrive(request), Count(0)];
    assert events[..2] == two && two[..1] == one && one[..0] == [];
    assert Reached(slots, []) == Some(Start(slots));
    assert Reached(slots, one).Some? && Reached(slots, two).Some?;
  }

  /** How often a request took a slot. */
  function Acquired(events: seq<Event>, i: nat): nat {
    if events == [] then 0 else Acquired(events[..|events| - 1], i) + One(events[|events| - 1] == Acquire(i))
  }

  function HadSlot(p: Phase): bool { p.Holding? || p.Answered? || p == Dropped(true) }

  /** A request takes a slot at most once, and never when the injected failure answered it. */
  lemma {:induction false} SlotTakenOnce(slots: nat, events: seq<Event>, i: nat)
    requires Reached(slots, events).Some?
    ensures var tasks := Reached(slots, events).value.tasks;
            Acquired(events, i) == One(i < |tasks| && HadSlot(tasks[i].phase))
  {
    hide MayAnswer, Controlled, Raise;
    if events == [] {
    } else {
      SlotTakenOnce(slots, events[..|events| - 1], i);
    }
  }

  function CommandsOf(events: seq<Event>): seq<Command> {
    if events == [] then []
    else
      var last := events[|events| - 1];
      CommandsOf(events[..|events| - 1]) + if last.Control? then [Command(last.model, last.mode)] else []
  }

  lemma OnlyCommandsTouchFaults(s: State, e: Event)
    requires Enabled(s, e)
    ensures After(s, e).faults == if e.Control? then Controlled(s.faults, e.model, e.mode) else s.faults
  {
    hide MayAnswer, Controlled, Raise;
  }

  lemma OneMoreCommand(events: seq<Event>)
    requires events != []
    ensures var cs, last := CommandsOf(events[..|events| - 1]), events[|events| - 1];
            AfterAll(CommandsOf(events)) == if last.Control? then Controlled(AfterAll(cs), last.model, last.mode) else AfterAll(cs)
  {
    hide Controlled;
    var cs, last := CommandsOf(events[..|events| - 1]), events[|events| - 1];
    if last.Control? {
      var c := Command(last.model, last.mode);
      assert CommandsOf(events) == cs + [c];
      assert (cs + [c])[..|cs|] == cs;
    } else {
      assert CommandsOf(events) == cs;
    }
  }

  /** Requests never touch the fault map. */
  lemma {:induction false} FaultsAreCommands(slots: nat, events: seq<Event>)
    requires Reached(slots, events).Some?
    ensures Reached(slots, events).value.faults == AfterAll(CommandsOf(events))
  {
    hide After, Enabled, CommandsOf, Controlled, AfterAll;
    if events == [] {
      NoCommands();
    } else {
      var front, last := events[..|events| - 1], events[|events| - 1];
      FaultsAreCommands(slots, front);
      OnlyCommandsTouchFaults(Reached(slots, front).value, last);
      OneMoreCommand(events);
    }
  }

  lemma NoCommands()
    ensures AfterAll(CommandsOf([])) == map[]
  {
  }

  /** The fault a request met, once it has looked. */
  function Met(p: Phase): Option<FaultMode> {
    if p.Failed? then Some(Fail) else if p.Waiting? || p.Holding? then Some(p.fault) else None
  }

  /** At some moment of the run a lookup for the model could answer the fault. */
  ghost predicate Injected(events: seq<Event>, n: nat, model: string, fault: FaultMode) {
    n <= |events| && MayAnswer(AfterAll(CommandsOf(events[..n])), model, fault)
  }

  lemma {:induction false} FaultWasMet(slots: nat, events: seq<Event>, i: nat) returns (n: nat)
    requires Reached(slots, events).Some? && i < |Reached(slots, events).value.tasks|
    requires Met(Reached(slots, events).value.tasks[i].phase).Some?
    ensures var t := Reached(slots, events).value.tasks[i]; Injected(events, n, t.request.model, Met(t.phase).value)
  {
    hide MayAnswer, Raise, AfterAll, CommandsOf, Controlled;
    var front, last := events[..|events| - 1], events[|events| - 1];
    if last.ReadFault? && last.i == i {
      n := |front|;
      FaultsAreCommands(slots, front);
      assert events[..n] == front;
    } else {
      n := FaultWasMet(slots, front, i);
      assert events[..n] == front[..n];
    }
  }

  /** Every failed answer goes back to a fail command, in force at some moment of the run, whose key hits the model. */
  lemma FailureWasCommanded(slots: nat, events: seq<Event>, i: nat) returns (n: nat, key: string)
    requires Reached(slots, events).Some? && i < |Reached(slots, events).value.tasks|
    requires Reached(slots, events).value.tasks[i].phase == Failed
    ensures n <= |events| && LastWord(CommandsOf(events[..n]), key) == Fail
    ensures key == EVERY || Hits(key, Reached(slots, events).value.tasks[i].request.model)
  {
    hide Reached, AfterAll, LastWord, CommandsOf, Hits;
    n := FaultWasMet(slots, events, i);
    var commands, model := CommandsOf(events[..n]), Reached(slots, events).value.tasks[i].request.model;
    MapIsLastWord(commands);
    var faults := AfterAll(commands);
    if EVERY in faults {
      key := EVERY;
    } else {
      key :| key in faults && Hits(key, model) && faults[key] == Fail;
    }
  }

  ghost predicate Over(p: Phase) { p.Failed? || p.Answered? || p.Dropped? }

  /** Which step a request may take next: count while counters are left, then look, then take a slot when one is free, then answer or go. */
  lemma StepsAre(s: State, i: nat)
    requires i < |s.tasks|
    ensures var p := s.tasks[i].phase;
            && (Enabled(s, Count(i)) <==> p.Counting? && p.raised < 4)
            && (forall f :: Enabled(s, ReadFault(i, f)) <==> p == Counting(4) && MayAnswer(s.faults, s.tasks[i].request.model, f))
            && (Enabled(s, Acquire(i)) <==> p.Waiting? && s.free >= 1)
            && (Enabled(s, Finish(i)) <==> p.Holding?)
            && (Enabled(s, Drop(i)) <==> p.Waiting? || p.Holding?)
  {
  }

  lemma SomeAnswer(faults: Faults, model: string) returns (fault: FaultMode)
    ensures MayAnswer(faults, model, fault)
  {
    if EVERY in faults && faults[EVERY] != NoFault {
      fault := faults[EVERY];
    } else if Matched(faults, model) {
      var key :| key in faults && Hits(key, model);
      fault := faults[key];
    } else {
      fault := NoFault;
    }
  }

  lemma {:induction false} SomeoneHolds(tasks: seq<Task>) returns (i: nat)
    requires Total(tasks, Held) > 0
    ensures i < |tasks| && tasks[i].phase.Holding?
  {
    if tasks[0].phase.Holding? {
      i := 0;
    } else {
      i := SomeoneHolds(tasks[1..]);
      i := i + 1;
    }
  }

  /** No run gets stuck: with any slots at all, while a request is not over some request can go on, without anyone going away. */
  lemma NothingIsStuck(slots: nat, events: seq<Event>, i: nat) returns (e: Event)
    requires Reached(slots, events).Some? && slots > 0 && i < |Reached(slots, events).value.tasks|
    requires !Over(Reached(slots, events).value.tasks[i].phase)
    ensures Enabled(Reached(slots, events).value, e) && (e.Count? || e.ReadFault? || e.Acquire? || e.Finish?)
  {
    hide Reached, MayAnswer, Total;
    var s := Reached(slots, events).value;
    AlwaysAccounted(slots, events);
    match s.tasks[i].phase
    case Counting(n) =>
      if n < COUNTED {
        e := Count(i);
      } else {
        var fault := SomeAnswer(s.faults, s.tasks[i].request.model);
        e := ReadFault(i, fault);
      }
    case Waiting(_) =>
      if s.free > 0 {
        e := Acquire(i);
      } else {
        SlotsConserved(slots, events);
        var j := SomeoneHolds(s.tasks);
        e := Finish(j);
      }
    case Holding(_) => e := Finish(i);
  }

  /** Once every request is over, every slot is free again and every request was counted. */
  lemma NothingLeaks(slots: nat, events: seq<Event>)
    requires Reached(slots, events).Some?
    requires forall i | 0 <= i < |Reached(slots, events).value.tasks| :: Over(Reached(slots, events).value.tasks[i].phase)
    ensures var s := Reached(slots, events).value; s.free == slots && s.counters.requests == |s.tasks|
  {
    hide Total, Reached, Over;
    var s := Reached(slots, events).value;
    AlwaysAccounted(slots, events);
    TotalsWhenOver(s.tasks);
    assert Reading(s, slots, Held) == Total(s.tasks, Held) && Reading(s, slots, Requests) == Total(s.tasks, Requests);
  }

  lemma {:induction false} TotalsWhenOver(tasks: seq<Task>)
    requires forall i | 0 <= i < |tasks| :: Over(tasks[i].phase)
    ensures Total(tasks, Held) == 0 && Total(tasks, Requests) == |tasks|
  {
    if tasks == [] {
    } else {
      TotalsWhenOver(tasks[1..]);
    }
  }

  /** How many requests are of a kind. */
  function HowMany(tasks: seq<Task>, kind: Kind): nat {
    if tasks == [] then 0 else HowMany(tasks[1..], kind) + if tasks[0].request.kind == kind then 1 else 0
  }

  function Prompts(tasks: seq<Task>): nat { if tasks == [] then 0 else Prompts(tasks[1..]) + tasks[0].request.prompt }

  /** What the chat requests were to answer. */
  function Outputs(tasks: seq<Task>): nat {
    if tasks == [] then 0 else Outputs(tasks[1..]) + if tasks[0].request.kind.Chat? then tasks[0].request.output else 0
  }

  lemma {:induction false} TotalsOfRequests(tasks: seq<Task>)
    requires forall i | 0 <= i < |tasks| :: Over(tasks[i].phase)
    ensures Total(tasks, Streaming) == HowMany(tasks, Chat(true)) && Total(tasks, Embedded) == HowMany(tasks, Embeddings)
    ensures Total(tasks, NonStreaming) == HowMany(tasks, Chat(false)) + HowMany(tasks, Embeddings)
    ensures Total(tasks, Prompt) == Prompts(tasks) && Total(tasks, Completion) == Outputs(tasks)
  {
    if tasks == [] {
    } else {
      TotalsOfRequests(tasks[1..]);
    }
  }

  /** Once every request is over, the counters are the requests of each kind and their tokens. */
  lemma CountersAreRequests(slots: nat, events: seq<Event>)
    requires Reached(slots, events).Some?
    requires forall i | 0 <= i < |Reached(slots, events).value.tasks| :: Over(Reached(slots, events).value.tasks[i].phase)
    ensures var s := Reached(slots, events).value;
            && s.counters.streaming == HowMany(s.tasks, Chat(true)) && s.counters.embeddings == HowMany(s.tasks, Embeddings)
            && s.counters.nonStreaming == HowMany(s.tasks, Chat(false)) + HowMany(s.tasks, Embeddings)
            && s.counters.prompt == Prompts(s.tasks) && s.counters.completion == Outputs(s.tasks)
  {
    hide Total, Reached, Over;
    var s := Reached(slots, events).value;
    AlwaysAccounted(slots, events);
    TotalsOfRequests(s.tasks);
    assert Reading(s, slots, Streaming) == Total(s.tasks, Streaming) && Reading(s, slots, Embedded) == Total(s.tasks, Embedded);
    assert Reading(s, slots, NonStreaming) == Total(s.tasks, NonStreaming);
    assert Reading(s, slots, Prompt) == Total(s.tasks, Prompt) && Reading(s, slots, Completion) == Total(s.tasks, Completion);
  }

  // -------------------------------------------------------------------------
  // The backend's own state
  // -------------------------------------------------------------------------

  class Backend {
    var faults: Faults
    var counters: Counters
    var free: nat
    var tasks: seq<Task>

    ghost function Snapshot(): State
      reads this
    {
      State(faults, counters, free, tasks)
    }

    constructor (slots: nat)
      ensures Snapshot() == Start(slots)
    {
      faults, counters, free, tasks := map[], Counters(0, 0, 0, 0, 0, 0), slots, [];
    }

    /** A control command; an unknown mode is refused and changes nothing. */
    method Command(model: Option<string>, mode: Option<string>) returns (accepted: bool)
      modifies this
      ensures var key, m := if model.Some? then model.value else EVERY, ParseMode(if mode.Some? then mode.value else "");
              && accepted == m.Some?
              && Snapshot() == if m.Some? then After(old(Snapshot()), Control(key, m.value)) else old(Snapshot())
    {
      var key := if model.Some? then model.value else EVERY;
      var m := ParseMode(if mode.Some? then mode.value else "");
      if m.None? { return false; }
      if m.value == NoFault {
        if key == EVERY {
          faults := map[];
        } else {
          faults := faults - {key};
        }
      } else {
        faults := faults[key := m.value];
      }
      return true;
    }

    method Accept(request: Request) returns (i: nat)
      modifies this`tasks
      ensures Snapshot() == After(old(Snapshot()), Arrive(request)) && i == |old(tasks)|
    {
      i := |tasks|;
      tasks := tasks + [Task(request, Counting(0))];
    }

    /** Raise the next of a request's counters. */
    method CountOne(i: nat)
      requires Enabled(Snapshot(), Count(i))
      modifies this`counters, this`tasks
      ensures Snapshot() == After(old(Snapshot()), Count(i))
    {
      var t := tasks[i];
      match t.request.kind {
      case Chat(stream) =>
        if t.phase.raised == 0 {
          counters := counters.(requests := counters.requests + 1);
        } else if t.phase.raised == 1 {
          if stream {
            counters := counters.(streaming := counters.streaming + 1);
          } else {
            counters := counters.(nonStreaming := counters.nonStreaming + 1);
          }
        } else if t.phase.raised == 2 {
          counters := counters.(prompt := counters.prompt + t.request.prompt);
        } else {
          counters := counters.(completion := counters.completion + t.request.output);
        }
      case Embeddings =>
        if t.phase.raised == 0 {
          counters := counters.(requests := counters.requests + 1);
        } else if t.phase.raised == 1 {
          counters := counters.(nonStreaming := counters.nonStreaming + 1);
        } else if t.phase.raised == 2 {
          counters := counters.(embeddings := counters.embeddings + 1);
        } else {
          counters := counters.(prompt := counters.prompt + t.request.prompt);
        }
      }
      tasks := tasks[i := t.(phase := Counting(t.phase.raised + 1))];
    }

    /** Look the request's fault up; a failure answers it at once, without a slot. */
    method Look(i: nat) returns (fault: FaultMode)
      requires i < |tasks| && tasks[i].phase == Counting(COUNTED)
      modifies this`tasks
      ensures Enabled(old(Snapshot()), ReadFault(i, fault))
      ensures Snapshot() == After(old(Snapshot()), ReadFault(i, fault))
    {
      fault := FaultForModel(tasks[i].request.model, faults);
      tasks := tasks[i := tasks[i].(phase := if fault == Fail then Failed else Waiting(fault))];
    }

    /** Take a slot; waits, that is cannot happen, while none is free. */
    method Take(i: nat)
      requires Enabled(Snapshot(), Acquire(i))
      modifies this`free, this`tasks
      ensures Snapshot() == After(old(Snapshot()), Acquire(i))
    {
      free := free - 1;
      tasks := tasks[i := tasks[i].(phase := Holding(tasks[i].phase.fault))];
    }

    /** The answer is complete and the slot goes back. */
    method Answer(i: nat)
      requires Enabled(Snapshot(), Finish(i))
      modifies this`free, this`tasks
      ensures Snapshot() == After(old(Snapshot()), Finish(i))
    {
      free := free + 1;
      tasks := tasks[i := tasks[i].(phase := Answered)];
    }

    /** The client goes away while the request waits or is being answered. */
    method Abandon(i: nat)
      requires Enabled(Snapshot(), Drop(i))
      modifies this`free, this`tasks
      ensures Snapshot() == After(old(Snapshot()), Drop(i))
    {
      if tasks[i].phase.Holding? { free := free + 1; }
      tasks := tasks[i := tasks[i].(phase := Dropped(tasks[i].phase.Holding?))];
    }
  }

  // -------------------------------------------------------------------------
  // The streamed answer
  // -------------------------------------------------------------------------

  /** A field of the request body that should hold an unsigned 64-bit number. */
  datatype Field = Absent | NotANumber | Number(n: nat)

  const WIDTH_32: nat := 0x1_0000_0000
  const MAX_OUTPUT: nat := 4096

  function Clamp(n: nat): nat { if n < 1 then 1 else if n > MAX_OUTPUT then MAX_OUTPUT else n }

  /** The output length: the first limit given, cut to 32 bits and clamped. */
  function OutputTokens(maxTokens: Field, maxCompletionTokens: Field, default: nat): (r: nat)
    ensures 1 <= r <= MAX_OUTPUT
  {
    var asked := if maxTokens.Absent? then maxCompletionTokens else maxTokens;
    Clamp(if asked.Number? then asked.n % WIDTH_32 else default)
  }

  /** The cut to 32 bits shows exactly for limits whose low half is below the clamp but whose high half is not zero. */
  lemma LimitIsClamped(n: nat, other: Field, default: nat)
    ensures OutputTokens(Number(n), other, default) == Clamp(n) <==> n < WIDTH_32 || n % WIDTH_32 >= MAX_OUTPUT
  {
    if n < WIDTH_32 { assert n % WIDTH_32 == n; }
  }

  /** The limit is `max_tokens` where there is one, else `max_completion_tokens`; no number gives the default; 1 to 4096. */
  lemma LimitIs(first: Field, second: Field, default: nat, n: nat)
    requires if first.Number? then n == first.n % 4294967296
             else if first.Absent? && second.Number? then n == second.n % 4294967296
             else n == default
    ensures OutputTokens(first, second, default) == if n == 0 then 1 else if n > 4096 then 4096 else n
  {
  }

  datatype Chunk = Role | Content | Final(prompt: nat, completion: nat, total: nat) | Done

  /** What a stream sends: a stalled one stops after its first chunk. */
  method StreamResponse(prompt: nat, output: nat, stall: bool) returns (chunks: seq<Chunk>)
    ensures chunks == if stall then [Role] else [Role] + seq(output, _ => Content) + [Final(prompt, output, prompt + output), Done]
  {
    chunks := [Role];
    if stall { return; }
    for i := 0 to output
      invariant chunks == [Role] + seq(i, _ => Content)
    {
      chunks := chunks + [Content];
    }
    chunks := chunks + [Final(prompt, output, prompt + output)];
    chunks := chunks + [Done];
  }
}
