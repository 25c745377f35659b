/** Live event streaming (`SessionManager.stream_message` over `StreamEventBuilder`): a
    generator, a queue filled by the run's sink, one getter task at a time, and the run
    task, interleaved at their awaits in any order. */
module EventStream {
  import opened Commons
  import ChatSession

  datatype DeltaType =
    | Start | Token | ReasoningDelta | NodeStarted | NodeInput | NodeOutput
    | ToolCallStart | ToolCallArgs | ToolCallResult | AgentTransfer | Citation | Error | Done

  /** What the sink is called with; payloads are opaque. */
  datatype Item = Item(eventType: string, payload: string, agentId: Option<string>)

  datatype Frame = Frame(kind: DeltaType, payload: string, agentId: Option<string>)

  datatype Delta = Delta(sequence: nat, frame: Frame)

  /** `ResponseDeltaType(event_type)`, unknown names becoming reasoning deltas. */
  function ParseType(name: string): DeltaType {
    match name
    case "start" => Start
    case "token" => Token
    case "reasoning_delta" => ReasoningDelta
    case "node_started" => NodeStarted
    case "node_input" => NodeInput
    case "node_output" => NodeOutput
    case "tool_call_start" => ToolCallStart
    case "tool_call_args" => ToolCallArgs
    case "tool_call_result" => ToolCallResult
    case "agent_transfer" => AgentTransfer
    case "citation" => Citation
    case "error" => Error
    case "done" => Done
    case _ => ReasoningDelta
  }

  function LiveFrame(i: Item): Frame {
    Frame(ParseType(i.eventType), i.payload, i.agentId)
  }

  /** How the run task ended: a response, an exception, or cancellation, which the
      generator's `except Exception` does not catch. */
  datatype Outcome = Running | Succeeded(response: string, summary: string) | Failed(error: string) | RunCancelled

  /** The task awaiting `queue.get()`. */
  datatype Getter = NoGetter | Blocked | Holding(item: Item)

  /** Where the generator is suspended. `Top` is the head of the live loop. */
  datatype Pc = Top | Waiting | Draining | Sealing | Closing | Finished | Aborted

  /** `pushed`, `live` and `atEnd` are history: all items put on the queue, how many of them
      were yielded, and how many had been put when the run task ended. */
  datatype State = State(
    pc: Pc, queue: seq<Item>, getter: Getter, run: Outcome, out: seq<Delta>, sequence: nat,
    pushed: seq<Item>, live: nat, atEnd: nat)

  datatype Choice = Push(item: Item) | RunEnds(outcome: Outcome) | GetterTakes | Resume

  function Emit(s: State, f: Frame): State {
    s.(out := s.out + [Delta(s.sequence, f)], sequence := s.sequence + 1)
  }

  function StartFrame(info: string): Frame {
    Frame(Start, info, None)
  }

  /** After START has been yielded and the run task created. */
  function Init(info: string): State {
    Emit(State(Top, [], NoGetter, Running, [], 0, [], 0, 0), StartFrame(info))
  }

  /** The frames that close a stream, by outcome. */
  function Closing(run: Outcome): seq<Frame> {
    match run
    case Succeeded(response, summary) =>
      (if response != "" then [Frame(Token, response, None)] else []) + [Frame(Done, summary, None)]
    case Failed(error) => [Frame(Error, error, None)]
    case _ => []
  }

  predicate Enabled(s: State, c: Choice) {
    match c
    case Push(_) => true
    case RunEnds(o) => s.run == Running && o != Running
    case GetterTakes => s.getter == Blocked && s.queue != []
    case Resume =>
      match s.pc
      case Waiting => s.getter.Holding? || s.run != Running
      case Sealing => s.run != Running
      case Finished => false
      case Aborted => false
      case _ => true
  }

  /** The generator runs on from where it is suspended, to its next await or yield. */
  function Resumed(s: State): State
    requires Enabled(s, Resume)
  {
    match s.pc
    case Top => s.(getter := Blocked, pc := Waiting)
    case Waiting =>
      if s.getter.Holding? then
        Emit(s, LiveFrame(s.getter.item)).(getter := NoGetter, pc := Top, live := s.live + 1)
      else s.(getter := NoGetter, pc := Draining)
    case Draining =>
      if s.queue != [] then Emit(s, LiveFrame(s.queue[0])).(queue := s.queue[1..], live := s.live + 1)
      else s.(pc := Sealing)
    case Sealing =>
      (match s.run
       case Succeeded(response, summary) =>
         if response != "" then Emit(s, Frame(Token, response, None)).(pc := Pc.Closing)
         else Emit(s, Frame(Done, summary, None)).(pc := Finished)
       case Failed(error) => Emit(s, Frame(Error, error, None)).(pc := Finished)
       case _ => s.(pc := Aborted))
    case Closing =>
      Emit(s, Frame(Done, if s.run.Succeeded? then s.run.summary else "", None)).(pc := Finished)
  }

  function Next(s: State, c: Choice): State
    requires Enabled(s, c)
  {
    match c
    case Push(i) => s.(queue := s.queue + [i], pushed := s.pushed + [i])
    case RunEnds(o) => s.(run := o, atEnd := |s.pushed|)
    case GetterTakes => s.(getter := Holding(s.queue[0]), queue := s.queue[1..])
    case Resume => Resumed(s)
  }

  /** A schedule in which choices that are not enabled are skipped. */
  function Play(info: string, cs: seq<Choice>): State {
    if cs == [] then Init(info)
    else
      var s := Play(info, cs[..|cs| - 1]);
      if Enabled(s, cs[|cs| - 1]) then Next(s, cs[|cs| - 1]) else s
  }

  // The invariant

  function LiveFrames(items: seq<Item>): seq<Frame> {
    seq(|items|, i requires 0 <= i < |items| => LiveFrame(items[i]))
  }

  function Number(frames: seq<Frame>): seq<Delta> {
    seq(|frames|, i requires 0 <= i < |frames| => Delta(i, frames[i]))
  }

  function Held(g: Getter): seq<Item> {
    if g.Holding? then [g.item] else []
  }

  /** The frames yielded after the live ones. */
  function Tail(s: State): seq<Frame> {
    match s.pc
    case Closing => if s.run.Succeeded? then [Frame(Token, s.run.response, None)] else []
    case Finished => Closing(s.run)
    case _ => []
  }

  function Expected(info: string, s: State): seq<Frame>
    requires s.live <= |s.pushed|
  {
    [StartFrame(info)] + LiveFrames(s.pushed[..s.live]) + Tail(s)
  }

  ghost predicate Inv(info: string, s: State) {
    && s.live <= |s.pushed| && s.sequence == |s.out|
    && s.out == Number(Expected(info, s))
    // nothing is lost or duplicated between the sink and the output
    && s.pushed[s.live..] == Held(s.getter) + s.queue
    && (s.getter != NoGetter ==> s.pc == Waiting)
    && (s.run != Running ==> s.atEnd <= |s.pushed|)
    && (s.pc in {Pc.Sealing, Pc.Closing, Pc.Finished, Pc.Aborted} ==> s.run != Running && s.live >= s.atEnd)
    && (s.pc == Draining ==> s.run != Running)
    && (s.pc == Pc.Closing ==> s.run.Succeeded? && s.run.response != "")
    && (s.pc == Waiting ==> s.getter != NoGetter)
    && (s.pc == Finished ==> s.run.Succeeded? || s.run.Failed?)
    && (s.pc == Aborted ==> s.run == RunCancelled)
  }

  lemma WaitingKeeps(info: string, s: State)
    requires Inv(info, s) && s.pc == Waiting && Enabled(s, Resume)
    ensures Inv(info, Resumed(s))
  {
    var r := Resumed(s);
    if s.getter.Holding? {
      assert s.pushed[s.live..][0] == s.getter.item && s.pushed[s.live..][1..] == s.queue;
      assert s.pushed[..r.live] == s.pushed[..s.live] + [s.getter.item];
      assert Expected(info, r) == Expected(info, s) + [LiveFrame(s.getter.item)];
    } else {
      assert Expected(info, r) == Expected(info, s);
    }
  }

  lemma DrainingKeeps(info: string, s: State)
    requires Inv(info, s) && s.pc == Draining
    ensures Inv(info, Resumed(s))
  {
    if s.queue != [] {
      assert s.pushed[s.live..] == s.queue;
    } else {
      assert Expected(info, Resumed(s)) == Expected(info, s);
    }
  }

  lemma SealingKeeps(info: string, s: State)
    requires Inv(info, s) && s.pc == Sealing
    ensures Inv(info, Resumed(s))
  {
    var r := Resumed(s);
    if s.run == RunCancelled {
      assert Expected(info, r) == Expected(info, s);
    } else {
      assert Expected(info, r) == Expected(info, s) + [Closing(s.run)[0]];
    }
  }

  lemma ClosingKeeps(info: string, s: State)
    requires Inv(info, s) && s.pc == Pc.Closing
    ensures Inv(info, Resumed(s))
  {
    assert Expected(info, Resumed(s)) == Expected(info, s) + [Frame(Done, s.run.summary, None)];
  }

  lemma ResumeKeeps(info: string, s: State)
    requires Inv(info, s) && Enabled(s, Resume)
    ensures Inv(info, Resumed(s))
  {
    match s.pc
    case Top => assert Expected(info, Resumed(s)) == Expected(info, s);
    case Waiting => WaitingKeeps(info, s);
    case Draining => DrainingKeeps(info, s);
    case Sealing => SealingKeeps(info, s);
    case Closing => ClosingKeeps(info, s);
  }

  lemma NextKeeps(info: string, s: State, c: Choice)
    requires Inv(info, s) && Enabled(s, c)
    ensures Inv(info, Next(s, c))
  {
    match c
    case Push(i) =>
      assert (s.pushed + [i])[..s.live] == s.pushed[..s.live];
      assert (s.pushed + [i])[s.live..] == s.pushed[s.live..] + [i];
    case RunEnds(o) =>
    case GetterTakes => assert [s.queue[0]] + s.queue[1..] == s.queue;
    case Resume => ResumeKeeps(info, s);
  }

  lemma {:induction false} EveryScheduleKeepsInv(info: string, cs: seq<Choice>)
    ensures Inv(info, Play(info, cs))
    decreases |cs|
  {
    if cs == [] {
      assert Number([StartFrame(info)]) == [Delta(0, StartFrame(info))];
      assert Expected(info, Init(info)) == [StartFrame(info)];
    } else {
      EveryScheduleKeepsInv(info, cs[..|cs| - 1]);
      var s := Play(info, cs[..|cs| - 1]);
      if Enabled(s, cs[|cs| - 1]) { NextKeeps(info, s, cs[|cs| - 1]); }
    }
  }

  // What happened, told from the choices alone

  /** The items put on the queue. */
  function Pushes(cs: seq<Choice>): seq<Item> {
    if cs == [] then []
    else
      var last := cs[|cs| - 1];
      Pushes(cs[..|cs| - 1]) + if last.Push? then [last.item] else []
  }

  /** When the run task ends: its first outcome, or never. */
  function EndsAt(cs: seq<Choice>): (k: nat)
    ensures k <= |cs| && (k < |cs| ==> cs[k].RunEnds? && cs[k].outcome != Running)
  {
    if cs == [] then 0
    else
      var n := |cs| - 1;
      var k := EndsAt(cs[..n]);
      if k < n || (cs[n].RunEnds? && cs[n].outcome != Running) then k else n + 1
  }

  function OutcomeOf(cs: seq<Choice>): Outcome {
    if EndsAt(cs) < |cs| then cs[EndsAt(cs)].outcome else Running
  }

  lemma {:induction false} HistoryIsTold(info: string, cs: seq<Choice>)
    ensures var s := Play(info, cs);
      && s.pushed == Pushes(cs) && s.run == OutcomeOf(cs)
      && (s.run != Running ==> s.atEnd == |Pushes(cs[..EndsAt(cs)])|)
    decreases |cs|
  {
    if cs != [] {
      var n := |cs| - 1;
      HistoryIsTold(info, cs[..n]);
      if EndsAt(cs) < n { assert cs[..n][..EndsAt(cs)] == cs[..EndsAt(cs)]; }
    }
  }

  /** How the repository spells the types. */
  function Spelling(t: DeltaType): string {
    match t
    case Start => "start"
    case Token => "token"
    case ReasoningDelta => "reasoning_delta"
    case NodeStarted => "node_started"
    case NodeInput => "node_input"
    case NodeOutput => "node_output"
    case ToolCallStart => "tool_call_start"
    case ToolCallArgs => "tool_call_args"
    case ToolCallResult => "tool_call_result"
    case AgentTransfer => "agent_transfer"
    case Citation => "citation"
    case Error => "error"
    case Done => "done"
  }

  /** The type of that name; a reasoning delta, if there is none. */
  ghost predicate IsNamed(t: DeltaType, name: string) {
    Spelling(t) == name || (t == ReasoningDelta && forall other :: Spelling(other) != name)
  }

  lemma TypeIsNamed(name: string)
    ensures IsNamed(ParseType(name), name)
  {
    forall t | Spelling(t) == name ensures ParseType(name) == t { ParseSpelling(t); }
  }

  lemma ParseSpelling(t: DeltaType)
    ensures ParseType(Spelling(t)) == t
  {
  }

  /** The delta with this number hands the item on. */
  ghost predicate Relays(d: Delta, sequence: nat, i: Item) {
    d.sequence == sequence && IsNamed(d.frame.kind, i.eventType) &&
    d.frame.payload == i.payload && d.frame.agentId == i.agentId
  }

  /** A stream opens with START and hands on the first `live` items, in order. */
  ghost predicate Relayed(info: string, out: seq<Delta>, items: seq<Item>, live: nat) {
    && live <= |items| && live < |out| && out[0] == Delta(0, Frame(Start, info, None))
    && forall k: nat | k < live :: Relays(out[k + 1], k + 1, items[k])
  }

  /** ... and then yields the closing frames, numbered on. */
  ghost predicate Yields(info: string, out: seq<Delta>, items: seq<Item>, live: nat, tail: seq<Frame>) {
    && Relayed(info, out, items, live) && |out| == 1 + live + |tail|
    && forall j | live < j < |out| :: out[j] == Delta(j, tail[j - live - 1])
  }

  lemma OutOf(info: string, s: State)
    requires Inv(info, s)
    ensures Yields(info, s.out, s.pushed, s.live, Tail(s))
  {
    forall k: nat | k < s.live ensures Relays(s.out[k + 1], k + 1, s.pushed[k]) {
      assert Expected(info, s)[k + 1] == LiveFrame(s.pushed[k]);
      TypeIsNamed(s.pushed[k].eventType);
    }
  }

  lemma OutRelays(info: string, cs: seq<Choice>)
    ensures var s := Play(info, cs); Yields(info, s.out, Pushes(cs), s.live, Tail(s))
  {
    EveryScheduleKeepsInv(info, cs);
    HistoryIsTold(info, cs);
    OutOf(info, Play(info, cs));
  }

  /** A run that returned is closed by its response, if it is not empty, and DONE with its summary;
      one that failed by ERROR with the text of its exception. */
  ghost predicate Closed(closing: seq<Delta>, sequence: nat, run: Outcome) {
    match run
    case Succeeded(response, summary) =>
      if response == "" then closing == [Delta(sequence, Frame(Done, summary, None))]
      else closing == [Delta(sequence, Frame(Token, response, None)), Delta(sequence + 1, Frame(Done, summary, None))]
    case Failed(error) => closing == [Delta(sequence, Frame(Error, error, None))]
    case _ => false
  }

  lemma TailCloses(s: State, closing: seq<Delta>, sequence: nat)
    requires s.pc == Finished && (s.run.Succeeded? || s.run.Failed?) && |closing| == |Tail(s)|
    requires forall i | 0 <= i < |closing| :: closing[i] == Delta(sequence + i, Tail(s)[i])
    ensures Closed(closing, sequence, s.run)
  {
  }

  // Main results

  /** A consumed stream is START and the pushed items in push order, numbered 0, 1, 2, ..., with
      every item pushed before the run ended among them, and then what closes it. */
  lemma ConsumedStream(info: string, cs: seq<Choice>)
    requires Play(info, cs).pc == Finished
    ensures var s := Play(info, cs);
      && EndsAt(cs) < |cs| && |Pushes(cs[..EndsAt(cs)])| <= s.live
      && Relayed(info, s.out, Pushes(cs), s.live)
      && Closed(s.out[s.live + 1..], s.live + 1, cs[EndsAt(cs)].outcome)
  {
    EveryScheduleKeepsInv(info, cs);
    HistoryIsTold(info, cs);
    OutRelays(info, cs);
    var s := Play(info, cs);
    TailCloses(s, s.out[s.live + 1..], s.live + 1);
  }

  /** A stream that has stopped closed itself exactly when its run was not cancelled; a cancelled
      run leaves START and the live frames. */
  lemma StoppedStream(info: string, cs: seq<Choice>)
    requires Play(info, cs).pc in {Pc.Finished, Pc.Aborted}
    ensures var s := Play(info, cs);
      && EndsAt(cs) < |cs| && |Pushes(cs[..EndsAt(cs)])| <= s.live
      && Relayed(info, s.out, Pushes(cs), s.live)
      && (s.out[s.live + 1..] == [] <==> cs[EndsAt(cs)].outcome == RunCancelled)
      && (s.pc == Aborted <==> cs[EndsAt(cs)].outcome == RunCancelled)
  {
    EveryScheduleKeepsInv(info, cs);
    HistoryIsTold(info, cs);
    OutRelays(info, cs);
  }

  /** A cancelled run's stream can stop: its getter is given up, nothing is left to drain, and
      the cancellation passes through. Only START was yielded. */
  lemma CancelledRunStops(info: string)
    ensures var s := Play(info, [Resume, RunEnds(RunCancelled), Resume, Resume, Resume]);
      s.pc == Aborted && s.out == [Delta(0, Frame(Start, info, None))]
  {
    var cs := [Resume, RunEnds(RunCancelled), Resume, Resume, Resume];
    var none: seq<Choice> := [];
    var waiting := Init(info).(getter := Blocked, pc := Waiting);
    var ended := waiting.(run := RunCancelled);
    assert cs[..1] == [Resume] && cs[..1][..0] == none && cs[..2] == [Resume, RunEnds(RunCancelled)];
    assert cs[..2][..1] == cs[..1] && cs[..3][..2] == cs[..2] && cs[..4][..3] == cs[..3];
    assert Play(info, none) == Init(info);
    assert Play(info, cs[..1]) == waiting;
    assert Play(info, cs[..2]) == ended;
    assert Play(info, cs[..3]) == ended.(getter := NoGetter, pc := Draining);
    assert Play(info, cs[..4]) == ended.(getter := NoGetter, pc := Sealing);
  }

  /** What `process_message` can return: the notice of the turn limit, or a run's response with
      a default for an empty one. */
  ghost predicate IsAnswer(response: string) {
    response == ChatSession.LIMIT_TEXT || exists raw :: response == ChatSession.OrDefault(raw)
  }

  /** So a stream whose run returned ends with TOKEN and DONE. */
  lemma AnsweredStream(info: string, cs: seq<Choice>)
    requires Play(info, cs).pc == Finished && OutcomeOf(cs).Succeeded? && IsAnswer(OutcomeOf(cs).response)
    ensures var s, run := Play(info, cs), OutcomeOf(cs);
      Relayed(info, s.out, Pushes(cs), s.live) && s.out[s.live + 1..] ==
        [Delta(s.live + 1, Frame(Token, run.response, None)), Delta(s.live + 2, Frame(Done, run.summary, None))]
  {
    ConsumedStream(info, cs);
    assert forall raw :: ChatSession.OrDefault(raw) != "";
  }

  lemma NotYetRelayed(info: string, s: State)
    requires Inv(info, s)
    ensures s.live <= |s.pushed| && s.pushed == s.pushed[..s.live] + Held(s.getter) + s.queue
  {
    assert s.pushed == s.pushed[..s.live] + s.pushed[s.live..];
  }

  /** What has been yielded is a prefix of what a consumed stream yields, and the items not yet
      yielded are with the getter or on the queue: at every moment of every schedule. */
  lemma PartialStream(info: string, cs: seq<Choice>)
    ensures var s := Play(info, cs);
      && Relayed(info, s.out, Pushes(cs), s.live)
      && Pushes(cs) == Pushes(cs)[..s.live] + Held(s.getter) + s.queue
      && (s.pc !in {Pc.Closing, Pc.Finished} ==> |s.out| == s.live + 1)
  {
    OutRelays(info, cs);
    EveryScheduleKeepsInv(info, cs);
    HistoryIsTold(info, cs);
    NotYetRelayed(info, Play(info, cs));
  }

  /** Generator steps left once the run has ended and nothing more is pushed. */
  function Remaining(s: State): nat {
    match s.pc
    case Top => 3 * |s.queue| + 7
    case Waiting => 3 * |s.queue| + (if s.getter.Holding? then 8 else 6)
    case Draining => |s.queue| + 4
    case Sealing => 3
    case Closing => 2
    case Finished => 0
    case Aborted => 0
  }

  /** Once the run has ended, the generator is never stuck, and every step other than a
      late push brings it closer to its end. */
  lemma StreamTerminates(info: string, s: State, c: Choice)
    requires Inv(info, s) && s.run != Running
    ensures s.pc !in {Pc.Finished, Pc.Aborted} ==> Enabled(s, Resume)
    ensures Enabled(s, c) && !c.Push? ==> Remaining(Next(s, c)) < Remaining(s)
  {
  }

  /** The step, if it is enabled. */
  function Step(s: State, c: Choice): State {
    if Enabled(s, c) then Next(s, c) else s
  }

  lemma WaitingRelays(info: string, s: State)
    requires Inv(info, s) && s.pc == Waiting && s.live < |s.pushed|
    ensures Step(Step(s, GetterTakes), Resume).live == s.live + 1
  {
    assert |s.pushed[s.live..]| > 0;
  }

  lemma PlayOne(info: string, cs: seq<Choice>, c: Choice)
    ensures Play(info, cs + [c]) == Step(Play(info, cs), c)
  {
    assert (cs + [c])[..|cs|] == cs;
  }

  lemma WaitingIsRelayed(info: string, cs: seq<Choice>)
    requires Play(info, cs).pc == Waiting && Play(info, cs).live < |Play(info, cs).pushed|
    ensures Play(info, cs + [GetterTakes] + [Resume]).live == Play(info, cs).live + 1
  {
    EveryScheduleKeepsInv(info, cs);
    WaitingRelays(info, Play(info, cs));
    PlayOne(info, cs, GetterTakes);
    PlayOne(info, cs + [GetterTakes], Resume);
  }

  /** An item need not wait for the run to end: from anywhere in the live loop the next one is
      handed on within three steps. */
  lemma NextIsRelayed(info: string, cs: seq<Choice>)
    requires var s := Play(info, cs); s.pc in {Top, Waiting} && s.live < |Pushes(cs)|
    ensures var waiting := if Play(info, cs).pc == Top then cs + [Resume] else cs;
      Play(info, waiting + [GetterTakes] + [Resume]).live == Play(info, cs).live + 1
  {
    HistoryIsTold(info, cs);
    if Play(info, cs).pc == Top {
      PlayOne(info, cs, Resume);
      WaitingIsRelayed(info, cs + [Resume]);
    } else {
      WaitingIsRelayed(info, cs);
    }
  }

  // The objects

  class StreamEventBuilder {
    var sequence: nat

    constructor ()
      ensures sequence == 0
    {
      sequence := 0;
    }

    /** `delta`: the next number in line. */
    method BuildDelta(f: Frame) returns (d: Delta)
      modifies this
      ensures d == Delta(old(sequence), f) && sequence == old(sequence) + 1
    {
      d := Delta(sequence, f);
      sequence := sequence + 1;
    }
  }

  class MessageStream {
    const builder: StreamEventBuilder
    var pc: Pc
    var queue: seq<Item>
    var pendingGet: Getter
    var runTask: Outcome
    var yielded: seq<Delta>
    ghost var pushed: seq<Item>
    ghost var live: nat
    ghost var atEnd: nat

    ghost function View(): State
      reads this, builder
    {
      State(pc, queue, pendingGet, runTask, yielded, builder.sequence, pushed, live, atEnd)
    }

    constructor (info: string)
      ensures View() == Init(info) && fresh(builder)
    {
      builder := new StreamEventBuilder();
      pc, queue, pendingGet, runTask, yielded := Top, [], NoGetter, Running, [];
      pushed, live, atEnd := [], 0, 0;
      new;
      Yield(StartFrame(info));
    }

    method Yield(f: Frame)
      modifies this`yielded, builder
      ensures View() == Emit(old(View()), f)
    {
      var d := builder.BuildDelta(f);
      yielded := yielded + [d];
    }

    /** `put_nowait`, scheduled on the loop by the sink. */
    method Push(i: Item)
      modifies this
      ensures View() == Next(old(View()), Choice.Push(i))
    {
      queue, pushed := queue + [i], pushed + [i];
    }

    method RunEnds(o: Outcome)
      requires Enabled(View(), Choice.RunEnds(o))
      modifies this
      ensures View() == Next(old(View()), Choice.RunEnds(o))
    {
      runTask, atEnd := o, |pushed|;
    }

    /** The getter task reaches `get_nowait`. */
    method GetterTakes()
      requires Enabled(View(), Choice.GetterTakes)
      modifies this
      ensures View() == Next(old(View()), Choice.GetterTakes)
    {
      pendingGet, queue := Holding(queue[0]), queue[1..];
    }

    /** The body of `stream_message` between two suspensions. */
    method Resume()
      requires Enabled(View(), Choice.Resume)
      modifies this, builder
      ensures View() == Resumed(old(View()))
    {
      match pc
      case Top =>
        pendingGet, pc := Blocked, Waiting;
      case Waiting =>
        if pendingGet.Holding? {
          var item := pendingGet.item;
          pendingGet := NoGetter;
          Yield(LiveFrame(item));
          live, pc := live + 1, Top;
        } else {
          pendingGet, pc := NoGetter, Draining;
        }
      case Draining =>
        if queue != [] {
          var item := queue[0];
          queue := queue[1..];
          Yield(LiveFrame(item));
          live := live + 1;
        } else {
          pc := Sealing;
        }
      case Sealing =>
        if runTask.Succeeded? {
          var Succeeded(response, summary) := runTask;
          if response != "" {
            Yield(Frame(Token, response, None));
            pc := Pc.Closing;
          } else {
            Yield(Frame(DeltaType.Done, summary, None));
            pc := Finished;
          }
        } else if runTask.Failed? {
          Yield(Frame(DeltaType.Error, runTask.error, None));
          pc := Finished;
        } else {
          pc := Aborted;
        }
      case Closing =>
        Yield(Frame(DeltaType.Done, if runTask.Succeeded? then runTask.summary else "", None));
        pc := Finished;
    }
  }
}
