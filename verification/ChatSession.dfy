/** One chat session under typed and spoken turns (`process_message`, `record_voice_turn`).
    A typed message is two steps, before and after its run; steps of different messages
    and voice turns interleave freely. */
module ChatSession {
  import opened Commons

  datatype Role = User | Assistant

  /** Who wrote a message: the typed message with this index, or a voice turn. */
  datatype Origin = Typed(index: nat) | Voice

  datatype Message = Message(role: Role, content: string, origin: Origin)

  /** A typed message that was let in, and what became of it. */
  datatype Phase = InFlight | Succeeded(response: string) | Failed | Limited

  datatype Entry = Entry(prompt: string, phase: Phase)

  /** `entries` is history: the typed messages let in so far. */
  datatype Session = Session(active: bool, turnCount: nat, messages: seq<Message>, entries: seq<Entry>)

  const NEW := Session(true, 0, [], [])

  const LIMIT_TEXT := "This session reached the configured turn limit. Start a new session to continue."
  const NO_RESPONSE := "I could not generate a response."

  /** `known` is whether the session's workflow is still registered; texts of a voice turn
      are given with surrounding space already stripped. */
  datatype Event =
    | Begin(text: string, known: bool)
    | RunReturns(index: nat, response: string)
    | RunFails(index: nat)
    | Spoken(userText: string, agentText: string)

  /** `max_turns and turn_count > max_turns`. */
  predicate OverLimit(max: Option<int>, count: nat) {
    max.Some? && max.value != 0 && count > max.value
  }

  predicate Refuses(s: Session, known: bool) {
    !s.active || !known
  }

  function AfterBegin(s: Session, max: Option<int>, text: string, known: bool): Session {
    var own := Origin.Typed(|s.entries|);
    var asked := s.messages + [Message(User, text, own)];
    if Refuses(s, known) then s
    else if OverLimit(max, s.turnCount + 1) then
      Session(false, s.turnCount + 1, asked + [Message(Assistant, LIMIT_TEXT, own)], s.entries + [Entry(text, Limited)])
    else Session(true, s.turnCount + 1, asked, s.entries + [Entry(text, InFlight)])
  }

  predicate IsInFlight(s: Session, i: nat) {
    i < |s.entries| && s.entries[i].phase == InFlight
  }

  function OrDefault(response: string): string {
    if response == "" then NO_RESPONSE else response
  }

  function AfterReturn(s: Session, i: nat, response: string): Session {
    if !IsInFlight(s, i) then s
    else s.(messages := s.messages + [Message(Assistant, OrDefault(response), Origin.Typed(i))],
            entries := s.entries[i := s.entries[i].(phase := Succeeded(OrDefault(response)))])
  }

  function AfterFailure(s: Session, i: nat): Session {
    if !IsInFlight(s, i) then s else s.(entries := s.entries[i := s.entries[i].(phase := Failed)])
  }

  function SpokenMessages(userText: string, agentText: string): seq<Message> {
    (if userText != "" then [Message(User, userText, Voice)] else []) +
    (if agentText != "" then [Message(Assistant, agentText, Voice)] else [])
  }

  /** A spoken turn counts and is recorded whether or not the session is active. */
  function AfterSpoken(s: Session, userText: string, agentText: string): Session {
    var spoken := SpokenMessages(userText, agentText);
    if spoken == [] then s else s.(messages := s.messages + spoken, turnCount := s.turnCount + 1)
  }

  function Next(s: Session, max: Option<int>, e: Event): Session {
    match e
    case Begin(text, known) => AfterBegin(s, max, text, known)
    case RunReturns(i, response) => AfterReturn(s, i, response)
    case RunFails(i) => AfterFailure(s, i)
    case Spoken(u, a) => AfterSpoken(s, u, a)
  }

  function Play(max: Option<int>, events: seq<Event>): Session {
    if events == [] then NEW else Next(Play(max, events[..|events| - 1]), max, events[|events| - 1])
  }

  // Properties of every run

  /** Messages handed to the runtime: all let in but those answered with the limit notice. */
  function Started(entries: seq<Entry>): nat {
    if entries == [] then 0
    else Started(entries[..|entries| - 1]) + if entries[|entries| - 1].phase == Limited then 0 else 1
  }

  /** Voice turns that were recorded: those that said something. */
  function Voiced(events: seq<Event>): nat {
    if events == [] then 0
    else
      var last := events[|events| - 1];
      Voiced(events[..|events| - 1]) +
      if last.Spoken? && (last.userText != "" || last.agentText != "") then 1 else 0
  }

  function Own(messages: seq<Message>, o: Origin): seq<Message> {
    if messages == [] then []
    else
      var last := messages[|messages| - 1];
      Own(messages[..|messages| - 1], o) + if last.origin == o then [last] else []
  }

  /** The messages an entry leaves in the transcript. */
  function Exchange(i: nat, e: Entry): seq<Message> {
    [Message(User, e.prompt, Origin.Typed(i))] +
    match e.phase
    case Succeeded(response) => [Message(Assistant, response, Origin.Typed(i))]
    case Limited => [Message(Assistant, LIMIT_TEXT, Origin.Typed(i))]
    case _ => []
  }

  ghost predicate OwnsExchange(s: Session, i: nat) {
    Own(s.messages, Origin.Typed(i)) == if i < |s.entries| then Exchange(i, s.entries[i]) else []
  }

  /** Each let-in message owns exactly its exchange, in order, wherever it is interleaved. */
  ghost predicate Transcribed(s: Session) {
    forall i: nat :: OwnsExchange(s, i)
  }

  ghost predicate ActiveUntilLimited(s: Session) {
    s.active <==> forall e <- s.entries :: e.phase != Limited
  }

  lemma OwnAppend(messages: seq<Message>, m: Message, o: Origin)
    ensures Own(messages + [m], o) == Own(messages, o) + if m.origin == o then [m] else []
  {
    assert (messages + [m])[..|messages|] == messages;
  }

  lemma OwnAppendVoice(messages: seq<Message>, u: string, a: string, i: nat)
    ensures Own(messages + SpokenMessages(u, a), Origin.Typed(i)) == Own(messages, Origin.Typed(i))
  {
    var m1 := messages + if u != "" then [Message(User, u, Voice)] else [];
    var m2 := m1 + if a != "" then [Message(Assistant, a, Voice)] else [];
    assert m2 == messages + SpokenMessages(u, a);
    if u != "" { OwnAppend(messages, Message(User, u, Voice), Origin.Typed(i)); } else { assert m1 == messages; }
    if a != "" { OwnAppend(m1, Message(Assistant, a, Voice), Origin.Typed(i)); } else { assert m2 == m1; }
  }

  lemma BeginKeepsOwn(s: Session, max: Option<int>, text: string, known: bool, i: nat)
    requires OwnsExchange(s, i)
    ensures OwnsExchange(AfterBegin(s, max, text, known), i)
  {
    if Refuses(s, known) {
    } else {
      var r := AfterBegin(s, max, text, known);
      var own := Origin.Typed(|s.entries|);
      OwnAppend(s.messages, Message(User, text, own), Origin.Typed(i));
      OwnAppend(s.messages + [Message(User, text, own)], Message(Assistant, LIMIT_TEXT, own), Origin.Typed(i));
      if i < |s.entries| {
        assert r.entries[i] == s.entries[i];
      } else if i == |s.entries| {
        assert Own(r.messages, own) == Exchange(i, r.entries[i]);
      }
    }
  }

  lemma ReturnKeepsOwn(s: Session, j: nat, response: string, i: nat)
    requires OwnsExchange(s, i)
    ensures OwnsExchange(AfterReturn(s, j, response), i)
  {
    OwnAppend(s.messages, Message(Assistant, OrDefault(response), Origin.Typed(j)), Origin.Typed(i));
  }

  lemma NextKeepsOwn(s: Session, max: Option<int>, e: Event, i: nat)
    requires OwnsExchange(s, i)
    ensures OwnsExchange(Next(s, max, e), i)
  {
    match e
    case Begin(text, known) => BeginKeepsOwn(s, max, text, known, i);
    case RunReturns(j, response) => ReturnKeepsOwn(s, j, response, i);
    case RunFails(j) =>
    case Spoken(u, a) => OwnAppendVoice(s.messages, u, a, i);
  }

  lemma {:induction false} StartedUpdate(entries: seq<Entry>, i: nat, e: Entry)
    requires i < |entries| && (entries[i].phase == Limited <==> e.phase == Limited)
    ensures Started(entries[i := e]) == Started(entries)
    decreases |entries|
  {
    var n := |entries| - 1;
    if i < n {
      assert entries[i := e][..n] == entries[..n][i := e];
      StartedUpdate(entries[..n], i, e);
    } else {
      assert entries[i := e][..n] == entries[..n];
    }
  }

  ghost predicate Counted(s: Session, max: Option<int>) {
    Started(s.entries) <= s.turnCount && (max.Some? && max.value > 0 ==> Started(s.entries) <= max.value)
  }

  lemma NextKeepsCount(s: Session, max: Option<int>, e: Event)
    requires Counted(s, max)
    ensures Counted(Next(s, max, e), max)
  {
    match e
    case Begin(text, known) =>
      var r := AfterBegin(s, max, text, known);
      if !Refuses(s, known) { assert r.entries[..|s.entries|] == s.entries; }
    case RunReturns(i, response) =>
      if IsInFlight(s, i) { StartedUpdate(s.entries, i, AfterReturn(s, i, response).entries[i]); }
    case RunFails(i) =>
      if IsInFlight(s, i) { StartedUpdate(s.entries, i, AfterFailure(s, i).entries[i]); }
    case Spoken(u, a) =>
  }

  lemma NextKeepsActive(s: Session, max: Option<int>, e: Event)
    requires ActiveUntilLimited(s)
    ensures ActiveUntilLimited(Next(s, max, e))
  {
    var r := Next(s, max, e);
    match e
    case Begin(text, known) =>
      if !Refuses(s, known) { assert r.entries[|s.entries|] in r.entries; }
    case RunReturns(i, _) =>
      assert forall j | 0 <= j < |s.entries| :: r.entries[j].phase == Limited <==> s.entries[j].phase == Limited;
      assert forall j | 0 <= j < |s.entries| :: r.entries[j] in r.entries && s.entries[j] in s.entries;
    case RunFails(i) =>
      assert forall j | 0 <= j < |s.entries| :: r.entries[j].phase == Limited <==> s.entries[j].phase == Limited;
      assert forall j | 0 <= j < |s.entries| :: r.entries[j] in r.entries && s.entries[j] in s.entries;
    case Spoken(u, a) =>
  }

  /** Over every interleaving of typed and spoken turns: with a limit k at most k messages
      reach the runtime, the turn counter is the messages let in plus the voice turns recorded,
      the session is active until a message was limited, and every message let in owns exactly
      its own exchange. */
  lemma {:induction false} EveryRun(max: Option<int>, events: seq<Event>)
    ensures var s := Play(max, events);
      && (max.Some? && max.value > 0 ==> Started(s.entries) <= max.value)
      && Started(s.entries) <= s.turnCount == |s.entries| + Voiced(events)
      && ActiveUntilLimited(s) && Transcribed(s)
    decreases |events|
  {
    if events != [] {
      var front, e := events[..|events| - 1], events[|events| - 1];
      EveryRun(max, front);
      forall i: nat ensures OwnsExchange(Play(max, events), i) {
        assert OwnsExchange(Play(max, front), i);
        NextKeepsOwn(Play(max, front), max, e, i);
      }
      NextKeepsCount(Play(max, front), max, e);
      NextKeepsActive(Play(max, front), max, e);
    }
  }

  /** A message typed into an active session is limited exactly when the messages let in and the
      voice turns recorded before it have reached the limit. */
  lemma LimitedIffReached(max: Option<int>, events: seq<Event>, text: string)
    requires Play(max, events).active
    ensures var s, r := Play(max, events), Play(max, events + [Begin(text, true)]);
      && |r.entries| == |s.entries| + 1
      && (r.entries[|s.entries|].phase == Limited <==>
          max.Some? && max.value != 0 && |s.entries| + Voiced(events) >= max.value)
  {
    EveryRun(max, events);
    assert (events + [Begin(text, true)])[..|events|] == events;
  }

  /** What an event adds to the transcript: a typed message and perhaps the notice, if the session
      is active and its workflow known; a response as it came, with a default for an empty one;
      the texts of a voice turn that are not empty. */
  ghost predicate Says(s: Session, r: Session, max: Option<int>, e: Event) {
    // a message let in stays in flight until its own run is over
    (forall i | IsInFlight(s, i) && e != RunFails(i) && !(e.RunReturns? && e.index == i) :: IsInFlight(r, i)) &&
    match e
    case Begin(text, known) =>
      var own := Origin.Typed(|s.entries|);
      if !s.active || !known then r == s
      else if max.Some? && max.value != 0 && s.turnCount >= max.value then
        r.messages == s.messages + [Message(User, text, own), Message(Assistant, LIMIT_TEXT, own)]
      else IsInFlight(r, |s.entries|) && r.messages == s.messages + [Message(User, text, own)]
    case RunReturns(i, response) =>
      if !IsInFlight(s, i) then r == s
      else if response == "" then r.messages == s.messages + [Message(Assistant, NO_RESPONSE, Origin.Typed(i))]
      else r.messages == s.messages + [Message(Assistant, response, Origin.Typed(i))]
    case RunFails(_) => r.messages == s.messages
    case Spoken(said, heard) =>
      if said == "" && heard == "" then r == s
      else if heard == "" then r.messages == s.messages + [Message(User, said, Voice)]
      else if said == "" then r.messages == s.messages + [Message(Assistant, heard, Voice)]
      else r.messages == s.messages + [Message(User, said, Voice), Message(Assistant, heard, Voice)]
  }

  /** After whatever came before. */
  lemma WhatIsSaid(max: Option<int>, events: seq<Event>, e: Event)
    ensures Says(Play(max, events), Play(max, events + [e]), max, e)
  {
    assert (events + [e])[..|events|] == events;
  }

  function Typed(texts: seq<string>): seq<Event> {
    seq(|texts|, i requires 0 <= i < |texts| => Begin(texts[i], true))
  }

  /** How many of n typed messages a limit lets through to the runtime. */
  function Cap(max: Option<int>, n: nat): nat {
    if max.None? || max.value == 0 || n <= max.value then n else if max.value < 0 then 0 else max.value
  }

  /** A limit cuts off no sooner than it says: of n messages typed into a fresh session exactly
      the first k reach the runtime, one more is answered with the notice, and an absent or
      zero limit is none. */
  lemma {:induction false} LimitIsExact(max: Option<int>, texts: seq<string>)
    ensures var s := Play(max, Typed(texts));
      && Started(s.entries) == Cap(max, |texts|)
      && s.turnCount == |s.entries| == (if Cap(max, |texts|) < |texts| then Cap(max, |texts|) + 1 else |texts|)
      && (s.active <==> Cap(max, |texts|) == |texts|)
    decreases |texts|
  {
    if texts != [] {
      var front := texts[..|texts| - 1];
      assert Typed(texts)[..|texts| - 1] == Typed(front);
      LimitIsExact(max, front);
      var s, r := Play(max, Typed(front)), Play(max, Typed(texts));
      if s.active { assert r.entries[..|s.entries|] == s.entries; }
    }
  }

  /** The limit closes a session for good: the first message past it is answered with the
      notice, and whatever happens afterwards, each later one is refused and changes nothing. */
  lemma {:induction false} LimitIsFinal(max: Option<int>, before: seq<Event>, text: string, after: seq<Event>,
      later: string, known: bool)
    requires Play(max, before).active && OverLimit(max, Play(max, before).turnCount + 1)
    ensures var s := Play(max, before + [Begin(text, true)] + after);
      !s.active && Next(s, max, Begin(later, known)) == s && |s.entries| == |Play(max, before).entries| + 1
    decreases |after|
  {
    var closed := before + [Begin(text, true)];
    var all := closed + after;
    if after == [] {
      assert all == closed && closed[..|closed| - 1] == before;
    } else {
      var front := after[..|after| - 1];
      LimitIsFinal(max, before, text, front, later, known);
      assert all[..|all| - 1] == closed + front && all[|all| - 1] == after[|after| - 1];
    }
  }

  // The objects

  class ConversationState {
    var active: bool
    var turnCount: nat
    var messages: seq<Message>
    ghost var entries: seq<Entry>

    ghost function View(): Session
      reads this
    {
      Session(active, turnCount, messages, entries)
    }

    constructor ()
      ensures View() == NEW
    {
      active, turnCount, messages, entries := true, 0, [], [];
    }

    method AddMessage(role: Role, content: string, origin: Origin)
      modifies this`messages
      ensures messages == old(messages) + [Message(role, content, origin)]
    {
      messages := messages + [Message(role, content, origin)];
    }

    method IncrementTurn()
      modifies this`turnCount
      ensures turnCount == old(turnCount) + 1
    {
      turnCount := turnCount + 1;
    }

    /** `process_message` up to its first await: refused, answered with the limit notice, or
        handed to the runtime. */
    method BeginMessage(max: Option<int>, text: string, known: bool, index: nat)
      returns (refused: bool, reachesRuntime: bool)
      requires index == |entries|
      modifies this
      ensures View() == AfterBegin(old(View()), max, text, known)
      ensures refused <==> !old(active) || !known
      ensures refused ==> View() == old(View())
      ensures reachesRuntime <==> !refused && (max == None || max.value == 0 || turnCount <= max.value)
      ensures !refused ==> turnCount == old(turnCount) + 1 && (active <==> reachesRuntime)
      ensures reachesRuntime ==> messages == old(messages) + [Message(User, text, Origin.Typed(index))]
      ensures refused || reachesRuntime || messages == old(messages) +
              [Message(User, text, Origin.Typed(index)), Message(Assistant, LIMIT_TEXT, Origin.Typed(index))]
    {
      if !active || !known { return true, false; }
      refused := false;
      AddMessage(User, text, Origin.Typed(index));
      IncrementTurn();
      if max.Some? && max.value != 0 && turnCount > max.value {
        active := false;
        AddMessage(Assistant, LIMIT_TEXT, Origin.Typed(index));
        entries := entries + [Entry(text, Limited)];
        return false, false;
      }
      entries := entries + [Entry(text, InFlight)];
      return false, true;
    }

    /** The rest of `process_message`, after a run that returned. */
    method FinishMessage(index: nat, response: string)
      requires IsInFlight(View(), index)
      modifies this
      ensures View() == AfterReturn(old(View()), index, response)
      ensures response != "" ==> messages == old(messages) + [Message(Assistant, response, Origin.Typed(index))]
      ensures response == "" ==> messages == old(messages) + [Message(Assistant, NO_RESPONSE, Origin.Typed(index))]
    {
      var text := if response != "" then response else NO_RESPONSE;
      AddMessage(Assistant, text, Origin.Typed(index));
      entries := entries[index := entries[index].(phase := Succeeded(text))];
    }

    method RecordVoiceTurn(userText: string, agentText: string) returns (recorded: bool)
      modifies this
      ensures View() == AfterSpoken(old(View()), userText, agentText)
      ensures recorded <==> userText != "" || agentText != ""
    {
      if userText == "" && agentText == "" { return false; }
      if userText != "" { AddMessage(User, userText, Voice); }
      if agentText != "" { AddMessage(Assistant, agentText, Voice); }
      IncrementTurn();
      return true;
    }
  }
}
