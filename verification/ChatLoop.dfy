/** The tool-calling loop of `internal/relay/chat_proxy.go`, for any backend, any tools and any permission answers. */
module ChatLoop {

  datatype ToolCall = ToolCall(name: string, args: string)

  datatype Message = Message(role: string, content: string, images: seq<string>, toolCalls: seq<ToolCall>)

  datatype ToolResult = ToolResult(name: string, content: string, error: string)

  datatype ToolEvent = ToolEvent(name: string, args: string, result: string)

  /** One backend round: a transport or decoding failure, or a message. */
  datatype Reply = Broken | Reply(message: Message)

  /** Everything outside the loop; a call is named by its round and its place in the reply. */
  datatype World = World(
    backend: (nat, seq<Message>) -> Reply,
    granted: (nat, nat) -> bool,
    safeTool: (nat, nat, ToolCall) -> ToolResult,
    unsafeTool: (nat, nat, ToolCall) -> ToolResult)

  const MAX_ROUNDS := 10

  predicate IsSafeTool(name: string) {
    name == "web_search" || name == "web_fetch"
  }

  /** What the loop does to the outside, in order. */
  datatype Effect =
    | Asked(round: nat, index: nat, call: ToolCall)
    | Granted(round: nat, index: nat)
    | Denied(round: nat, index: nat)
    | RanSafe(round: nat, index: nat, call: ToolCall)
    | RanUnsafe(round: nat, index: nat, call: ToolCall)

  // ---- one call ----

  function CallResult(world: World, round: nat, index: nat, call: ToolCall): ToolResult {
    if IsSafeTool(call.name) then world.safeTool(round, index, call)
    else if world.granted(round, index) then world.unsafeTool(round, index, call)
    else ToolResult(call.name, "", "User denied permission")
  }

  function CallEffects(world: World, round: nat, index: nat, call: ToolCall): seq<Effect> {
    if IsSafeTool(call.name) then [RanSafe(round, index, call)]
    else if world.granted(round, index) then
      [Asked(round, index, call), Granted(round, index), RanUnsafe(round, index, call)]
    else [Asked(round, index, call), Denied(round, index)]
  }

  function Text(result: ToolResult): string {
    if result.error != "" then "error: " + result.error else result.content
  }

  // ---- one round ----

  function ToolMessages(world: World, round: nat, calls: seq<ToolCall>): (r: seq<Message>)
    ensures |r| == |calls|
    ensures forall i :: 0 <= i < |r| ==> r[i] == Message("tool", Text(CallResult(world, round, i, calls[i])), [], [])
  {
    seq(|calls|, i requires 0 <= i < |calls| => Message("tool", Text(CallResult(world, round, i, calls[i])), [], []))
  }

  function ToolEvents(world: World, round: nat, calls: seq<ToolCall>): (r: seq<ToolEvent>)
    ensures |r| == |calls|
    ensures forall i :: 0 <= i < |r| ==>
                          r[i] == ToolEvent(calls[i].name, calls[i].args, Text(CallResult(world, round, i, calls[i])))
  {
    seq(|calls|, i requires 0 <= i < |calls| =>
      ToolEvent(calls[i].name, calls[i].args, Text(CallResult(world, round, i, calls[i]))))
  }

  function RoundEffects(world: World, round: nat, calls: seq<ToolCall>): seq<Effect> {
    if calls == [] then []
    else RoundEffects(world, round, calls[..|calls| - 1]) + CallEffects(world, round, |calls| - 1, calls[|calls| - 1])
  }

  // ---- the loop ----

  datatype Ending = Running | Failed | Answered | Exhausted

  datatype Record = Record(
    messages: seq<Message>, events: seq<ToolEvent>, effects: seq<Effect>, replies: seq<Message>, ending: Ending)

  /** The record after one more reply and its calls. */
  function Extend(world: World, rec: Record, reply: Message): Record {
    var round := |rec.replies|;
    Record(rec.messages + [reply] + ToolMessages(world, round, reply.toolCalls),
           rec.events + ToolEvents(world, round, reply.toolCalls),
           rec.effects + RoundEffects(world, round, reply.toolCalls),
           rec.replies + [reply],
           rec.ending)
  }

  function Converse(world: World, rec: Record): Record
    decreases MAX_ROUNDS - |rec.replies|
  {
    if |rec.replies| >= MAX_ROUNDS then rec.(ending := Exhausted)
    else
      match world.backend(|rec.replies|, rec.messages)
      case Broken => rec.(ending := Failed)
      case Reply(reply) =>
        if reply.toolCalls == [] then Extend(world, rec, reply).(ending := Answered)
        else Converse(world, Extend(world, rec, reply))
  }

  function Begin(request: seq<Message>): Record {
    Record(request, [], [], [], Running)
  }

  /** Two nested loops that append to the messages, the events and the trace of effects. */
  method RunToolLoop(world: World, request: seq<Message>)
    returns (messages: seq<Message>, events: seq<ToolEvent>, effects: seq<Effect>, replies: seq<Message>,
             ending: Ending)
    ensures Record(messages, events, effects, replies, ending) == Converse(world, Begin(request))
  {
    hide ToolMessages, ToolEvents, RoundEffects;
    messages, events, effects, replies, ending := request, [], [], [], Running;
    for round := 0 to MAX_ROUNDS
      invariant |replies| == round && ending == Running
      invariant Converse(world, Begin(request)) == Converse(world, Record(messages, events, effects, replies, Running))
    {
      var reply := world.backend(round, messages);
      if reply.Broken? {
        ending := Failed;
        return;
      }
      var message := reply.message;
      if message.toolCalls == [] {
        EmptyRound(world, Record(messages, events, effects, replies, Running), message);
        messages := messages + [message];
        replies := replies + [message];
        ending := Answered;
        return;
      }
      ghost var before := Record(messages, events, effects, replies, Running);
      messages := messages + [message];
      messages, events, effects := RunCalls(world, round, message.toolCalls, messages, events, effects);
      replies := replies + [message];
      assert Record(messages, events, effects, replies, Running) == Extend(world, before, message);
    }
    ending := Exhausted;
  }

  lemma NoCalls(world: World, round: nat)
    ensures ToolMessages(world, round, []) == [] && ToolEvents(world, round, []) == []
    ensures RoundEffects(world, round, []) == []
  {
  }

  lemma OneMoreCall(world: World, round: nat, calls: seq<ToolCall>, call: ToolCall)
    ensures var content := Text(CallResult(world, round, |calls|, call));
            ToolMessages(world, round, calls + [call]) ==
            ToolMessages(world, round, calls) + [Message("tool", content, [], [])] &&
            ToolEvents(world, round, calls + [call]) ==
            ToolEvents(world, round, calls) + [ToolEvent(call.name, call.args, content)] &&
            RoundEffects(world, round, calls + [call]) ==
            RoundEffects(world, round, calls) + CallEffects(world, round, |calls|, call)
  {
    hide CallResult, CallEffects, Text;
    assert (calls + [call])[..|calls|] == calls;
  }

  /** The inner loop: one tool message, one event and the call's effects per call. */
  method RunCalls(
    world: World, round: nat, calls: seq<ToolCall>,
    messages0: seq<Message>, events0: seq<ToolEvent>, effects0: seq<Effect>)
    returns (messages: seq<Message>, events: seq<ToolEvent>, effects: seq<Effect>)
    ensures messages == messages0 + ToolMessages(world, round, calls)
    ensures events == events0 + ToolEvents(world, round, calls)
    ensures effects == effects0 + RoundEffects(world, round, calls)
  {
    hide CallResult, CallEffects, Text, ToolMessages, ToolEvents, RoundEffects;
    NoCalls(world, round);
    messages, events, effects := messages0, events0, effects0;
    assert calls[..0] == [];
    for i := 0 to |calls|
      invariant messages == messages0 + ToolMessages(world, round, calls[..i])
      invariant events == events0 + ToolEvents(world, round, calls[..i])
      invariant effects == effects0 + RoundEffects(world, round, calls[..i])
    {
      assert calls[..i + 1] == calls[..i] + [calls[i]];
      var result, done := RunCall(world, round, i, calls[i]);
      var content := Text(result);
      OneMoreCall(world, round, calls[..i], calls[i]);
      effects := effects + done;
      events := events + [ToolEvent(calls[i].name, calls[i].args, content)];
      messages := messages + [Message("tool", content, [], [])];
    }
    assert calls[..|calls|] == calls;
  }

  /** A safe tool runs at once; any other only after this call's own permission was asked for and granted. */
  method RunCall(world: World, round: nat, index: nat, call: ToolCall) returns (result: ToolResult, done: seq<Effect>)
    ensures result == CallResult(world, round, index, call)
    ensures done == CallEffects(world, round, index, call)
  {
    if IsSafeTool(call.name) {
      result := world.safeTool(round, index, call);
      done := [RanSafe(round, index, call)];
    } else {
      done := [Asked(round, index, call)];
      var allowed := world.granted(round, index);
      if allowed {
        done := done + [Granted(round, index)];
        result := world.unsafeTool(round, index, call);
        done := done + [RanUnsafe(round, index, call)];
      } else {
        done := done + [Denied(round, index)];
        result := ToolResult(call.name, "", "User denied permission");
      }
    }
  }

  lemma EmptyRound(world: World, rec: Record, reply: Message)
    requires reply.toolCalls == []
    ensures Extend(world, rec, reply) ==
            rec.(messages := rec.messages + [reply], replies := rec.replies + [reply])
  {
  }

  // ---- the shape of a transcript ----

  /** The messages a list of replies leaves behind: each reply followed by one tool message per call, in order. */
  function AllMessages(world: World, replies: seq<Message>): seq<Message> {
    if replies == [] then []
    else
      var n := |replies| - 1;
      AllMessages(world, replies[..n]) + [replies[n]] + ToolMessages(world, n, replies[n].toolCalls)
  }

  function AllEvents(world: World, replies: seq<Message>): seq<ToolEvent> {
    if replies == [] then []
    else
      var n := |replies| - 1;
      AllEvents(world, replies[..n]) + ToolEvents(world, n, replies[n].toolCalls)
  }

  function AllEffects(world: World, replies: seq<Message>): seq<Effect> {
    if replies == [] then []
    else
      var n := |replies| - 1;
      AllEffects(world, replies[..n]) + RoundEffects(world, n, replies[n].toolCalls)
  }

  ghost predicate Faithful(world: World, request: seq<Message>, rec: Record) {
    && rec.messages == request + AllMessages(world, rec.replies)
    && rec.events == AllEvents(world, rec.replies)
    && rec.effects == AllEffects(world, rec.replies)
    && forall k :: 0 <= k < |rec.replies| ==>
         world.backend(k, request + AllMessages(world, rec.replies[..k])) == Reply(rec.replies[k])
  }

  predicate CallsIn(replies: seq<Message>) {
    forall k :: 0 <= k < |replies| ==> replies[k].toolCalls != []
  }

  lemma ExtendFaithful(world: World, request: seq<Message>, rec: Record, reply: Message)
    requires Faithful(world, request, rec) && world.backend(|rec.replies|, rec.messages) == Reply(reply)
    ensures Faithful(world, request, Extend(world, rec, reply))
  {
    hide ToolMessages, ToolEvents, RoundEffects, AllMessages, AllEvents, AllEffects;
    var next := Extend(world, rec, reply);
    var n := |rec.replies|;
    assert next.replies[..n] == rec.replies;
    AllSnoc(world, rec.replies, reply);
    AppendAll(request, AllMessages(world, rec.replies), [reply], ToolMessages(world, n, reply.toolCalls));
    forall k | 0 <= k < |next.replies|
      ensures world.backend(k, request + AllMessages(world, next.replies[..k])) == Reply(next.replies[k])
    {
      assert k < n ==> next.replies[..k] == rec.replies[..k];
    }
  }

  lemma AllSnoc(world: World, replies: seq<Message>, reply: Message)
    ensures AllMessages(world, replies + [reply]) ==
            AllMessages(world, replies) + [reply] + ToolMessages(world, |replies|, reply.toolCalls)
    ensures AllEvents(world, replies + [reply]) ==
            AllEvents(world, replies) + ToolEvents(world, |replies|, reply.toolCalls)
    ensures AllEffects(world, replies + [reply]) ==
            AllEffects(world, replies) + RoundEffects(world, |replies|, reply.toolCalls)
  {
    hide ToolMessages, ToolEvents, RoundEffects;
    assert (replies + [reply])[..|replies|] == replies;
  }

  lemma AppendAll(a: seq<Message>, b: seq<Message>, c: seq<Message>, d: seq<Message>)
    ensures a + b + c + d == a + (b + c + d)
  {
  }

  predicate EndsWell(world: World, end: Record) {
    && |end.replies| <= MAX_ROUNDS
    && end.ending != Running
    && (end.ending == Answered ==>
          end.replies != [] && end.replies[|end.replies| - 1].toolCalls == [] &&
          CallsIn(end.replies[..|end.replies| - 1]))
    && (end.ending != Answered ==> CallsIn(end.replies))
    && (end.ending == Exhausted ==> |end.replies| == MAX_ROUNDS)
    && (end.ending == Failed ==> |end.replies| < MAX_ROUNDS && world.backend(|end.replies|, end.messages) == Broken)
  }

  lemma {:induction false} ConverseShape(world: World, request: seq<Message>, rec: Record)
    requires Faithful(world, request, rec) && CallsIn(rec.replies) && |rec.replies| <= MAX_ROUNDS
    ensures var end := Converse(world, rec);
            Faithful(world, request, end) && EndsWell(world, end)
    decreases MAX_ROUNDS - |rec.replies|
  {
    hide Faithful, Extend;
    if |rec.replies| < MAX_ROUNDS {
      match world.backend(|rec.replies|, rec.messages) {
        case Broken =>
          EndingOnly(world, request, rec, Failed);
        case Reply(reply) =>
          var next := Extend(world, rec, reply);
          ExtendFaithful(world, request, rec, reply);
          assert next.replies == rec.replies + [reply] by {
            ExtendReplies(world, rec, reply);
          }
          if reply.toolCalls == [] {
            assert next.replies[..|rec.replies|] == rec.replies;
            EndingOnly(world, request, next, Answered);
          } else {
            ConverseShape(world, request, next);
          }
      }
    } else {
      EndingOnly(world, request, rec, Exhausted);
    }
  }

  lemma ExtendReplies(world: World, rec: Record, reply: Message)
    ensures Extend(world, rec, reply).replies == rec.replies + [reply]
  {
  }

  lemma EndingOnly(world: World, request: seq<Message>, rec: Record, ending: Ending)
    requires Faithful(world, request, rec)
    ensures Faithful(world, request, rec.(ending := ending))
  {
  }

  /**
   * For every backend: at most ten rounds; the transcript is the request followed by each reply the backend gave to
   * the transcript so far, with exactly one tool message per call behind it, in order; the events are those tool
   * messages; and the loop ends with a reply without calls, with ten rounds of calls, or with a broken backend.
   */
  lemma TranscriptShape(world: World, request: seq<Message>)
    ensures var end := Converse(world, Begin(request));
            Faithful(world, request, end) && |end.replies| <= 10 &&
            (end.ending == Answered <==> end.replies != [] && end.replies[|end.replies| - 1].toolCalls == []) &&
            (end.ending == Exhausted <==> |end.replies| == 10 && CallsIn(end.replies)) &&
            (end.ending == Failed <==> |end.replies| < 10 && CallsIn(end.replies))
  {
    hide Converse;
    var start := Begin(request);
    assert request + [] == request;
    ConverseShape(world, request, start);
    var end := Converse(world, start);
    if end.replies != [] && end.replies[|end.replies| - 1].toolCalls == [] {
      assert !CallsIn(end.replies);
    }
  }

  /** Events and tool messages correspond one to one: the same texts in the same order. */
  function Results(events: seq<ToolEvent>): (r: seq<string>)
    ensures |r| == |events|
  {
    seq(|events|, i requires 0 <= i < |events| => events[i].result)
  }

  /** The contents of the messages that are not the replies themselves. */
  function ToolTexts(world: World, replies: seq<Message>): seq<string> {
    if replies == [] then []
    else
      var n := |replies| - 1;
      ToolTexts(world, replies[..n]) + Contents(ToolMessages(world, n, replies[n].toolCalls))
  }

  function Contents(messages: seq<Message>): (r: seq<string>)
    ensures |r| == |messages|
  {
    seq(|messages|, i requires 0 <= i < |messages| => messages[i].content)
  }

  lemma {:induction false} EventsMatchMessages(world: World, replies: seq<Message>)
    ensures Results(AllEvents(world, replies)) == ToolTexts(world, replies)
    ensures |AllMessages(world, replies)| == |replies| + |AllEvents(world, replies)|
  {
    hide CallResult, Text;
    if replies != [] {
      var n := |replies| - 1;
      EventsMatchMessages(world, replies[..n]);
      var before, last := AllEvents(world, replies[..n]), ToolEvents(world, n, replies[n].toolCalls);
      assert Results(before + last) == Results(before) + Results(last);
      assert Results(last) == Contents(ToolMessages(world, n, replies[n].toolCalls));
    }
  }

  // ---- permissions ----

  predicate IsCallOf(replies: seq<Message>, round: nat, index: nat, call: ToolCall) {
    round < |replies| && index < |replies[round].toolCalls| && replies[round].toolCalls[index] == call
  }

  predicate JustifiedAt(replies: seq<Message>, effects: seq<Effect>, j: nat)
    requires j < |effects|
  {
    match effects[j]
    case RanUnsafe(round, index, call) =>
      j >= 2 && effects[j - 1] == Granted(round, index) && effects[j - 2] == Asked(round, index, call) &&
      !IsSafeTool(call.name) && IsCallOf(replies, round, index, call)
    case RanSafe(round, index, call) => IsSafeTool(call.name) && IsCallOf(replies, round, index, call)
    case _ => true
  }

  /** A dangerous tool runs right behind its own question and grant, a safe tool without; both for made calls. */
  predicate Justified(replies: seq<Message>, effects: seq<Effect>) {
    forall j :: 0 <= j < |effects| ==> JustifiedAt(replies, effects, j)
  }

  lemma JustifiedConcat(replies: seq<Message>, a: seq<Effect>, b: seq<Effect>)
    requires Justified(replies, a) && Justified(replies, b)
    ensures Justified(replies, a + b)
  {
    hide IsSafeTool, IsCallOf;
    forall j | 0 <= j < |a + b| ensures JustifiedAt(replies, a + b, j) {
      if j < |a| {
        assert JustifiedAt(replies, a, j);
      } else {
        assert JustifiedAt(replies, b, j - |a|);
      }
    }
  }

  lemma CallJustified(world: World, replies: seq<Message>, round: nat, index: nat, call: ToolCall)
    requires IsCallOf(replies, round, index, call)
    ensures Justified(replies, CallEffects(world, round, index, call))
  {
  }

  lemma {:induction false} RoundJustified(world: World, replies: seq<Message>, round: nat, calls: seq<ToolCall>)
    requires round < |replies| && calls <= replies[round].toolCalls
    ensures Justified(replies, RoundEffects(world, round, calls))
  {
    hide CallEffects, JustifiedAt;
    if calls != [] {
      var n := |calls| - 1;
      RoundJustified(world, replies, round, calls[..n]);
      CallJustified(world, replies, round, n, calls[n]);
      JustifiedConcat(replies, RoundEffects(world, round, calls[..n]), CallEffects(world, round, n, calls[n]));
    }
  }

  lemma {:induction false} AllJustified(world: World, replies: seq<Message>, k: nat)
    requires k <= |replies|
    ensures Justified(replies, AllEffects(world, replies[..k]))
  {
    hide Justified, RoundEffects;
    if k > 0 {
      var front := replies[..k];
      AllJustified(world, replies, k - 1);
      assert front[..k - 1] == replies[..k - 1];
      RoundJustified(world, replies, k - 1, replies[k - 1].toolCalls);
      JustifiedConcat(replies, AllEffects(world, replies[..k - 1]),
                      RoundEffects(world, k - 1, replies[k - 1].toolCalls));
    } else {
      assert Justified(replies, []) by {
        NothingJustified(replies);
      }
    }
  }

  lemma NothingJustified(replies: seq<Message>)
    ensures Justified(replies, [])
  {
  }

  /** For every run: dangerous tools only right after that call's own grant, all others only if they are safe. */
  lemma UnsafeOnlyAfterGrant(world: World, request: seq<Message>)
    ensures Justified(Converse(world, Begin(request)).replies, Converse(world, Begin(request)).effects)
  {
    hide Converse, Justified;
    TranscriptShape(world, request);
    var end := Converse(world, Begin(request));
    AllJustified(world, end.replies, |end.replies|);
    assert end.replies[..|end.replies|] == end.replies;
  }

  // ---- which tools run ----

  /** The effect belongs to its own call in the transcript. */
  predicate EffectOfCall(world: World, replies: seq<Message>, e: Effect) {
    e.round < |replies| && e.index < |replies[e.round].toolCalls| &&
    e in CallEffects(world, e.round, e.index, replies[e.round].toolCalls[e.index])
  }

  lemma CallEffectPlace(world: World, round: nat, index: nat, call: ToolCall, e: Effect)
    requires e in CallEffects(world, round, index, call)
    ensures e.round == round && e.index == index
  {
  }

  lemma {:induction false} RoundExact(world: World, round: nat, calls: seq<ToolCall>, e: Effect)
    ensures e in RoundEffects(world, round, calls) <==>
            e.round == round && e.index < |calls| && e in CallEffects(world, round, e.index, calls[e.index])
  {
    hide CallEffects;
    if calls != [] {
      var n := |calls| - 1;
      RoundExact(world, round, calls[..n], e);
      if e in CallEffects(world, round, n, calls[n]) {
        CallEffectPlace(world, round, n, calls[n], e);
      }
      if e.round == round && e.index < n {
        assert calls[..n][e.index] == calls[e.index];
      }
    }
  }

  lemma {:induction false} AllExact(world: World, replies: seq<Message>, e: Effect)
    ensures e in AllEffects(world, replies) <==> EffectOfCall(world, replies, e)
  {
    hide CallEffects, RoundEffects;
    if replies != [] {
      var n := |replies| - 1;
      AllExact(world, replies[..n], e);
      RoundExact(world, n, replies[n].toolCalls, e);
      if e.round < n {
        assert replies[..n][e.round] == replies[e.round];
      }
    }
  }

  lemma CallRan(world: World, round: nat, index: nat, made: ToolCall, call: ToolCall)
    ensures var effects, safe := CallEffects(world, round, index, made), IsSafeTool(made.name);
            (RanSafe(round, index, call) in effects <==> made == call && safe) &&
            (Asked(round, index, call) in effects <==> made == call && !safe) &&
            (RanUnsafe(round, index, call) in effects <==> made == call && !safe && world.granted(round, index))
  {
    hide IsSafeTool;
  }

  /**
   * For every run and every call in its transcript: a safe tool runs and is not asked about; any other is asked about,
   * and runs exactly if its own question was granted; and nothing runs that is not such a call.
   */
  lemma RanExactly(world: World, request: seq<Message>, round: nat, index: nat, call: ToolCall)
    ensures var end := Converse(world, Begin(request));
            var made := IsCallOf(end.replies, round, index, call);
            var safe := call.name == "web_search" || call.name == "web_fetch";
            (RanSafe(round, index, call) in end.effects <==> made && safe) &&
            (Asked(round, index, call) in end.effects <==> made && !safe) &&
            (RanUnsafe(round, index, call) in end.effects <==> made && !safe && world.granted(round, index))
  {
    hide Converse, AllEffects, AllMessages, AllEvents, CallsIn, CallEffects;
    TranscriptShape(world, request);
    var end := Converse(world, Begin(request));
    AllExact(world, end.replies, RanSafe(round, index, call));
    AllExact(world, end.replies, Asked(round, index, call));
    AllExact(world, end.replies, RanUnsafe(round, index, call));
    if round < |end.replies| && index < |end.replies[round].toolCalls| {
      CallRan(world, round, index, end.replies[round].toolCalls[index], call);
    }
  }

  // ---- one answer per call ----

  function Place(e: Effect): (nat, nat) {
    (e.round, e.index)
  }

  predicate Before(a: (nat, nat), b: (nat, nat)) {
    a.0 < b.0 || (a.0 == b.0 && a.1 < b.1)
  }

  predicate Asks(e: Effect) {
    e.Asked?
  }

  /** Effects come in the order of the calls, and no call is asked about twice. */
  predicate InCallOrder(effects: seq<Effect>) {
    forall j, k :: 0 <= j < k < |effects| ==>
      Before(Place(effects[j]), Place(effects[k])) ||
      (Place(effects[j]) == Place(effects[k]) && !Asks(effects[k]))
  }

  lemma {:induction false} RoundInOrder(world: World, round: nat, calls: seq<ToolCall>)
    ensures InCallOrder(RoundEffects(world, round, calls))
    ensures forall j :: 0 <= j < |RoundEffects(world, round, calls)| ==>
              RoundEffects(world, round, calls)[j].round == round &&
              RoundEffects(world, round, calls)[j].index < |calls|
  {
    hide IsSafeTool;
    if calls != [] {
      var n := |calls| - 1;
      RoundInOrder(world, round, calls[..n]);
      var a, b := RoundEffects(world, round, calls[..n]), CallEffects(world, round, n, calls[n]);
      assert forall j :: 0 <= j < |b| ==> Place(b[j]) == (round, n) && (j > 0 ==> !Asks(b[j]));
      OrderConcat(a, b);
    }
  }

  lemma OrderConcat(a: seq<Effect>, b: seq<Effect>)
    requires InCallOrder(a) && InCallOrder(b)
    requires forall j, k :: 0 <= j < |a| && 0 <= k < |b| ==> Before(Place(a[j]), Place(b[k]))
    ensures InCallOrder(a + b)
  {
  }

  lemma {:induction false} AllInOrder(world: World, replies: seq<Message>)
    ensures InCallOrder(AllEffects(world, replies))
    ensures forall j :: 0 <= j < |AllEffects(world, replies)| ==> AllEffects(world, replies)[j].round < |replies|
  {
    hide InCallOrder, RoundEffects;
    if replies != [] {
      var n := |replies| - 1;
      AllInOrder(world, replies[..n]);
      RoundInOrder(world, n, replies[n].toolCalls);
      OrderConcat(AllEffects(world, replies[..n]), RoundEffects(world, n, replies[n].toolCalls));
    } else {
      assert InCallOrder([]) by {
        NothingInOrder();
      }
    }
  }

  lemma NothingInOrder()
    ensures InCallOrder([])
  {
  }

  /** For every run the effects follow the calls in order, with at most one question per call. */
  lemma EachCallAskedOnce(world: World, request: seq<Message>)
    ensures InCallOrder(Converse(world, Begin(request)).effects)
  {
    hide Converse, InCallOrder;
    TranscriptShape(world, request);
    AllInOrder(world, Converse(world, Begin(request)).replies);
  }

  // ---- what the transcript holds ----

  /** Messages of the transcript, behind the request, in front of this reply. */
  function MessagesBefore(replies: seq<Message>, round: nat): nat
    requires round <= |replies|
  {
    if round == 0 then 0 else MessagesBefore(replies, round - 1) + 1 + |replies[round - 1].toolCalls|
  }

  /** Events in front of the first call of this reply. */
  function EventsBefore(replies: seq<Message>, round: nat): nat
    requires round <= |replies|
  {
    if round == 0 then 0 else EventsBefore(replies, round - 1) + |replies[round - 1].toolCalls|
  }

  lemma {:induction false} CountsOfFront(replies: seq<Message>, n: nat, round: nat)
    requires round <= n <= |replies|
    ensures MessagesBefore(replies[..n], round) == MessagesBefore(replies, round)
    ensures EventsBefore(replies[..n], round) == EventsBefore(replies, round)
    decreases round
  {
    if round > 0 {
      CountsOfFront(replies, n, round - 1);
    }
  }

  lemma {:induction false} TranscriptCounts(world: World, replies: seq<Message>)
    ensures |AllMessages(world, replies)| == MessagesBefore(replies, |replies|)
    ensures |AllEvents(world, replies)| == EventsBefore(replies, |replies|)
    decreases |replies|
  {
    hide ToolMessages, ToolEvents;
    if replies != [] {
      var n := |replies| - 1;
      TranscriptCounts(world, replies[..n]);
      CountsOfFront(replies, n, n);
    }
  }

  lemma Behind<T>(a: seq<T>, b: seq<T>, i: nat)
    requires i < |b|
    ensures (a + b)[|a| + i] == b[i]
  {
  }

  lemma InFront<T>(a: seq<T>, b: seq<T>, i: nat)
    requires i < |a|
    ensures (a + b)[i] == a[i]
  {
  }

  /** A reply, or the i-th message behind it, has its place in the transcript. */
  lemma {:induction false} MessagePlace(world: World, replies: seq<Message>, round: nat, i: nat)
    requires round < |replies| && i <= |replies[round].toolCalls|
    ensures var at, all := MessagesBefore(replies, round) + i, AllMessages(world, replies);
            var part := [replies[round]] + ToolMessages(world, round, replies[round].toolCalls);
            i < |part| && at < |all| && all[at] == part[i]
    decreases |replies|
  {
    hide MessagesBefore, AllMessages, AllEvents, AllEffects;
    var n := |replies| - 1;
    var front, last := replies[..n], [replies[n]] + ToolMessages(world, n, replies[n].toolCalls);
    assert replies == front + [replies[n]];
    AllSnoc(world, front, replies[n]);
    Associate3(AllMessages(world, front), [replies[n]], ToolMessages(world, n, replies[n].toolCalls));
    TranscriptCounts(world, front);
    CountsOfFront(replies, n, round);
    if round < n {
      MessagePlace(world, front, round, i);
      InFront(AllMessages(world, front), last, MessagesBefore(replies, round) + i);
    } else {
      Behind(AllMessages(world, front), last, i);
    }
  }

  lemma Associate3<T>(a: seq<T>, b: seq<T>, c: seq<T>)
    ensures a + b + c == a + (b + c)
  {
  }

  /** The i-th call of a reply has its place in the events. */
  lemma {:induction false} EventPlace(world: World, replies: seq<Message>, round: nat, i: nat)
    requires round < |replies| && i < |replies[round].toolCalls|
    ensures var at, all := EventsBefore(replies, round) + i, AllEvents(world, replies);
            at < |all| && all[at] == ToolEvents(world, round, replies[round].toolCalls)[i]
    decreases |replies|
  {
    hide EventsBefore, AllMessages, AllEvents, AllEffects;
    var n := |replies| - 1;
    var front, last := replies[..n], ToolEvents(world, n, replies[n].toolCalls);
    assert replies == front + [replies[n]];
    AllSnoc(world, front, replies[n]);
    TranscriptCounts(world, front);
    CountsOfFront(replies, n, round);
    if round < n {
      EventPlace(world, front, round, i);
      InFront(AllEvents(world, front), last, EventsBefore(replies, round) + i);
    } else {
      Behind(AllEvents(world, front), last, i);
    }
  }

  /** `error: ` and the error if there is one, and otherwise the content. */
  predicate Shows(text: string, result: ToolResult) {
    text == if result.error != "" then "error: " + result.error else result.content
  }

  lemma TranscriptParts(world: World, request: seq<Message>)
    ensures var end := Converse(world, Begin(request));
            end.messages == request + AllMessages(world, end.replies) && end.events == AllEvents(world, end.replies)
  {
    hide Converse, CallsIn, AllMessages, AllEvents, AllEffects;
    TranscriptShape(world, request);
  }

  lemma CallTexted(world: World, round: nat, calls: seq<ToolCall>, index: nat)
    requires index < |calls|
    ensures var text := Text(CallResult(world, round, index, calls[index]));
            ToolMessages(world, round, calls)[index] == Message("tool", text, [], []) &&
            ToolEvents(world, round, calls)[index] == ToolEvent(calls[index].name, calls[index].args, text)
  {
    hide CallResult, Text;
  }

  lemma AnswerText(world: World, round: nat, index: nat, call: ToolCall)
    ensures var text := Text(CallResult(world, round, index, call));
            if call.name == "web_search" || call.name == "web_fetch" then
              Shows(text, world.safeTool(round, index, call))
            else if world.granted(round, index) then Shows(text, world.unsafeTool(round, index, call))
            else text == "error: User denied permission"
  {
  }

  /**
   * For every run: each reply stands in the transcript, followed by one tool message per call. The message and the
   * event of a call hold what its tool answered: the safe tool for a web search or a web fetch, the other one for any
   * call that was granted; and for a call that was denied, the denial and nothing a tool returned.
   */
  lemma CallTexts(world: World, request: seq<Message>, round: nat, index: nat)
    requires round < |Converse(world, Begin(request)).replies|
    requires index < |Converse(world, Begin(request)).replies[round].toolCalls|
    ensures var end := Converse(world, Begin(request));
            var call := end.replies[round].toolCalls[index];
            var place := |request| + MessagesBefore(end.replies, round);
            var at, event := place + 1 + index, EventsBefore(end.replies, round) + index;
            at < |end.messages| && event < |end.events| &&
            end.messages[place] == end.replies[round] &&
            var text := end.messages[at].content;
            end.messages[at] == Message("tool", text, [], []) &&
            end.events[event] == ToolEvent(call.name, call.args, text) &&
            if call.name == "web_search" || call.name == "web_fetch" then
              Shows(text, world.safeTool(round, index, call))
            else if world.granted(round, index) then Shows(text, world.unsafeTool(round, index, call))
            else text == "error: User denied permission"
  {
    hide Converse, AllMessages, AllEvents, CallResult, Text, Shows, MessagesBefore, EventsBefore;
    var end := Converse(world, Begin(request));
    var replies := end.replies;
    TranscriptParts(world, request);
    MessagePlace(world, replies, round, 0);
    MessagePlace(world, replies, round, 1 + index);
    EventPlace(world, replies, round, index);
    Behind(request, AllMessages(world, replies), MessagesBefore(replies, round));
    Behind(request, AllMessages(world, replies), MessagesBefore(replies, round) + 1 + index);
    var calls := replies[round].toolCalls;
    AnswerText(world, round, index, calls[index]);
    CallTexted(world, round, calls, index);
  }

  /** The same but for what a tool answers that the call may not consult. */
  ghost predicate SameConsulted(w1: World, w2: World) {
    && w1.backend == w2.backend
    && (forall round, index :: w1.granted(round, index) == w2.granted(round, index))
    && (forall round, index, call: ToolCall {:trigger w1.safeTool(round, index, call)}
                                            {:trigger w2.safeTool(round, index, call)} ::
          call.name == "web_search" || call.name == "web_fetch" ==>
            w1.safeTool(round, index, call) == w2.safeTool(round, index, call))
    && (forall round, index, call: ToolCall {:trigger w1.unsafeTool(round, index, call)}
                                            {:trigger w2.unsafeTool(round, index, call)} ::
          call.name != "web_search" && call.name != "web_fetch" && w1.granted(round, index) ==>
            w1.unsafeTool(round, index, call) == w2.unsafeTool(round, index, call))
  }

  lemma CallsAlike(w1: World, w2: World, round: nat, index: nat, call: ToolCall)
    requires SameConsulted(w1, w2)
    ensures CallResult(w1, round, index, call) == CallResult(w2, round, index, call)
    ensures CallEffects(w1, round, index, call) == CallEffects(w2, round, index, call)
  {
    assert w1.granted(round, index) == w2.granted(round, index);
  }

  lemma {:induction false} RoundsAlike(w1: World, w2: World, round: nat, calls: seq<ToolCall>)
    requires SameConsulted(w1, w2)
    ensures ToolMessages(w1, round, calls) == ToolMessages(w2, round, calls)
    ensures ToolEvents(w1, round, calls) == ToolEvents(w2, round, calls)
    ensures RoundEffects(w1, round, calls) == RoundEffects(w2, round, calls)
    decreases |calls|
  {
    hide SameConsulted, CallResult, CallEffects, Text, ToolMessages, ToolEvents, RoundEffects;
    if calls == [] {
      NoCalls(w1, round);
      NoCalls(w2, round);
    } else {
      var n := |calls| - 1;
      RoundsAlike(w1, w2, round, calls[..n]);
      CallsAlike(w1, w2, round, n, calls[n]);
      OneMoreCall(w1, round, calls[..n], calls[n]);
      OneMoreCall(w2, round, calls[..n], calls[n]);
      assert calls == calls[..n] + [calls[n]];
    }
  }

  lemma {:induction false} ConverseAlike(w1: World, w2: World, rec: Record)
    requires SameConsulted(w1, w2)
    ensures Converse(w1, rec) == Converse(w2, rec)
    decreases MAX_ROUNDS - |rec.replies|
  {
    hide SameConsulted, ToolMessages, ToolEvents, RoundEffects;
    assert w1.backend == w2.backend by {
      SameBackend(w1, w2);
    }
    if |rec.replies| < MAX_ROUNDS && w1.backend(|rec.replies|, rec.messages).Reply? {
      var reply := w1.backend(|rec.replies|, rec.messages).message;
      RoundsAlike(w1, w2, |rec.replies|, reply.toolCalls);
      if reply.toolCalls != [] {
        ConverseAlike(w1, w2, Extend(w1, rec, reply));
      }
    }
  }

  lemma SameBackend(w1: World, w2: World)
    requires SameConsulted(w1, w2)
    ensures w1.backend == w2.backend
  {
  }

  /**
   * What an ungranted tool would have returned reaches nobody: two worlds that differ only in the answers of tools no
   * call may consult lead to the same conversation, message by message, event by event, to the same end.
   */
  lemma NonInterference(w1: World, w2: World, request: seq<Message>)
    requires SameConsulted(w1, w2)
    ensures Converse(w1, Begin(request)) == Converse(w2, Begin(request))
  {
    hide SameConsulted, Converse;
    ConverseAlike(w1, w2, Begin(request));
  }
}
