/** The tool loop and the permission protocol as one system: which response lets a tool run. */
module ToolPermission {
  import opened Wrappers
  import opened ChatLoop
  import opened Permission

  // ---- one question ----

  /**
   * How one question goes: what everybody else does before it is registered, while it waits and before it is removed,
   * and whether the wait ends by hearing the channel or by giving up.
   */
  datatype Question = Question(before: seq<Action>, id: string, during: seq<Action>, heard: bool, after: seq<Action>)

  datatype Answer = Answer(system: System, waiter: nat, allowed: bool)

  predicate Allowed(s: System, w: nat) {
    w < |s.waiters| && HasOutcome(s.waiters[w]) && s.waiters[w].phase.allowed
  }

  function EndOfWait(heard: bool, w: nat): Action {
    if heard then Receive(w) else GiveUp(w)
  }

  /** `requestInlinePermission`: register, wait for the answer, remove the request; none if some step cannot come. */
  function Ask(s: System, q: Question, clientIP: string): Option<Answer> {
    match RunFrom(s, q.before)
    case None => None
    case Some(ready) =>
      var w := |ready.waiters|;
      match RunFrom(ready, [Register(q.id, clientIP)] + (q.during + [EndOfWait(q.heard, w)]))
      case None => None
      case Some(answered) =>
        match RunFrom(answered, q.after + [Remove(w)])
        case None => None
        case Some(done) => Some(Answer(done, w, Allowed(answered, w)))
  }

  lemma {:induction false} RunFromConcat(s: System, a: seq<Action>, b: seq<Action>)
    ensures RunFrom(s, a + b) == if RunFrom(s, a).None? then None else RunFrom(RunFrom(s, a).value, b)
    decreases |a|
  {
    hide Enabled, Next;
    if a == [] {
      assert a + b == b;
    } else {
      assert (a + b)[1..] == a[1..] + b;
      if Enabled(s, a[0]) {
        RunFromConcat(Next(s, a[0]), a[1..], b);
      }
    }
  }

  lemma RunFromOne(s: System, a: Action)
    ensures RunFrom(s, [a]) == if Enabled(s, a) then Some(Next(s, a)) else None
  {
    hide Enabled, Next;
  }

  /** The waiters there were are still there, with the answers they had. */
  predicate Later(s: System, t: System) {
    |s.waiters| <= |t.waiters| && forall w :: 0 <= w < |s.waiters| ==> SameOutcome(s.waiters[w], t.waiters[w])
  }

  lemma RunIsLater(s: System, actions: seq<Action>)
    requires RunFrom(s, actions).Some?
    ensures Later(s, RunFrom(s, actions).value)
  {
    hide RunFrom, SameOutcome;
    WaitersStay(s, actions);
    forall w | 0 <= w < |s.waiters| ensures SameOutcome(s.waiters[w], RunFrom(s, actions).value.waiters[w]) {
      OutcomeIsFinal(s, actions, w);
    }
  }

  lemma {:induction false} WaitersStay(s: System, actions: seq<Action>)
    requires RunFrom(s, actions).Some?
    ensures |s.waiters| <= |RunFrom(s, actions).value.waiters|
    decreases |actions|
  {
    if actions != [] {
      WaitersStay(Next(s, actions[0]), actions[1..]);
    }
  }

  /** The question is a new waiter of the client's, and its answer stays. */
  lemma AskFacts(s: System, q: Question, clientIP: string)
    requires Inv(s) && Ask(s, q, clientIP).Some?
    ensures var a := Ask(s, q, clientIP).value;
            Inv(a.system) && Later(s, a.system) && |s.waiters| <= a.waiter < |a.system.waiters| &&
            a.system.waiters[a.waiter].owner == clientIP && HasOutcome(a.system.waiters[a.waiter]) &&
            a.allowed == Allowed(a.system, a.waiter)
  {
    hide Inv, RunFrom, Enabled, SameOutcome;
    var ready := RunFrom(s, q.before).value;
    var w := |ready.waiters|;
    var waited := [Register(q.id, clientIP)] + (q.during + [EndOfWait(q.heard, w)]);
    var answered := RunFrom(ready, waited).value;
    RunKeepsInv(s, q.before);
    RunKeepsInv(ready, waited);
    RunKeepsInv(answered, q.after + [Remove(w)]);
    RunIsLater(s, q.before);
    RunIsLater(ready, waited);
    RunIsLater(answered, q.after + [Remove(w)]);
    AnsweredWaiter(ready, q, clientIP);
    LaterTwice(s, ready, answered);
    LaterTwice(s, answered, Ask(s, q, clientIP).value.system);
    LaterAllowed(answered, Ask(s, q, clientIP).value.system, w);
  }

  lemma AnsweredWaiter(ready: System, q: Question, clientIP: string)
    requires RunFrom(ready, [Register(q.id, clientIP)] + (q.during + [EndOfWait(q.heard, |ready.waiters|)])).Some?
    ensures var w := |ready.waiters|;
            var answered := RunFrom(ready, [Register(q.id, clientIP)] + (q.during + [EndOfWait(q.heard, w)])).value;
            w < |answered.waiters| && answered.waiters[w].owner == clientIP && HasOutcome(answered.waiters[w])
  {
    hide RunFrom;
    var w := |ready.waiters|;
    var register, end := Register(q.id, clientIP), EndOfWait(q.heard, w);
    RunFromConcat(ready, [register], q.during + [end]);
    RunFromOne(ready, register);
    var registered := Next(ready, register);
    RunFromConcat(registered, q.during, [end]);
    OutcomeIsFinal(registered, q.during, w);
    RunFromOne(RunFrom(registered, q.during).value, end);
  }

  lemma LaterTwice(s: System, t: System, u: System)
    requires Later(s, t) && Later(t, u)
    ensures Later(s, u)
  {
  }

  lemma LaterAllowed(s: System, t: System, w: nat)
    requires Later(s, t) && w < |s.waiters| && HasOutcome(s.waiters[w])
    ensures w < |t.waiters| && t.waiters[w].owner == s.waiters[w].owner && HasOutcome(t.waiters[w])
    ensures Allowed(t, w) == Allowed(s, w)
  {
    assert SameOutcome(s.waiters[w], t.waiters[w]);
  }

  // ---- the loop and the protocol together ----

  /** A conversation so far, the protocol's state, and which waiter stands for which call's question. */
  datatype Talk = Talk(record: Record, system: System, waiters: map<(nat, nat), nat>)

  function Begun(request: seq<Message>): Talk {
    Talk(Begin(request), INITIAL, map[])
  }

  /** The world with one answer. */
  function Answering(world: World, allowed: bool): World {
    world.(granted := (_, _) => allowed)
  }

  /** One call with its answer: its tool message, its event and its effects. */
  function WithCall(world: World, allowed: bool, t: Talk, round: nat, index: nat, call: ToolCall): Talk {
    var content := Text(CallResult(Answering(world, allowed), round, index, call));
    t.(record := t.record.(
      messages := t.record.messages + [Message("tool", content, [], [])],
      events := t.record.events + [ToolEvent(call.name, call.args, content)],
      effects := t.record.effects + CallEffects(Answering(world, allowed), round, index, call)))
  }

  function PlayCall(
    world: World, clientIP: string, schedule: (nat, nat) -> Question, t: Talk, round: nat, index: nat, call: ToolCall)
    : (r: Option<Talk>)
    ensures r.Some? ==> r.value.record.replies == t.record.replies && r.value.record.ending == t.record.ending
  {
    if IsSafeTool(call.name) then Some(WithCall(world, false, t, round, index, call))
    else
      match Ask(t.system, schedule(round, index), clientIP)
      case None => None
      case Some(a) =>
        var asked := t.(system := a.system, waiters := t.waiters[(round, index) := a.waiter]);
        Some(WithCall(world, a.allowed, asked, round, index, call))
  }

  /** The inner loop, one call after another. */
  function PlayCalls(
    world: World, clientIP: string, schedule: (nat, nat) -> Question, t: Talk, round: nat, calls: seq<ToolCall>)
    : (r: Option<Talk>)
    ensures r.Some? ==> r.value.record.replies == t.record.replies && r.value.record.ending == t.record.ending
  {
    if calls == [] then Some(t)
    else
      var n := |calls| - 1;
      match PlayCalls(world, clientIP, schedule, t, round, calls[..n])
      case None => None
      case Some(u) => PlayCall(world, clientIP, schedule, u, round, n, calls[n])
  }

  function WithReply(t: Talk, reply: Message): Talk {
    t.(record := t.record.(replies := t.record.replies + [reply]))
  }

  function Started(t: Talk, reply: Message): Talk {
    t.(record := t.record.(messages := t.record.messages + [reply]))
  }

  /** The outer loop; `schedule` says of every call how its question goes, if it has one. */
  function Play(world: World, clientIP: string, schedule: (nat, nat) -> Question, t: Talk): Option<Talk>
    decreases MAX_ROUNDS - |t.record.replies|
  {
    if |t.record.replies| >= MAX_ROUNDS then Some(t.(record := t.record.(ending := Exhausted)))
    else
      match world.backend(|t.record.replies|, t.record.messages)
      case Broken => Some(t.(record := t.record.(ending := Failed)))
      case Reply(reply) =>
        match PlayCalls(world, clientIP, schedule, Started(t, reply), |t.record.replies|, reply.toolCalls)
        case None => None
        case Some(u) =>
          var next := WithReply(u, reply);
          if reply.toolCalls == [] then Some(next.(record := next.record.(ending := Answered)))
          else Play(world, clientIP, schedule, next)
  }

  // ---- every question is a waiter of its own ----

  /** A call that needs a question. */
  predicate IsUnsafeCall(replies: seq<Message>, round: nat, index: nat) {
    round < |replies| && index < |replies[round].toolCalls| &&
    replies[round].toolCalls[index].name != "web_search" && replies[round].toolCalls[index].name != "web_fetch"
  }

  /** Each question so far is a waiter of its own, registered from the client's address, with an answer. */
  ghost predicate Owned(t: Talk, clientIP: string) {
    && Inv(t.system)
    && (forall p :: p in t.waiters ==>
          var w := t.waiters[p];
          w < |t.system.waiters| && t.system.waiters[w].owner == clientIP && HasOutcome(t.system.waiters[w]))
    && (forall p, q :: p in t.waiters && q in t.waiters && t.waiters[p] == t.waiters[q] ==> p == q)
  }

  /** All questions so far belong to calls in front of this place. */
  predicate UpTo(t: Talk, round: nat, index: nat) {
    forall p :: p in t.waiters ==> Before(p, (round, index))
  }

  /** The questions of the one are questions of the other, with the same answers. */
  predicate Grows(t: Talk, u: Talk) {
    forall p :: p in t.waiters ==>
      p in u.waiters && u.waiters[p] == t.waiters[p] &&
      Allowed(u.system, t.waiters[p]) == Allowed(t.system, t.waiters[p])
  }

  lemma GrowsTwice(t: Talk, u: Talk, v: Talk)
    requires Grows(t, u) && Grows(u, v)
    ensures Grows(t, v)
  {
    hide Allowed;
  }

  /** The world in which every question has the answer its waiter got. */
  function Heard(world: World, t: Talk): World {
    world.(granted := (round, index) =>
      (round, index) in t.waiters && Allowed(t.system, t.waiters[(round, index)]))
  }

  lemma PlayCallFacts(
    world: World, clientIP: string, schedule: (nat, nat) -> Question, t: Talk, round: nat, index: nat, call: ToolCall)
    requires Owned(t, clientIP) && UpTo(t, round, index)
    requires PlayCall(world, clientIP, schedule, t, round, index, call).Some?
    ensures var u := PlayCall(world, clientIP, schedule, t, round, index, call).value;
            Owned(u, clientIP) && UpTo(u, round, index + 1) && Grows(t, u) &&
            (!IsSafeTool(call.name) ==> (round, index) in u.waiters)
  {
    hide Inv, Ask, HasOutcome, IsSafeTool, CallResult, CallEffects, Later, Allowed, Text;
    if !IsSafeTool(call.name) {
      var a := Ask(t.system, schedule(round, index), clientIP).value;
      AskFacts(t.system, schedule(round, index), clientIP);
      AskedGrows(t, a, round, index, clientIP);
    }
  }

  lemma AskedGrows(t: Talk, a: Answer, round: nat, index: nat, clientIP: string)
    requires Owned(t, clientIP) && UpTo(t, round, index) && Inv(a.system) && Later(t.system, a.system)
    requires |t.system.waiters| <= a.waiter < |a.system.waiters|
    requires a.system.waiters[a.waiter].owner == clientIP && HasOutcome(a.system.waiters[a.waiter])
    ensures var u := t.(system := a.system, waiters := t.waiters[(round, index) := a.waiter]);
            Owned(u, clientIP) && UpTo(u, round, index + 1) && Grows(t, u)
  {
    hide Inv, HasOutcome, Later, Allowed;
    forall p | p in t.waiters
      ensures t.waiters[p] < |a.system.waiters| && a.system.waiters[t.waiters[p]].owner == clientIP
      ensures HasOutcome(a.system.waiters[t.waiters[p]])
      ensures Allowed(a.system, t.waiters[p]) == Allowed(t.system, t.waiters[p])
    {
      LaterAllowed(t.system, a.system, t.waiters[p]);
    }
    assert (round, index) !in t.waiters;
  }

  /** The answer the call went on with is the one its waiter has. */
  lemma PlayCallHeard(
    world: World, clientIP: string, schedule: (nat, nat) -> Question, t: Talk, round: nat, index: nat, call: ToolCall,
    end: Talk)
    requires Owned(t, clientIP) && PlayCall(world, clientIP, schedule, t, round, index, call).Some?
    requires Grows(PlayCall(world, clientIP, schedule, t, round, index, call).value, end)
    ensures var u := PlayCall(world, clientIP, schedule, t, round, index, call).value;
            var content := Text(CallResult(Heard(world, end), round, index, call));
            u.record.messages == t.record.messages + [Message("tool", content, [], [])] &&
            u.record.events == t.record.events + [ToolEvent(call.name, call.args, content)] &&
            u.record.effects == t.record.effects + CallEffects(Heard(world, end), round, index, call)
  {
    hide Inv, Ask, HasOutcome, IsSafeTool, Later, Allowed, Text;
    if !IsSafeTool(call.name) {
      AskFacts(t.system, schedule(round, index), clientIP);
      var u := PlayCall(world, clientIP, schedule, t, round, index, call).value;
      assert (round, index) in u.waiters;
    }
  }

  lemma {:induction false} PlayCallsFacts(
    world: World, clientIP: string, schedule: (nat, nat) -> Question, t: Talk, round: nat, calls: seq<ToolCall>)
    requires Owned(t, clientIP) && UpTo(t, round, 0)
    requires PlayCalls(world, clientIP, schedule, t, round, calls).Some?
    ensures var u := PlayCalls(world, clientIP, schedule, t, round, calls).value;
            Owned(u, clientIP) && UpTo(u, round, |calls|) && Grows(t, u) &&
            forall i :: 0 <= i < |calls| && !IsSafeTool(calls[i].name) ==> (round, i) in u.waiters
    decreases |calls|
  {
    hide PlayCall, Owned, UpTo, IsSafeTool, Allowed;
    if calls != [] {
      var n := |calls| - 1;
      PlayCallsFacts(world, clientIP, schedule, t, round, calls[..n]);
      var mid := PlayCalls(world, clientIP, schedule, t, round, calls[..n]).value;
      PlayCallFacts(world, clientIP, schedule, mid, round, n, calls[n]);
    }
  }

  /** The inner loop leaves what it would leave with the answers its waiters have in the end. */
  lemma {:induction false} PlayCallsHeard(
    world: World, clientIP: string, schedule: (nat, nat) -> Question, t: Talk, round: nat, calls: seq<ToolCall>,
    end: Talk)
    requires Owned(t, clientIP) && UpTo(t, round, 0)
    requires PlayCalls(world, clientIP, schedule, t, round, calls).Some?
    requires Grows(PlayCalls(world, clientIP, schedule, t, round, calls).value, end)
    ensures var u := PlayCalls(world, clientIP, schedule, t, round, calls).value;
            u.record.messages == t.record.messages + ToolMessages(Heard(world, end), round, calls) &&
            u.record.events == t.record.events + ToolEvents(Heard(world, end), round, calls) &&
            u.record.effects == t.record.effects + RoundEffects(Heard(world, end), round, calls)
    decreases |calls|
  {
    hide PlayCall, Owned, UpTo, Heard, CallResult, CallEffects, Text, ToolMessages, ToolEvents, RoundEffects, Grows;
    if calls == [] {
      NoCalls(Heard(world, end), round);
    } else {
      var n := |calls| - 1;
      var mid := PlayCalls(world, clientIP, schedule, t, round, calls[..n]).value;
      PlayCallsFacts(world, clientIP, schedule, t, round, calls[..n]);
      PlayCallFacts(world, clientIP, schedule, mid, round, n, calls[n]);
      GrowsTwice(mid, PlayCalls(world, clientIP, schedule, t, round, calls).value, end);
      PlayCallsHeard(world, clientIP, schedule, t, round, calls[..n], end);
      PlayCallHeard(world, clientIP, schedule, mid, round, n, calls[n], end);
      OneMoreCall(Heard(world, end), round, calls[..n], calls[n]);
      assert calls == calls[..n] + [calls[n]];
    }
  }

  /** Every question of the transcript so far has its waiter. */
  ghost predicate Covered(t: Talk) {
    forall round: nat, index: nat :: IsUnsafeCall(t.record.replies, round, index) ==> (round, index) in t.waiters
  }

  ghost predicate Joined(t: Talk, clientIP: string) {
    Owned(t, clientIP) && UpTo(t, |t.record.replies|, 0) && Covered(t)
  }

  lemma RoundJoins(
    world: World, clientIP: string, schedule: (nat, nat) -> Question, t: Talk, reply: Message)
    requires Joined(t, clientIP)
    requires PlayCalls(world, clientIP, schedule, Started(t, reply), |t.record.replies|, reply.toolCalls).Some?
    ensures var u := PlayCalls(world, clientIP, schedule, Started(t, reply), |t.record.replies|, reply.toolCalls).value;
            Joined(WithReply(u, reply), clientIP) && Grows(t, u) && Owned(u, clientIP)
  {
    hide PlayCalls, Inv, HasOutcome, Allowed;
    var round := |t.record.replies|;
    PlayCallsFacts(world, clientIP, schedule, Started(t, reply), round, reply.toolCalls);
    var u := PlayCalls(world, clientIP, schedule, Started(t, reply), round, reply.toolCalls).value;
    var replies := WithReply(u, reply).record.replies;
    forall r: nat, i: nat | IsUnsafeCall(replies, r, i) ensures (r, i) in u.waiters {
      if r < round {
        assert replies[r] == t.record.replies[r];
        assert IsUnsafeCall(t.record.replies, r, i);
      }
    }
  }

  lemma SameButEnding(t: Talk, ending: ChatLoop.Ending, clientIP: string)
    requires Joined(t, clientIP)
    ensures Joined(t.(record := t.record.(ending := ending)), clientIP)
    ensures Grows(t, t.(record := t.record.(ending := ending)))
  {
    hide Inv, HasOutcome, IsSafeTool, Allowed;
  }

  lemma {:induction false} PlayFacts(
    world: World, clientIP: string, schedule: (nat, nat) -> Question, t: Talk)
    requires Joined(t, clientIP) && Play(world, clientIP, schedule, t).Some?
    ensures var end := Play(world, clientIP, schedule, t).value;
            Joined(end, clientIP) && Grows(t, end) && end.record == Converse(Heard(world, end), t.record)
    decreases MAX_ROUNDS - |t.record.replies|
  {
    hide Joined, Grows, PlayCalls, ToolMessages, ToolEvents, RoundEffects;
    var rec, end := t.record, Play(world, clientIP, schedule, t).value;
    if |rec.replies| >= MAX_ROUNDS {
      SameButEnding(t, Exhausted, clientIP);
    } else {
      match world.backend(|rec.replies|, rec.messages) {
        case Broken =>
          SameButEnding(t, Failed, clientIP);
        case Reply(reply) =>
          var u := PlayCalls(world, clientIP, schedule, Started(t, reply), |rec.replies|, reply.toolCalls).value;
          var next := WithReply(u, reply);
          RoundJoins(world, clientIP, schedule, t, reply);
          if reply.toolCalls == [] {
            SameButEnding(next, Answered, clientIP);
          } else {
            PlayFacts(world, clientIP, schedule, next);
          }
          SameGrowth(u, next, end);
          GrowsTwice(t, u, end);
          RoundHeard(world, clientIP, schedule, t, reply, end);
      }
    }
  }

  lemma SameGrowth(t: Talk, u: Talk, end: Talk)
    requires t.waiters == u.waiters && t.system == u.system && Grows(u, end)
    ensures Grows(t, end)
  {
  }

  lemma RoundHeard(
    world: World, clientIP: string, schedule: (nat, nat) -> Question, t: Talk, reply: Message, end: Talk)
    requires Joined(t, clientIP)
    requires PlayCalls(world, clientIP, schedule, Started(t, reply), |t.record.replies|, reply.toolCalls).Some?
    requires Grows(
               PlayCalls(world, clientIP, schedule, Started(t, reply), |t.record.replies|, reply.toolCalls).value, end)
    ensures var u := PlayCalls(world, clientIP, schedule, Started(t, reply), |t.record.replies|, reply.toolCalls).value;
            WithReply(u, reply).record == Extend(Heard(world, end), t.record, reply)
  {
    hide PlayCalls, Grows, Inv, HasOutcome, ToolMessages, ToolEvents, RoundEffects, Heard;
    PlayCallsHeard(world, clientIP, schedule, Started(t, reply), |t.record.replies|, reply.toolCalls, end);
  }

  lemma BegunJoined(request: seq<Message>, clientIP: string)
    ensures Joined(Begun(request), clientIP)
  {
    assert Inv(INITIAL);
  }

  /**
   * The loop and the protocol played together, however the questions go: the conversation is the loop's with the
   * answers its waiters got; each question is a waiter of its own, registered from the client's address.
   */
  lemma PlayIsConversation(world: World, clientIP: string, schedule: (nat, nat) -> Question, request: seq<Message>)
    requires Play(world, clientIP, schedule, Begun(request)).Some?
    ensures var end := Play(world, clientIP, schedule, Begun(request)).value;
            end.record == Converse(Heard(world, end), Begin(request)) && Owned(end, clientIP) && Covered(end)
  {
    hide Play, Converse, Owned, Covered;
    BegunJoined(request, clientIP);
    PlayFacts(world, clientIP, schedule, Begun(request));
  }

  // ---- which response lets a tool run ----

  /** The waiter heard its channel, and the first value ever sent there was an approval from this address for its id. */
  predicate ApprovedFirst(s: System, w: nat, ip: string)
    requires w < |s.waiters|
  {
    var waiter := s.waiters[w];
    && !waiter.phase.Waiting?
    && waiter.phase.heard
    && waiter.sends != []
    && var first := waiter.sends[0];
    && first.allow
    && first.ip == ip
    && first.call < |s.calls|
    && s.calls[first.call] == Call(waiter.id, ip, true, Finished(w))
  }

  lemma AllowedIsApproved(s: System, w: nat)
    requires Inv(s) && w < |s.waiters| && HasOutcome(s.waiters[w])
    ensures Allowed(s, w) <==> ApprovedFirst(s, w, s.waiters[w].owner)
  {
    hide PendingExact, CallsHoldOwnChannel;
    assert FirstSendRules(s.waiters[w]) && SendsFromOwner(s, w);
  }

  /**
   * For every backend, every tool and every interleaving of requests, responses and timeouts: a dangerous tool call
   * runs if and only if the first value ever sent on that call's own channel was an approval, heard in time, which
   * came from the client's address in a response to that call's own request.
   */
  lemma RunsOnlyIfApproved(
    world: World, clientIP: string, schedule: (nat, nat) -> Question, request: seq<Message>, round: nat, index: nat)
    requires Play(world, clientIP, schedule, Begun(request)).Some?
    requires IsUnsafeCall(Play(world, clientIP, schedule, Begun(request)).value.record.replies, round, index)
    ensures var end := Play(world, clientIP, schedule, Begun(request)).value;
            (round, index) in end.waiters && end.waiters[(round, index)] < |end.system.waiters| &&
            (RanUnsafe(round, index, end.record.replies[round].toolCalls[index]) in end.record.effects <==>
             ApprovedFirst(end.system, end.waiters[(round, index)], clientIP))
  {
    hide Play, Converse, ApprovedFirst, Inv;
    var end := Play(world, clientIP, schedule, Begun(request)).value;
    PlayIsConversation(world, clientIP, schedule, request);
    RanExactly(Heard(world, end), request, round, index, end.record.replies[round].toolCalls[index]);
    AllowedIsApproved(end.system, end.waiters[(round, index)]);
  }

  /** No single response lets two tool calls run. */
  lemma OneResponseOneTool(
    world: World, clientIP: string, schedule: (nat, nat) -> Question, request: seq<Message>,
    a: (nat, nat), b: (nat, nat))
    requires Play(world, clientIP, schedule, Begun(request)).Some? && a != b
    requires IsUnsafeCall(Play(world, clientIP, schedule, Begun(request)).value.record.replies, a.0, a.1)
    requires IsUnsafeCall(Play(world, clientIP, schedule, Begun(request)).value.record.replies, b.0, b.1)
    requires var rec := Play(world, clientIP, schedule, Begun(request)).value.record;
             RanUnsafe(a.0, a.1, rec.replies[a.0].toolCalls[a.1]) in rec.effects &&
             RanUnsafe(b.0, b.1, rec.replies[b.0].toolCalls[b.1]) in rec.effects
    ensures var end := Play(world, clientIP, schedule, Begun(request)).value;
            a in end.waiters && b in end.waiters &&
            end.waiters[a] < |end.system.waiters| && end.waiters[b] < |end.system.waiters| &&
            end.system.waiters[end.waiters[a]].sends != [] && end.system.waiters[end.waiters[b]].sends != [] &&
            end.system.waiters[end.waiters[a]].sends[0].call != end.system.waiters[end.waiters[b]].sends[0].call
  {
    hide Play, Converse, IsSafeTool, Inv;
    PlayIsConversation(world, clientIP, schedule, request);
    RunsOnlyIfApproved(world, clientIP, schedule, request, a.0, a.1);
    RunsOnlyIfApproved(world, clientIP, schedule, request, b.0, b.1);
    assert (a.0, a.1) == a && (b.0, b.1) == b;
  }

  // ---- every conversation can be played ----

  /** Nobody answers: the request is registered, given up and removed, and nothing else changes. */
  lemma AskGivenUp(s: System, id: string, clientIP: string)
    requires id !in s.pending
    ensures var r := Ask(s, Question([], id, [], false, []), clientIP);
            r.Some? && !r.value.allowed && r.value.system.pending == s.pending && r.value.system.calls == s.calls
  {
    hide RunFrom, Enabled, Next;
    var w := |s.waiters|;
    var q := Question([], id, [], false, []);
    NoActions(s);
    GivenUp(s, id, clientIP);
    TwoActions(s, Register(id, clientIP), GiveUp(w));
    assert [Register(id, clientIP)] + (q.during + [EndOfWait(q.heard, w)]) == [Register(id, clientIP), GiveUp(w)];
    var answered := Next(Next(s, Register(id, clientIP)), GiveUp(w));
    RunFromOne(answered, Remove(w));
    assert q.after + [Remove(w)] == [Remove(w)];
  }

  lemma NoActions(s: System)
    ensures RunFrom(s, []) == Some(s)
  {
  }

  lemma TwoActions(s: System, a: Action, b: Action)
    requires Enabled(s, a) && Enabled(Next(s, a), b)
    ensures RunFrom(s, [a, b]) == Some(Next(Next(s, a), b))
  {
    hide Enabled, Next;
    RunFromConcat(s, [a], [b]);
    RunFromOne(s, a);
    RunFromOne(Next(s, a), b);
    assert [a] + [b] == [a, b];
  }

  lemma GivenUp(s: System, id: string, clientIP: string)
    requires id !in s.pending
    ensures var w := |s.waiters|;
            Enabled(s, Register(id, clientIP)) && Enabled(Next(s, Register(id, clientIP)), GiveUp(w)) &&
            var answered := Next(Next(s, Register(id, clientIP)), GiveUp(w));
            !Allowed(answered, w) && Enabled(answered, Remove(w)) &&
            Next(answered, Remove(w)).pending == s.pending && Next(answered, Remove(w)).calls == s.calls
  {
  }

  /** One response from the client's address is heard, and it is the answer. */
  lemma AskAnswered(s: System, id: string, clientIP: string, allow: bool)
    requires id !in s.pending
    ensures var during := [Respond(id, clientIP, allow), Deliver(|s.calls|)];
            var r := Ask(s, Question([], id, during, true, []), clientIP);
            r.Some? && r.value.allowed == allow && r.value.system.pending == s.pending &&
            |r.value.system.calls| == |s.calls| + 1
  {
    hide RunFrom, Enabled, Next, Allowed;
    var w, k := |s.waiters|, |s.calls|;
    var a, b, c, d := Register(id, clientIP), Respond(id, clientIP, allow), Deliver(k), Receive(w);
    var q := Question([], id, [b, c], true, []);
    NoActions(s);
    Delivered(s, id, clientIP, allow);
    var mid := Next(Next(s, a), b);
    TwoActions(s, a, b);
    TwoActions(mid, c, d);
    RunFromConcat(s, [a, b], [c, d]);
    assert [a] + (q.during + [EndOfWait(q.heard, w)]) == [a, b] + [c, d];
    RunFromOne(Next(Next(mid, c), d), Remove(w));
    assert q.after + [Remove(w)] == [Remove(w)];
  }

  lemma Delivered(s: System, id: string, clientIP: string, allow: bool)
    requires id !in s.pending
    ensures var w, k := |s.waiters|, |s.calls|;
            var a, b, c, d := Register(id, clientIP), Respond(id, clientIP, allow), Deliver(k), Receive(w);
            Enabled(s, a) && Enabled(Next(s, a), b) && Enabled(Next(Next(s, a), b), c) &&
            Enabled(Next(Next(Next(s, a), b), c), d) &&
            var answered := Next(Next(Next(Next(s, a), b), c), d);
            Allowed(answered, w) == allow && Enabled(answered, Remove(w)) &&
            Next(answered, Remove(w)).pending == s.pending && |Next(answered, Remove(w)).calls| == |s.calls| + 1
  {
  }

  /** A response from anywhere else is never heard. */
  lemma ForeignNotHeard(s: System, id: string, clientIP: string, other: string, allow: bool)
    requires id !in s.pending && other != clientIP
    ensures Ask(s, Question([], id, [Respond(id, other, allow), Deliver(|s.calls|)], true, []), clientIP).None?
    ensures Ask(s, Question([], id, [Respond(id, other, allow)], true, []), clientIP).None?
  {
    hide RunFrom, Enabled, Next;
    var w, k := |s.waiters|, |s.calls|;
    var a, b := Register(id, clientIP), Respond(id, other, allow);
    NoActions(s);
    NotDelivered(s, id, clientIP, other, allow);
    var mid := Next(Next(s, a), b);
    TwoActions(s, a, b);
    RunFromConcat(s, [a, b], [Deliver(k), Receive(w)]);
    RunFromConcat(mid, [Deliver(k)], [Receive(w)]);
    RunFromOne(mid, Deliver(k));
    RunFromConcat(s, [a, b], [Receive(w)]);
    RunFromOne(mid, Receive(w));
    assert [Deliver(k)] + [Receive(w)] == [Deliver(k), Receive(w)];
    assert [a] + ([b, Deliver(k)] + [EndOfWait(true, w)]) == [a, b] + [Deliver(k), Receive(w)];
    assert [a] + ([b] + [EndOfWait(true, w)]) == [a, b] + [Receive(w)];
  }

  lemma NotDelivered(s: System, id: string, clientIP: string, other: string, allow: bool)
    requires id !in s.pending && other != clientIP
    ensures var a, b := Register(id, clientIP), Respond(id, other, allow);
            Enabled(s, a) && Enabled(Next(s, a), b) && !Enabled(Next(Next(s, a), b), Deliver(|s.calls|)) &&
            !Enabled(Next(Next(s, a), b), Receive(|s.waiters|))
  {
  }

  function GrantsIn(world: World, round: nat, calls: seq<ToolCall>): nat {
    if calls == [] then 0
    else
      var n := |calls| - 1;
      GrantsIn(world, round, calls[..n]) + if !IsSafeTool(calls[n].name) && world.granted(round, n) then 1 else 0
  }

  function AllGrants(world: World, replies: seq<Message>): nat {
    if replies == [] then 0
    else
      var n := |replies| - 1;
      AllGrants(world, replies[..n]) + GrantsIn(world, n, replies[n].toolCalls)
  }

  function GrantsBefore(world: World, replies: seq<Message>, round: nat, index: nat): nat {
    if round < |replies| && index <= |replies[round].toolCalls| then
      AllGrants(world, replies[..round]) + GrantsIn(world, round, replies[round].toolCalls[..index])
    else 0
  }

  /** The client answers with an approval where the world grants, and not at all where it does not. */
  function Answers(world: World, clientIP: string, replies: seq<Message>): (nat, nat) -> Question {
    (round: nat, index: nat) =>
      if world.granted(round, index) then
        Question([], "id", [Respond("id", clientIP, true), Deliver(GrantsBefore(world, replies, round, index))], true,
                 [])
      else Question([], "id", [], false, [])
  }

  /** Nothing is pending, and each grant so far took one response. */
  predicate Ready(t: Talk, calls: nat) {
    t.system.pending == map[] && |t.system.calls| == calls
  }

  lemma PlayCallAnswers(
    world: World, clientIP: string, replies: seq<Message>, t: Talk, round: nat, index: nat)
    requires round < |replies| && index < |replies[round].toolCalls|
    requires Ready(t, GrantsBefore(world, replies, round, index))
    ensures var call := replies[round].toolCalls[index];
            var r := PlayCall(world, clientIP, Answers(world, clientIP, replies), t, round, index, call);
            r.Some? && Ready(r.value, GrantsBefore(world, replies, round, index + 1)) &&
            var content := Text(CallResult(world, round, index, call));
            r.value.record.messages == t.record.messages + [Message("tool", content, [], [])] &&
            r.value.record.events == t.record.events + [ToolEvent(call.name, call.args, content)] &&
            r.value.record.effects == t.record.effects + CallEffects(world, round, index, call)
  {
    hide Ask, AllGrants, IsSafeTool, Text;
    var calls := replies[round].toolCalls;
    assert calls[..index + 1][..index] == calls[..index];
    if !IsSafeTool(calls[index].name) {
      if world.granted(round, index) {
        AskAnswered(t.system, "id", clientIP, true);
      } else {
        AskGivenUp(t.system, "id", clientIP);
      }
    }
  }

  lemma {:induction false} PlayCallsAnswers(
    world: World, clientIP: string, replies: seq<Message>, t: Talk, round: nat, n: nat)
    requires round < |replies| && n <= |replies[round].toolCalls|
    requires Ready(t, AllGrants(world, replies[..round]))
    ensures var calls := replies[round].toolCalls[..n];
            var r := PlayCalls(world, clientIP, Answers(world, clientIP, replies), t, round, calls);
            r.Some? && Ready(r.value, GrantsBefore(world, replies, round, n)) &&
            r.value.record.messages == t.record.messages + ToolMessages(world, round, calls) &&
            r.value.record.events == t.record.events + ToolEvents(world, round, calls) &&
            r.value.record.effects == t.record.effects + RoundEffects(world, round, calls)
    decreases n
  {
    hide PlayCall, CallResult, CallEffects, Text, ToolMessages, ToolEvents, RoundEffects, AllGrants, Answers, Ready;
    var calls := replies[round].toolCalls;
    if n == 0 {
      NoCalls(world, round);
      NoGrants(world, replies, round);
    } else {
      PlayCallsAnswers(world, clientIP, replies, t, round, n - 1);
      var mid := PlayCalls(world, clientIP, Answers(world, clientIP, replies), t, round, calls[..n - 1]).value;
      PlayCallAnswers(world, clientIP, replies, mid, round, n - 1);
      assert calls[..n][..n - 1] == calls[..n - 1];
      OneMoreCall(world, round, calls[..n - 1], calls[n - 1]);
      assert calls[..n] == calls[..n - 1] + [calls[n - 1]];
    }
  }

  lemma NoGrants(world: World, replies: seq<Message>, round: nat)
    requires round < |replies|
    ensures GrantsBefore(world, replies, round, 0) == AllGrants(world, replies[..round])
  {
    hide AllGrants;
  }

  lemma {:induction false} ReplyStays(world: World, rec: Record)
    ensures rec.replies <= Converse(world, rec).replies
    decreases MAX_ROUNDS - |rec.replies|
  {
    hide ToolMessages, ToolEvents, RoundEffects;
    if |rec.replies| < MAX_ROUNDS {
      var got := world.backend(|rec.replies|, rec.messages);
      if got.Reply? && got.message.toolCalls != [] {
        ReplyStays(world, Extend(world, rec, got.message));
      }
    }
  }

  lemma {:induction false} PlayAnswers(world: World, clientIP: string, t: Talk, replies: seq<Message>)
    requires replies == Converse(world, t.record).replies
    requires Ready(t, AllGrants(world, t.record.replies))
    ensures var r := Play(world, clientIP, Answers(world, clientIP, replies), t);
            r.Some? && r.value.record == Converse(world, t.record)
    decreases MAX_ROUNDS - |t.record.replies|
  {
    hide PlayCalls, ToolMessages, ToolEvents, RoundEffects, AllGrants, Answers, Ready;
    var rec := t.record;
    if |rec.replies| < MAX_ROUNDS {
      var got := world.backend(|rec.replies|, rec.messages);
      if got.Reply? {
        var reply, round := got.message, |rec.replies|;
        ReplyStays(world, Extend(world, rec, reply));
        assert replies[..round] == rec.replies && replies[round] == reply;
        RoundAnswers(world, clientIP, t, replies, reply);
        var u := PlayCalls(world, clientIP, Answers(world, clientIP, replies), Started(t, reply), round,
                           reply.toolCalls).value;
        if reply.toolCalls != [] {
          PlayAnswers(world, clientIP, WithReply(u, reply), replies);
        }
      }
    }
  }

  lemma RoundAnswers(world: World, clientIP: string, t: Talk, replies: seq<Message>, reply: Message)
    requires |t.record.replies| < |replies| && replies[..|t.record.replies|] == t.record.replies
    requires replies[|t.record.replies|] == reply && Ready(t, AllGrants(world, t.record.replies))
    ensures var r := PlayCalls(world, clientIP, Answers(world, clientIP, replies), Started(t, reply),
                               |t.record.replies|, reply.toolCalls);
            r.Some? && WithReply(r.value, reply).record == Extend(world, t.record, reply) &&
            Ready(WithReply(r.value, reply), AllGrants(world, Extend(world, t.record, reply).replies))
  {
    hide PlayCalls, ToolMessages, ToolEvents, RoundEffects, Answers;
    var round := |t.record.replies|;
    PlayCallsAnswers(world, clientIP, replies, Started(t, reply), round, |reply.toolCalls|);
    assert reply.toolCalls[..|reply.toolCalls|] == reply.toolCalls;
    assert (t.record.replies + [reply])[..round] == t.record.replies;
  }

  /**
   * And nothing is lost: whatever the answers, the protocol can give just these, so that every conversation of the
   * loop is one that loop and protocol have together.
   */
  lemma EveryConversationIsPlayed(world: World, clientIP: string, request: seq<Message>)
    ensures exists schedule: (nat, nat) -> Question ::
              Play(world, clientIP, schedule, Begun(request)).Some? &&
              Play(world, clientIP, schedule, Begun(request)).value.record == Converse(world, Begin(request))
  {
    hide Play, Converse, Answers;
    PlayAnswers(world, clientIP, Begun(request), Converse(world, Begin(request)).replies);
  }
}
