/**
 * The permission protocol of `internal/relay/permission.go` and `requestInlinePermission`: waiters that register a
 * request, responders that look it up under a lock and send after releasing it, timeouts, and removal.
 */
module Permission {
  import opened Wrappers

  datatype PendingPerm<+C> = PendingPerm(ch: C, ownerIP: string)

  /** The channel a response may go to: the request must be pending and belong to the responder. */
  function LookUp<C>(pending: map<string, PendingPerm<C>>, id: string, ip: string): Option<C> {
    if id in pending && pending[id].ownerIP == ip then Some(pending[id].ch) else None
  }

  /** A non-blocking send on a channel of capacity one: dropped when the channel is full. */
  function Offer(buffer: Option<bool>, allow: bool): Option<bool> {
    if buffer.None? then Some(allow) else buffer
  }

  // ---- the protocol, step by step ----

  /** A waiter is waiting, has its answer (from the channel or by giving up), or has also left the pending map. */
  datatype Phase = Waiting | Decided(allowed: bool, heard: bool) | Gone(allowed: bool, heard: bool)

  datatype Send = Send(call: nat, ip: string, allow: bool)

  /** `sends` is the history of all send attempts on the waiter's channel. */
  datatype Waiter = Waiter(id: string, owner: string, phase: Phase, buffer: Option<bool>, sends: seq<Send>)

  datatype CallPhase = Rejected | Holding(ch: nat) | Finished(ch: nat)

  datatype Call = Call(id: string, ip: string, allow: bool, phase: CallPhase)

  /** Channels are named by the waiter that made them. */
  datatype System = System(pending: map<string, PendingPerm<nat>>, waiters: seq<Waiter>, calls: seq<Call>)

  const INITIAL := System(map[], [], [])

  datatype Action =
    | Register(id: string, owner: string)
    | Respond(id: string, ip: string, allow: bool)
    | Deliver(call: nat)
    | Receive(waiter: nat)
    | GiveUp(waiter: nat)
    | Remove(waiter: nat)

  predicate Enabled(s: System, a: Action) {
    match a
    case Register(id, _) => id !in s.pending
    case Respond(_, _, _) => true
    case Deliver(k) => k < |s.calls| && s.calls[k].phase.Holding? && s.calls[k].phase.ch < |s.waiters|
    case Receive(w) => w < |s.waiters| && s.waiters[w].phase.Waiting? && s.waiters[w].buffer.Some?
    case GiveUp(w) => w < |s.waiters| && s.waiters[w].phase.Waiting?
    case Remove(w) => w < |s.waiters| && s.waiters[w].phase.Decided?
  }

  /** One more waiter, under this id; an entry the id had before is replaced. */
  function Registered(s: System, id: string, owner: string): System {
    s.(pending := s.pending[id := PendingPerm(|s.waiters|, owner)],
       waiters := s.waiters + [Waiter(id, owner, Waiting, None, [])])
  }

  function Next(s: System, a: Action): System
    requires Enabled(s, a)
  {
    match a
    case Register(id, owner) => Registered(s, id, owner)
    case Respond(id, ip, allow) =>
      var found := LookUp(s.pending, id, ip);
      s.(calls := s.calls + [Call(id, ip, allow, if found.Some? then Holding(found.value) else Rejected)])
    case Deliver(k) =>
      var call := s.calls[k];
      var ch := call.phase.ch;
      var w := s.waiters[ch];
      var sends := w.sends + [Send(k, call.ip, call.allow)];
      s.(waiters := s.waiters[ch := w.(buffer := Offer(w.buffer, call.allow), sends := sends)],
         calls := s.calls[k := call.(phase := Finished(ch))])
    case Receive(w) =>
      var waiter := s.waiters[w];
      s.(waiters := s.waiters[w := waiter.(phase := Decided(waiter.buffer.value, true), buffer := None)])
    case GiveUp(w) =>
      s.(waiters := s.waiters[w := s.waiters[w].(phase := Decided(false, false))])
    case Remove(w) =>
      var waiter := s.waiters[w];
      s.(waiters := s.waiters[w := waiter.(phase := Gone(waiter.phase.allowed, waiter.phase.heard))],
         pending := s.pending - {waiter.id})
  }

  // ---- the broker ----

  class Channel {
    var buffer: Option<bool>

    constructor ()
      ensures buffer == None
    {
      buffer := None;
    }
  }

  /** The same requests under the same owners, with channels for their numbers. */
  ghost predicate SamePending(
    pending: map<string, PendingPerm<Channel>>, numbered: map<string, PendingPerm<nat>>, channels: seq<Channel>)
  {
    && pending.Keys == numbered.Keys
    && forall id :: id in pending ==>
         numbered[id].ch < |channels| && pending[id] == PendingPerm(channels[numbered[id].ch], numbered[id].ownerIP)
  }

  lemma SamePlus(
    pending: map<string, PendingPerm<Channel>>, numbered: map<string, PendingPerm<nat>>, channels: seq<Channel>,
    id: string, ch: Channel, owner: string)
    requires SamePending(pending, numbered, channels)
    ensures SamePending(pending[id := PendingPerm(ch, owner)], numbered[id := PendingPerm(|channels|, owner)],
                        channels + [ch])
  {
  }

  /** Response `k` holds this channel and is about to send this value. */
  ghost predicate Holds(s: System, channels: seq<Channel>, k: nat, ch: Channel, allow: bool) {
    && Enabled(s, Deliver(k))
    && s.calls[k].phase.ch < |channels|
    && channels[s.calls[k].phase.ch] == ch
    && s.calls[k].allow == allow
  }

  /** From one state to the other by a lookup and, if it found the request, the send right behind it. */
  predicate Answered(before: System, after: System, id: string, ip: string, allow: bool) {
    var mid := Next(before, Respond(id, ip, allow));
    if LookUp(before.pending, id, ip).None? then after == mid
    else Enabled(mid, Deliver(|before.calls|)) && after == Next(mid, Deliver(|before.calls|))
  }

  /** The ghost fields say which state of the protocol the broker and its channels are in. */
  class PermissionBroker {
    var pending: map<string, PendingPerm<Channel>>
    ghost var channels: seq<Channel>
    ghost var system: System

    constructor ()
      ensures pending == map[] && system == INITIAL && Represents()
    {
      pending, channels, system := map[], [], INITIAL;
    }

    ghost predicate Represents()
      reads this, channels
    {
      && |channels| == |system.waiters|
      && (forall i, j :: 0 <= i < j < |channels| ==> channels[i] != channels[j])
      && (forall w :: 0 <= w < |channels| ==> channels[w].buffer == system.waiters[w].buffer)
      && SamePending(pending, system.pending, channels)
    }

    ghost function Channels(): set<Channel>
      reads this
    {
      set id | id in pending :: pending[id].ch
    }

    method RegisterPending(id: string, ownerIP: string) returns (ch: Channel)
      modifies this
      ensures fresh(ch) && ch.buffer == None
      ensures pending == old(pending)[id := PendingPerm(ch, ownerIP)]
      ensures old(Represents()) ==> Represents()
      ensures channels == old(channels) + [ch]
      ensures id !in old(pending) && old(Represents()) ==> system == Next(old(system), Register(id, ownerIP))
    {
      hide SamePending;
      ch := new Channel();
      if SamePending(pending, system.pending, channels) {
        SamePlus(pending, system.pending, channels, id, ch, ownerIP);
      }
      pending := pending[id := PendingPerm(ch, ownerIP)];
      channels := channels + [ch];
      system := Registered(system, id, ownerIP);
    }

    /** `w` is the waiter that leaves: the call is deferred to the end of its request. */
    method RemovePending(id: string, ghost w: nat)
      modifies this
      ensures pending == old(pending) - {id} && channels == old(channels)
      ensures old(Represents()) ==> Represents()
      ensures Enabled(old(system), Remove(w)) && old(system).waiters[w].id == id ==>
                system == Next(old(system), Remove(w))
    {
      pending := pending - {id};
      system := if Enabled(system, Remove(w)) && system.waiters[w].id == id then Next(system, Remove(w))
      else system.(pending := system.pending - {id});
    }

    /** The first half of a response: the lookup, under the lock. */
    method Find(requestID: string, responderIP: string, ghost allow: bool) returns (found: Option<Channel>)
      modifies this`system
      ensures found == LookUp(pending, requestID, responderIP)
      ensures system == Next(old(system), Action.Respond(requestID, responderIP, allow))
      ensures old(Represents()) ==> Represents()
    {
      system := Next(system, Action.Respond(requestID, responderIP, allow));
      if requestID !in pending || pending[requestID].ownerIP != responderIP {
        return None;
      }
      return Some(pending[requestID].ch);
    }

    /** The second half: the send, outside the lock. `k` is the response whose lookup gave the channel. */
    method TrySend(ch: Channel, allow: bool, ghost k: nat)
      modifies this`system, ch
      ensures ch.buffer == Offer(old(ch.buffer), allow)
      ensures old(Represents()) && Holds(old(system), old(channels), k, ch, allow) ==>
                Represents() && system == Next(old(system), Deliver(k))
    {
      if ch.buffer == None {
        ch.buffer := Some(allow);
      }
      system := if Enabled(system, Deliver(k)) then Next(system, Deliver(k)) else system;
    }

    /** Both halves with nothing in between; other requests and responses may come in between them. */
    method Respond(requestID: string, responderIP: string, allow: bool) returns (accepted: bool)
      modifies this`system, Channels()
      ensures accepted <==> LookUp(pending, requestID, responderIP).Some?
      ensures accepted ==> var ch := LookUp(pending, requestID, responderIP).value;
                           ch.buffer == Offer(old(ch.buffer), allow)
      ensures forall ch :: ch in Channels() && LookUp(pending, requestID, responderIP) != Some(ch) ==> unchanged(ch)
      ensures old(Represents()) ==> Represents() && Answered(old(system), system, requestID, responderIP, allow)
    {
      ghost var k := |system.calls|;
      var found := Find(requestID, responderIP, allow);
      if found.None? {
        return false;
      }
      assert found.value in Channels();
      TrySend(found.value, allow, k);
      return true;
    }

    /** `select` on the channel and the ends of waiting; a branch can be taken only when it is ready. */
    method Await(ch: Channel, heard: bool, ghost w: nat) returns (allowed: bool)
      requires heard ==> ch.buffer.Some?
      modifies this`system, ch
      ensures allowed == (heard && old(ch.buffer) == Some(true))
      ensures ch.buffer == if heard then None else old(ch.buffer)
      ensures old(Represents()) && w < |old(channels)| && old(channels)[w] == ch &&
              old(system).waiters[w].phase.Waiting? ==>
                Represents() && system == Next(old(system), if heard then Receive(w) else GiveUp(w)) &&
                system.waiters[w].phase == Decided(allowed, heard)
    {
      ghost var action := if heard then Receive(w) else GiveUp(w);
      system := if Enabled(system, action) then Next(system, action) else system;
      if heard {
        allowed := ch.buffer.value;
        ch.buffer := None;
      } else {
        allowed := false;
      }
    }
  }

  // ---- the invariant ----

  /** The pending map holds exactly the requests of the waiters that have not left it. */
  predicate PendingExact(s: System) {
    && (forall id :: id in s.pending ==>
          var ch := s.pending[id].ch;
          ch < |s.waiters| && s.waiters[ch].id == id && s.waiters[ch].owner == s.pending[id].ownerIP &&
          !s.waiters[ch].phase.Gone?)
    && (forall w :: 0 <= w < |s.waiters| && !s.waiters[w].phase.Gone? ==>
          s.waiters[w].id in s.pending && s.pending[s.waiters[w].id].ch == w)
  }

  /** The channel holds the first value sent; the others are dropped. */
  predicate HoldsFirst(w: Waiter) {
    w.buffer == if w.sends == [] then None else Some(w.sends[0].allow)
  }

  /** An undecided waiter heard nothing yet; a decided one heard the first value sent, or nothing. */
  predicate FirstSendRules(w: Waiter) {
    match w.phase
    case Waiting => HoldsFirst(w)
    case Decided(allowed, heard) => HeardFirst(w, allowed, heard)
    case Gone(allowed, heard) => HeardFirst(w, allowed, heard)
  }

  predicate HeardFirst(w: Waiter, allowed: bool, heard: bool) {
    if heard then w.sends != [] && allowed == w.sends[0].allow && (|w.sends| == 1 ==> w.buffer.None?)
    else !allowed && HoldsFirst(w)
  }

  /** Every send came from a call of its own for this very request, made from the owner's address. */
  predicate SendsFromOwner(s: System, w: nat)
    requires w < |s.waiters|
  {
    var waiter := s.waiters[w];
    forall i :: 0 <= i < |waiter.sends| ==>
      var send := waiter.sends[i];
      send.ip == waiter.owner && send.call < |s.calls| &&
      s.calls[send.call] == Call(waiter.id, send.ip, send.allow, Finished(w))
  }

  predicate CallsHoldOwnChannel(s: System) {
    forall k :: 0 <= k < |s.calls| && !s.calls[k].phase.Rejected? ==>
      var ch := s.calls[k].phase.ch;
      ch < |s.waiters| && s.waiters[ch].id == s.calls[k].id && s.waiters[ch].owner == s.calls[k].ip
  }

  predicate Inv(s: System) {
    && PendingExact(s)
    && CallsHoldOwnChannel(s)
    && (forall w :: 0 <= w < |s.waiters| ==> FirstSendRules(s.waiters[w]) && SendsFromOwner(s, w))
  }

  lemma StepKeepsInv(s: System, a: Action)
    requires Inv(s) && Enabled(s, a)
    ensures Inv(Next(s, a))
  {
    var t := Next(s, a);
    StepKeepsPending(s, a);
    StepKeepsCalls(s, a);
    forall w | 0 <= w < |t.waiters| ensures FirstSendRules(t.waiters[w]) && SendsFromOwner(t, w) {
      StepKeepsWaiter(s, a, w);
    }
  }

  lemma StepKeepsPending(s: System, a: Action)
    requires Inv(s) && Enabled(s, a)
    ensures PendingExact(Next(s, a))
  {
    hide SendsFromOwner, FirstSendRules, CallsHoldOwnChannel, PendingExact, Next, Enabled;
    match a {
      case Register(id, owner) => RegisterKeepsPending(s, id, owner);
      case Remove(w) => RemoveKeepsPending(s, w);
      case _ => OtherKeepsPending(s, a);
    }
  }

  lemma RegisterKeepsPending(s: System, id: string, owner: string)
    requires PendingExact(s) && Enabled(s, Register(id, owner))
    ensures PendingExact(Next(s, Register(id, owner)))
  {
  }

  lemma RemoveKeepsPending(s: System, w: nat)
    requires PendingExact(s) && Enabled(s, Remove(w))
    ensures PendingExact(Next(s, Remove(w)))
  {
  }

  lemma OtherKeepsPending(s: System, a: Action)
    requires PendingExact(s) && Enabled(s, a) && !a.Register? && !a.Remove?
    ensures PendingExact(Next(s, a))
  {
  }

  lemma StepKeepsCalls(s: System, a: Action)
    requires Inv(s) && Enabled(s, a)
    ensures CallsHoldOwnChannel(Next(s, a))
  {
    hide SendsFromOwner, FirstSendRules;
  }

  lemma StepKeepsWaiter(s: System, a: Action, w: nat)
    requires Inv(s) && Enabled(s, a) && w < |Next(s, a).waiters|
    ensures FirstSendRules(Next(s, a).waiters[w]) && SendsFromOwner(Next(s, a), w)
  {
    hide PendingExact;
    StepKeepsFirst(s, a, w);
    if w < |s.waiters| {
      StepKeepsSends(s, a, w);
    }
  }

  lemma StepKeepsFirst(s: System, a: Action, w: nat)
    requires Enabled(s, a) && w < |Next(s, a).waiters| && (w < |s.waiters| ==> FirstSendRules(s.waiters[w]))
    ensures FirstSendRules(Next(s, a).waiters[w])
  {
  }

  lemma StepKeepsSends(s: System, a: Action, w: nat)
    requires Enabled(s, a) && w < |s.waiters| && CallsHoldOwnChannel(s) && SendsFromOwner(s, w)
    ensures w < |Next(s, a).waiters| && SendsFromOwner(Next(s, a), w)
  {
  }

  // ---- runs ----

  /** The state after a run, if every action was enabled when it came. */
  function RunFrom(s: System, actions: seq<Action>): Option<System>
    decreases |actions|
  {
    if actions == [] then Some(s)
    else if !Enabled(s, actions[0]) then None
    else RunFrom(Next(s, actions[0]), actions[1..])
  }

  lemma {:induction false} RunKeepsInv(s: System, actions: seq<Action>)
    requires Inv(s) && RunFrom(s, actions).Some?
    ensures Inv(RunFrom(s, actions).value)
    decreases |actions|
  {
    hide Inv, Next, Enabled;
    if actions != [] {
      StepKeepsInv(s, actions[0]);
      RunKeepsInv(Next(s, actions[0]), actions[1..]);
    }
  }

  lemma ReachableInv(actions: seq<Action>)
    requires RunFrom(INITIAL, actions).Some?
    ensures Inv(RunFrom(INITIAL, actions).value)
  {
    assert Inv(INITIAL);
    RunKeepsInv(INITIAL, actions);
  }

  /** Why ids must be fresh: register a live id again, and the first waiter's removal unregisters the second. */
  lemma ReusedIdUnregisters(s: System, w: nat, owner: string)
    requires Inv(s) && w < |s.waiters| && s.waiters[w].phase.Decided?
    ensures var id := s.waiters[w].id;
            var t := Registered(s, id, owner);
            Enabled(t, Remove(w)) && Next(t, Remove(w)).waiters[|s.waiters|].phase.Waiting? &&
            id !in Next(t, Remove(w)).pending
  {
  }

  /** Registering keeps the map exact exactly for an id that is not pending. */
  lemma RegisterExact(s: System, id: string, owner: string)
    requires Inv(s)
    ensures PendingExact(Registered(s, id, owner)) <==> id !in s.pending
  {
    hide CallsHoldOwnChannel, SendsFromOwner, FirstSendRules;
    var t := Registered(s, id, owner);
    if id in s.pending {
      var w := s.pending[id].ch;
      assert t.waiters[w] == s.waiters[w] && t.pending[id].ch == |s.waiters|;
    } else {
      RegisterKeepsPending(s, id, owner);
    }
  }

  predicate HasOutcome(w: Waiter) {
    !w.phase.Waiting?
  }

  /**
   * In every interleaving: a waiter is granted exactly when it heard its channel and the first value ever sent there
   * was an approval, and that value came from a call for its own request, made from the owner's address.
   */
  lemma GrantMeansOwnerApproved(actions: seq<Action>, w: nat)
    requires RunFrom(INITIAL, actions).Some? && w < |RunFrom(INITIAL, actions).value.waiters|
    requires HasOutcome(RunFrom(INITIAL, actions).value.waiters[w])
    ensures var s := RunFrom(INITIAL, actions).value;
            var waiter := s.waiters[w];
            (waiter.phase.allowed <==> waiter.phase.heard && waiter.sends != [] && waiter.sends[0].allow) &&
            (waiter.phase.allowed ==>
               var first := waiter.sends[0];
               first.ip == waiter.owner && first.call < |s.calls| &&
               s.calls[first.call].id == waiter.id && s.calls[first.call].ip == waiter.owner &&
               s.calls[first.call].allow)
  {
    hide PendingExact, CallsHoldOwnChannel, RunFrom;
    ReachableInv(actions);
    var s := RunFrom(INITIAL, actions).value;
    assert FirstSendRules(s.waiters[w]) && SendsFromOwner(s, w);
  }

  /** In every interleaving the pending map holds exactly the ids of the waiters still registered. */
  lemma PendingIsLiveWaiters(actions: seq<Action>, id: string)
    requires RunFrom(INITIAL, actions).Some?
    ensures var s := RunFrom(INITIAL, actions).value;
            id in s.pending <==> exists w :: 0 <= w < |s.waiters| && s.waiters[w].id == id && !s.waiters[w].phase.Gone?
  {
    hide CallsHoldOwnChannel, RunFrom;
    ReachableInv(actions);
  }

  predicate SameOutcome(before: Waiter, after: Waiter) {
    && after.id == before.id
    && after.owner == before.owner
    && (HasOutcome(before) ==>
          HasOutcome(after) && after.phase.allowed == before.phase.allowed && after.phase.heard == before.phase.heard)
  }

  lemma StepKeepsOutcome(s: System, a: Action, w: nat)
    requires Enabled(s, a) && w < |s.waiters|
    ensures w < |Next(s, a).waiters| && SameOutcome(s.waiters[w], Next(s, a).waiters[w])
  {
  }

  /** Once a waiter has its answer, nothing that follows changes it: not a later send, not its own removal. */
  lemma {:induction false} OutcomeIsFinal(s: System, actions: seq<Action>, w: nat)
    requires RunFrom(s, actions).Some? && w < |s.waiters|
    ensures w < |RunFrom(s, actions).value.waiters|
    ensures SameOutcome(s.waiters[w], RunFrom(s, actions).value.waiters[w])
    decreases |actions|
  {
    hide Next, Enabled;
    if actions != [] {
      StepKeepsOutcome(s, actions[0], w);
      OutcomeIsFinal(Next(s, actions[0]), actions[1..], w);
    }
  }

  lemma HoldingStays(s: System, a: Action, k: nat)
    requires Enabled(s, a) && Enabled(s, Deliver(k)) && a != Deliver(k)
    ensures Enabled(Next(s, a), Deliver(k))
  {
  }

  /**
   * A responder that passed its lookup can always finish: whatever the others do meanwhile, including a timeout or
   * the removal of the request, its send stays enabled, and making it touches neither the pending map nor any phase.
   */
  lemma {:induction false} SendNeverBlocks(s: System, actions: seq<Action>, k: nat)
    requires Enabled(s, Deliver(k)) && RunFrom(s, actions).Some?
    requires forall i :: 0 <= i < |actions| ==> actions[i] != Deliver(k)
    ensures var t := RunFrom(s, actions).value;
            Enabled(t, Deliver(k)) && Next(t, Deliver(k)).pending == t.pending &&
            |Next(t, Deliver(k)).waiters| == |t.waiters| &&
            forall w :: 0 <= w < |t.waiters| ==> Next(t, Deliver(k)).waiters[w].phase == t.waiters[w].phase
    decreases |actions|
  {
    if actions != [] {
      HoldingStays(s, actions[0], k);
      SendNeverBlocks(Next(s, actions[0]), actions[1..], k);
    }
  }

  /** A waiter can always stop waiting, and can hear an answer exactly if one was sent; then it can leave. */
  lemma WaiterNeverBlocks(actions: seq<Action>, w: nat)
    requires RunFrom(INITIAL, actions).Some? && w < |RunFrom(INITIAL, actions).value.waiters|
    ensures var s := RunFrom(INITIAL, actions).value;
            (Enabled(s, GiveUp(w)) <==> !HasOutcome(s.waiters[w])) &&
            (Enabled(s, Receive(w)) <==> !HasOutcome(s.waiters[w]) && s.waiters[w].sends != []) &&
            (Enabled(s, Remove(w)) <==> HasOutcome(s.waiters[w]) && s.waiters[w].id in s.pending &&
                                        s.pending[s.waiters[w].id].ch == w)
  {
    hide CallsHoldOwnChannel, RunFrom, SendsFromOwner;
    ReachableInv(actions);
    assert FirstSendRules(RunFrom(INITIAL, actions).value.waiters[w]);
  }

  /** A response from another address, or for a request no longer pending, is refused and changes nothing. */
  lemma ForeignResponseRefused(actions: seq<Action>, id: string, ip: string, allow: bool)
    requires RunFrom(INITIAL, actions).Some?
    ensures var s := RunFrom(INITIAL, actions).value;
            var t := Next(s, Respond(id, ip, allow));
            t.pending == s.pending && t.waiters == s.waiters &&
            (t.calls[|s.calls|].phase.Rejected? <==>
             forall w :: 0 <= w < |s.waiters| ==>
               !(s.waiters[w].id == id && s.waiters[w].owner == ip && !s.waiters[w].phase.Gone?))
  {
    hide CallsHoldOwnChannel, RunFrom, FirstSendRules, SendsFromOwner;
    ReachableInv(actions);
  }
}
