/** The per-address lockout of `internal/auth/auth.go`: a pruned list of failure times stands for the whole history. */
module Auth {

  const MAX_FAILURES := 5

  /** Sixty seconds, in nanoseconds. */
  const LOCKOUT: int := 60_000_000_000

  /** The failure times after the cutoff, in order. */
  function Recent(times: seq<int>, cutoff: int): seq<int> {
    if times == [] then []
    else
      var front, last := Recent(times[..|times| - 1], cutoff), times[|times| - 1];
      if last > cutoff then front + [last] else front
  }

  function Stored(failures: map<string, seq<int>>, ip: string): seq<int> {
    if ip in failures then failures[ip] else []
  }

  /** `isLocked` stores the recent failures and forgets an address that has none. */
  function Prune(failures: map<string, seq<int>>, ip: string, now: int): map<string, seq<int>> {
    var still := Recent(Stored(failures, ip), now - LOCKOUT);
    if still == [] then failures - {ip} else failures[ip := still]
  }

  datatype State = State(token: string, failures: map<string, seq<int>>)

  predicate LockedAt(st: State, ip: string, now: int) {
    |Recent(Stored(st.failures, ip), now - LOCKOUT)| >= MAX_FAILURES
  }

  predicate Matches(st: State, provided: string) {
    provided != "" && provided == st.token
  }

  /** One attempt; the clock is read once for the pruning and once more when a failure is recorded. */
  function Attempt(st: State, ip: string, provided: string, now: int, later: int): (State, bool) {
    var pruned := Prune(st.failures, ip, now);
    if LockedAt(st, ip, now) then (st.(failures := pruned), false)
    else if !Matches(st, provided) then (st.(failures := pruned[ip := Stored(pruned, ip) + [later]]), false)
    else (st.(failures := pruned - {ip}), true)
  }

  class Authenticator {
    var token: string
    var failures: map<string, seq<int>>

    constructor (token: string)
      ensures Contents() == State(token, map[])
    {
      this.token := token;
      failures := map[];
    }

    function Contents(): State
      reads this
    {
      State(token, failures)
    }

    method IsLocked(ip: string, now: int) returns (locked: bool)
      modifies this`failures
      ensures failures == Prune(old(failures), ip, now)
      ensures locked <==> LockedAt(old(Contents()), ip, now)
    {
      var cutoff := now - LOCKOUT;
      var recent := Stored(failures, ip);
      var still := [];
      for i := 0 to |recent|
        invariant still == Recent(recent[..i], cutoff)
      {
        assert recent[..i + 1][..i] == recent[..i];
        if recent[i] > cutoff {
          still := still + [recent[i]];
        }
      }
      assert recent[..|recent|] == recent;
      if |still| == 0 {
        failures := failures - {ip};
      } else {
        failures := failures[ip := still];
      }
      return |still| >= MAX_FAILURES;
    }

    method RecordFailure(ip: string, now: int)
      modifies this`failures
      ensures failures == old(failures)[ip := Stored(old(failures), ip) + [now]]
    {
      failures := failures[ip := Stored(failures, ip) + [now]];
    }

    method Validate(ip: string, provided: string, now: int, later: int) returns (ok: bool)
      modifies this
      ensures (Contents(), ok) == Attempt(old(Contents()), ip, provided, now, later)
    {
      var locked := IsLocked(ip, now);
      if locked {
        return false;
      }
      if provided == "" || provided != token {
        RecordFailure(ip, later);
        return false;
      }
      failures := failures - {ip};
      return true;
    }

    method UpdateToken(newToken: string)
      modifies this`token
      ensures Contents() == old(Contents()).(token := newToken)
    {
      token := newToken;
    }
  }

  // ---- the history ----

  datatype Verdict = Refused | Failure | Success

  datatype Event = Event(ip: string, verdict: Verdict, time: int)

  /** All recorded failures of an address since its last success. */
  function FailTimes(history: seq<Event>, ip: string): seq<int> {
    if history == [] then []
    else
      var before, last := FailTimes(history[..|history| - 1], ip), history[|history| - 1];
      if last.ip != ip then before
      else match last.verdict
        case Refused => before
        case Failure => before + [last.time]
        case Success => []
  }

  datatype Op = Try(ip: string, provided: string, now: int, later: int) | Rotate(token: string)

  function VerdictOf(st: State, op: Op): Verdict
    requires op.Try?
  {
    if LockedAt(st, op.ip, op.now) then Refused else if Matches(st, op.provided) then Success else Failure
  }

  /** A run keeps the state, the full history, and the last clock reading. */
  datatype World = World(st: State, history: seq<Event>, clock: int)

  predicate OnTime(w: World, op: Op) {
    op.Try? ==> w.clock <= op.now <= op.later
  }

  function StepWorld(w: World, op: Op): World {
    match op
    case Rotate(token) => w.(st := w.st.(token := token))
    case Try(ip, provided, now, later) =>
      World(Attempt(w.st, ip, provided, now, later).0, w.history + [Event(ip, VerdictOf(w.st, op), later)], later)
  }

  predicate Timely(w: World, ops: seq<Op>)
    decreases |ops|
  {
    ops == [] || (OnTime(w, ops[0]) && Timely(StepWorld(w, ops[0]), ops[1..]))
  }

  function RunWorld(w: World, ops: seq<Op>): World
    decreases |ops|
  {
    if ops == [] then w else RunWorld(StepWorld(w, ops[0]), ops[1..])
  }

  predicate Ordered(times: seq<int>, clock: int) {
    (forall i, j :: 0 <= i < j < |times| ==> times[i] <= times[j]) && forall i :: 0 <= i < |times| ==> times[i] <= clock
  }

  predicate Represents(w: World, ip: string) {
    && Recent(Stored(w.st.failures, ip), w.clock - LOCKOUT) == Recent(FailTimes(w.history, ip), w.clock - LOCKOUT)
    && |Stored(w.st.failures, ip)| <= MAX_FAILURES
    && Ordered(Stored(w.st.failures, ip), w.clock)
  }

  /** Short ordered lists that agree with the full history from the window of the last clock reading on. */
  ghost predicate Refines(w: World) {
    forall ip :: Represents(w, ip)
  }

  // ---- lemmas on windows ----

  lemma {:induction false} RecentLater(times: seq<int>, c1: int, c2: int)
    requires c1 <= c2
    ensures Recent(Recent(times, c1), c2) == Recent(times, c2)
  {
    if times != [] {
      var n := |times| - 1;
      RecentLater(times[..n], c1, c2);
      if times[n] > c1 {
        RecentSnoc(Recent(times[..n], c1), times[n], c2);
      }
    }
  }

  lemma RecentSnoc(times: seq<int>, t: int, cutoff: int)
    ensures Recent(times + [t], cutoff) == Recent(times, cutoff) + if t > cutoff then [t] else []
  {
  }

  /** Two lists that agree from one cutoff on agree from any later one. */
  lemma AgreeLater(a: seq<int>, b: seq<int>, c1: int, c2: int)
    requires Recent(a, c1) == Recent(b, c1) && c1 <= c2
    ensures Recent(a, c2) == Recent(b, c2)
  {
    RecentLater(a, c1, c2);
    RecentLater(b, c1, c2);
  }

  lemma {:induction false} RecentOrdered(times: seq<int>, cutoff: int, clock: int)
    requires Ordered(times, clock)
    ensures Ordered(Recent(times, cutoff), clock) && |Recent(times, cutoff)| <= |times|
  {
    if times != [] {
      var front, last := times[..|times| - 1], times[|times| - 1];
      RecentOrdered(front, cutoff, last);
    }
  }

  lemma {:induction false} RecentWhole(times: seq<int>, cutoff: int)
    ensures |Recent(times, cutoff)| <= |times|
    ensures |Recent(times, cutoff)| == |times| ==> Recent(times, cutoff) == times
    ensures |Recent(times, cutoff)| == |times| <==> forall i :: 0 <= i < |times| ==> times[i] > cutoff
  {
    if times != [] {
      var n := |times| - 1;
      RecentWhole(times[..n], cutoff);
      assert times == times[..n] + [times[n]];
      if forall i :: 0 <= i < n ==> times[..n][i] > cutoff {
        assert forall i :: 0 <= i < n ==> times[i] == times[..n][i];
      }
    }
  }

  // ---- one step ----

  /** An attempt changes the list of its own address only. */
  lemma StoredAfter(st: State, ip: string, provided: string, now: int, later: int, other: string)
    ensures var recent := Recent(Stored(st.failures, ip), now - LOCKOUT);
            Stored(Attempt(st, ip, provided, now, later).0.failures, other) ==
            if other != ip then Stored(st.failures, other)
            else if LockedAt(st, ip, now) then recent
            else if Matches(st, provided) then []
            else recent + [later]
  {
  }

  lemma FailTimesAfter(history: seq<Event>, e: Event, ip: string)
    ensures FailTimes(history + [e], ip) ==
            if e.ip != ip || e.verdict == Refused then FailTimes(history, ip)
            else if e.verdict == Failure then FailTimes(history, ip) + [e.time]
            else []
  {
  }

  lemma TryKeeps(w: World, op: Op, ip: string)
    requires Represents(w, ip) && op.Try? && OnTime(w, op)
    ensures Represents(StepWorld(w, op), ip)
  {
    hide Recent, Stored, Attempt, FailTimes;
    var next := StepWorld(w, op);
    var list, past := Stored(w.st.failures, ip), FailTimes(w.history, ip);
    var c := op.now - LOCKOUT;
    StoredAfter(w.st, op.ip, op.provided, op.now, op.later, ip);
    FailTimesAfter(w.history, Event(op.ip, VerdictOf(w.st, op), op.later), ip);
    AgreeLater(list, past, w.clock - LOCKOUT, op.later - LOCKOUT);
    if op.ip == ip {
      RecentLater(list, c, op.later - LOCKOUT);
      RecentOrdered(list, c, op.now);
      RecentSnoc(Recent(list, c), op.later, op.later - LOCKOUT);
      RecentSnoc(past, op.later, op.later - LOCKOUT);
      RecentWhole(list, c);
    }
  }

  lemma StepKeeps(w: World, op: Op)
    requires Refines(w) && OnTime(w, op)
    ensures Refines(StepWorld(w, op))
  {
    hide Represents, Attempt;
    forall ip ensures Represents(StepWorld(w, op), ip) {
      if op.Try? {
        TryKeeps(w, op, ip);
      } else {
        RotateKeeps(w, op.token, ip);
      }
    }
  }

  lemma RotateKeeps(w: World, token: string, ip: string)
    requires Represents(w, ip)
    ensures Represents(StepWorld(w, Rotate(token)), ip)
  {
  }

  // ---- whole runs ----

  /** Over every run the stored lists keep representing the full history, and never hold more than five times. */
  lemma {:induction false} RunsRefine(w: World, ops: seq<Op>)
    requires Refines(w) && Timely(w, ops)
    ensures Refines(RunWorld(w, ops))
    decreases |ops|
  {
    hide Refines, StepWorld, OnTime;
    if ops != [] {
      StepKeeps(w, ops[0]);
      RunsRefine(StepWorld(w, ops[0]), ops[1..]);
    }
  }

  function Started(token: string, clock: int): World {
    World(State(token, map[]), [], clock)
  }

  /**
   * After every run from a new authenticator, an attempt succeeds exactly if it carries the current token and its
   * address has fewer than five failures recorded since its last success and within the last sixty seconds.
   */
  lemma DecisionIsHistory(token: string, clock: int, ops: seq<Op>, ip: string, provided: string, now: int, later: int)
    requires Timely(Started(token, clock), ops)
    requires RunWorld(Started(token, clock), ops).clock <= now
    ensures var w := RunWorld(Started(token, clock), ops);
            Attempt(w.st, ip, provided, now, later).1 <==>
            provided != "" && provided == w.st.token &&
            |Recent(FailTimes(w.history, ip), now - LOCKOUT)| < MAX_FAILURES
  {
    hide Recent, RunWorld, Prune, FailTimes;
    var start := Started(token, clock);
    assert Refines(start) by {
      StartRefines(token, clock);
    }
    RunsRefine(start, ops);
    var w := RunWorld(start, ops);
    assert Represents(w, ip);
    AgreeLater(Stored(w.st.failures, ip), FailTimes(w.history, ip), w.clock - LOCKOUT, now - LOCKOUT);
  }

  lemma StartRefines(token: string, clock: int)
    ensures Refines(Started(token, clock))
  {
  }

  /** Attempts from other addresses, whatever they are, leave an address's list alone. */
  lemma OthersUnaffected(st: State, ip: string, provided: string, now: int, later: int, other: string)
    requires other != ip
    ensures Stored(Attempt(st, ip, provided, now, later).0.failures, other) == Stored(st.failures, other)
    ensures forall t :: LockedAt(Attempt(st, ip, provided, now, later).0, other, t) <==> LockedAt(st, other, t)
  {
  }

  /** A full list locks its address until exactly sixty seconds after its oldest entry. */
  lemma LockEndsExactly(w: World, ip: string, now: int)
    requires Represents(w, ip) && |Stored(w.st.failures, ip)| == MAX_FAILURES
    ensures LockedAt(w.st, ip, now) <==> now < Stored(w.st.failures, ip)[0] + LOCKOUT
  {
    hide Recent, FailTimes;
    var list := Stored(w.st.failures, ip);
    RecentWhole(list, now - LOCKOUT);
  }

  predicate WithinLock(ops: seq<Op>, ip: string, until: int) {
    forall i :: 0 <= i < |ops| && ops[i].Try? && ops[i].ip == ip ==> ops[i].now < until
  }

  /**
   * Attempts during a lockout never extend it: whatever is tried before the lock ends, by anybody and with any
   * token, the locked address keeps the same five times and every attempt of its own is refused.
   */
  lemma {:induction false} LockoutNotExtended(w: World, ip: string, ops: seq<Op>)
    requires Refines(w) && Timely(w, ops) && |Stored(w.st.failures, ip)| == MAX_FAILURES
    requires WithinLock(ops, ip, Stored(w.st.failures, ip)[0] + LOCKOUT)
    ensures Stored(RunWorld(w, ops).st.failures, ip) == Stored(w.st.failures, ip)
    ensures FailTimes(RunWorld(w, ops).history, ip) == FailTimes(w.history, ip)
    ensures forall i :: |w.history| <= i < |RunWorld(w, ops).history| && RunWorld(w, ops).history[i].ip == ip ==>
              RunWorld(w, ops).history[i].verdict == Refused
    ensures w.history <= RunWorld(w, ops).history
    decreases |ops|
  {
    hide Refines, Stored, FailTimes, StepWorld, OnTime;
    if ops != [] {
      LockedStep(w, ip, ops[0]);
      StepKeeps(w, ops[0]);
      var next := StepWorld(w, ops[0]);
      assert WithinLock(ops[1..], ip, Stored(w.st.failures, ip)[0] + LOCKOUT);
      LockoutNotExtended(next, ip, ops[1..]);
      var end := RunWorld(w, ops);
      forall i | |w.history| <= i < |end.history| && end.history[i].ip == ip ensures end.history[i].verdict == Refused {
        if i < |next.history| {
          assert end.history[i] == next.history[i];
        }
      }
    }
  }

  lemma LockedStep(w: World, ip: string, op: Op)
    requires Refines(w) && |Stored(w.st.failures, ip)| == MAX_FAILURES
    requires op.Try? && op.ip == ip ==> op.now < Stored(w.st.failures, ip)[0] + LOCKOUT
    ensures Stored(StepWorld(w, op).st.failures, ip) == Stored(w.st.failures, ip)
    ensures FailTimes(StepWorld(w, op).history, ip) == FailTimes(w.history, ip)
    ensures w.history <= StepWorld(w, op).history
    ensures forall i :: |w.history| <= i < |StepWorld(w, op).history| && StepWorld(w, op).history[i].ip == ip ==>
              StepWorld(w, op).history[i].verdict == Refused
  {
    hide Recent, Stored, Attempt, FailTimes, Represents;
    if op.Try? {
      assert Represents(w, ip);
      StoredAfter(w.st, op.ip, op.provided, op.now, op.later, ip);
      FailTimesAfter(w.history, Event(op.ip, VerdictOf(w.st, op), op.later), ip);
      if op.ip == ip {
        LockEndsExactly(w, ip, op.now);
        RecentWhole(Stored(w.st.failures, ip), op.now - LOCKOUT);
      }
    }
  }

  // ---- in terms of the attempts alone ----

  /** The failures that count against an address: its own, less than sixty seconds old, with no success since. */
  function CountedFailures(history: seq<Event>, ip: string, now: int): set<nat> {
    set i | 0 <= i < |history| &&
            history[i].ip == ip && history[i].verdict == Failure && now < history[i].time + 60_000_000_000 &&
            forall k :: i < k < |history| && history[k].ip == ip ==> history[k].verdict != Success
  }

  lemma CountedSnoc(history: seq<Event>, e: Event, ip: string, now: int)
    ensures CountedFailures(history + [e], ip, now) ==
            if e.ip == ip && e.verdict == Success then {}
            else CountedFailures(history, ip, now)
                 + if e.ip == ip && e.verdict == Failure && now < e.time + 60_000_000_000 then {|history|} else {}
  {
    var all := history + [e];
    assert all[|history|] == e && forall i :: 0 <= i < |history| ==> all[i] == history[i];
    if e.ip == ip && e.verdict == Success {
      assert all[|history|].ip == ip && all[|history|].verdict == Success;
    } else {
      forall i ensures i in CountedFailures(all, ip, now) <==>
                       i in CountedFailures(history, ip, now) ||
                       (i == |history| && e.ip == ip && e.verdict == Failure && now < e.time + 60_000_000_000)
      {
        CountedAt(history, e, ip, now, i);
      }
    }
  }

  lemma CountedAt(history: seq<Event>, e: Event, ip: string, now: int, i: nat)
    requires !(e.ip == ip && e.verdict == Success)
    ensures i in CountedFailures(history + [e], ip, now) <==>
            i in CountedFailures(history, ip, now) ||
            (i == |history| && e.ip == ip && e.verdict == Failure && now < e.time + 60_000_000_000)
  {
    var all := history + [e];
    assert all[|history|] == e && forall k :: 0 <= k < |history| ==> all[k] == history[k];
    if i < |history| && i in CountedFailures(history, ip, now) {
      forall k | i < k < |all| && all[k].ip == ip ensures all[k].verdict != Success {
      }
    }
    if i < |history| && i in CountedFailures(all, ip, now) {
      forall k | i < k < |history| && history[k].ip == ip ensures history[k].verdict != Success {
        assert all[k] == history[k];
      }
    }
  }

  lemma {:induction false} CountedIsRecent(history: seq<Event>, ip: string, now: int)
    ensures |CountedFailures(history, ip, now)| == |Recent(FailTimes(history, ip), now - LOCKOUT)|
  {
    hide CountedFailures;
    if history == [] {
      NothingCounted(ip, now);
    } else {
      var n := |history| - 1;
      var front, e := history[..n], history[n];
      assert history == front + [e];
      CountedIsRecent(front, ip, now);
      CountedSnoc(front, e, ip, now);
      FailTimesAfter(front, e, ip);
      if e.ip == ip && e.verdict == Failure {
        RecentSnoc(FailTimes(front, ip), e.time, now - LOCKOUT);
        NotCounted(front, ip, now);
      }
    }
  }

  lemma NothingCounted(ip: string, now: int)
    ensures CountedFailures([], ip, now) == {}
  {
  }

  lemma NotCounted(history: seq<Event>, ip: string, now: int)
    ensures |history| !in CountedFailures(history, ip, now)
  {
  }

  /**
   * After every run from a new authenticator, in terms of the attempts alone: the next one succeeds exactly if its
   * token is the current one and not empty, and fewer than five failures count against its address.
   */
  lemma DecidedByAttempts(token: string, clock: int, ops: seq<Op>, ip: string, provided: string, now: int, later: int)
    requires Timely(Started(token, clock), ops)
    requires RunWorld(Started(token, clock), ops).clock <= now
    ensures var w := RunWorld(Started(token, clock), ops);
            Attempt(w.st, ip, provided, now, later).1 <==>
            provided != "" && provided == w.st.token && |CountedFailures(w.history, ip, now)| < 5
  {
    hide Attempt, RunWorld, CountedFailures, Recent, FailTimes, Timely;
    DecisionIsHistory(token, clock, ops, ip, provided, now, later);
    CountedIsRecent(RunWorld(Started(token, clock), ops).history, ip, now);
  }

  /** The token of the last rotation, or else the first one. */
  function CurrentToken(first: string, ops: seq<Op>): string {
    if ops == [] then first
    else if ops[|ops| - 1].Rotate? then ops[|ops| - 1].token
    else CurrentToken(first, ops[..|ops| - 1])
  }

  lemma {:induction false} RunSnoc(w: World, ops: seq<Op>, op: Op)
    ensures RunWorld(w, ops + [op]) == StepWorld(RunWorld(w, ops), op)
    decreases |ops|
  {
    hide StepWorld;
    if ops == [] {
      assert [op][1..] == [] && ops + [op] == [op];
      assert RunWorld(StepWorld(w, op), []) == StepWorld(w, op);
    } else {
      RunSnoc(StepWorld(w, ops[0]), ops[1..], op);
      assert (ops + [op])[1..] == ops[1..] + [op];
    }
  }

  /** No attempt changes the token, and each rotation replaces it. */
  lemma {:induction false} TokenIsCurrent(w: World, ops: seq<Op>)
    ensures RunWorld(w, ops).st.token == CurrentToken(w.st.token, ops)
    decreases |ops|
  {
    hide Prune, LockedAt, VerdictOf;
    if ops != [] {
      var front, last := ops[..|ops| - 1], ops[|ops| - 1];
      assert ops == front + [last];
      TokenIsCurrent(w, front);
      RunSnoc(w, front, last);
    }
  }
}
