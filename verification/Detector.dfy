/** The activity tracker of `internal/detector/detector.go`: it emits only what changed, and that is enough. */
module Detector {
  import opened Wrappers

  datatype Activity = Working | Idle

  datatype Change = Change(name: string, state: Activity, lastActivity: int)

  datatype Entry = Entry(lastActivity: int, state: Activity)

  function Classify(idleAfter: int, now: int, last: int): Activity {
    if now - last < idleAfter then Working else Idle
  }

  /** What the tracker remembers after a poll: the polled sessions, freshly classified. */
  function SeenAfter(idleAfter: int, now: int, polled: map<string, int>): map<string, Entry> {
    map name | name in polled :: Entry(polled[name], Classify(idleAfter, now, polled[name]))
  }

  predicate Changed(seen: map<string, Entry>, name: string, state: Activity) {
    name !in seen || seen[name].state != state
  }

  /** The changes of a poll, by session. */
  function Changes(idleAfter: int, seen: map<string, Entry>, now: int, polled: map<string, int>): map<string, Change> {
    map name | name in polled && Changed(seen, name, Classify(idleAfter, now, polled[name])) ::
      Change(name, Classify(idleAfter, now, polled[name]), polled[name])
  }

  /** The list holds every change once, in whatever order. */
  ghost predicate Lists(list: seq<Change>, changes: map<string, Change>) {
    && (forall name :: name in changes ==> changes[name].name == name)
    && (forall i :: 0 <= i < |list| ==> list[i].name in changes && changes[list[i].name] == list[i])
    && (forall name :: name in changes ==> changes[name] in list)
    && (forall i, j :: 0 <= i < j < |list| ==> list[i].name != list[j].name)
  }

  lemma SeenKeys(idleAfter: int, now: int, polled: map<string, int>)
    ensures SeenAfter(idleAfter, now, polled).Keys == polled.Keys
  {
  }

  lemma NothingVisited(idleAfter: int, was: map<string, Entry>, now: int)
    ensures was + SeenAfter(idleAfter, now, map[]) == was
    ensures Lists([], Changes(idleAfter, was, now, map[]))
  {
  }

  lemma VisitSeen(idleAfter: int, was: map<string, Entry>, now: int, done: map<string, int>, name: string, last: int)
    requires name !in done
    ensures var state := Classify(idleAfter, now, last);
            var seen := was + SeenAfter(idleAfter, now, done);
            (Changed(seen, name, state) <==> Changed(was, name, state)) &&
            seen[name := Entry(last, state)] == was + SeenAfter(idleAfter, now, done[name := last])
  {
    hide Classify;
  }

  lemma VisitChanges(idleAfter: int, was: map<string, Entry>, now: int, done: map<string, int>, name: string, last: int)
    requires name !in done
    ensures var state := Classify(idleAfter, now, last);
            var before := Changes(idleAfter, was, now, done);
            name !in before &&
            Changes(idleAfter, was, now, done[name := last]) ==
            if Changed(was, name, state) then before[name := Change(name, state, last)] else before
  {
    hide Classify;
  }

  /** One round of the polling loop, after the sessions in `done`. */
  lemma Visit(
    idleAfter: int, was: map<string, Entry>, now: int, done: map<string, int>, name: string, last: int,
    list: seq<Change>)
    requires name !in done && Lists(list, Changes(idleAfter, was, now, done))
    ensures var state := Classify(idleAfter, now, last);
            var seen := was + SeenAfter(idleAfter, now, done);
            (Changed(seen, name, state) <==> Changed(was, name, state)) &&
            seen[name := Entry(last, state)] == was + SeenAfter(idleAfter, now, done[name := last]) &&
            Lists(if Changed(was, name, state) then list + [Change(name, state, last)] else list,
                  Changes(idleAfter, was, now, done[name := last]))
  {
    hide Classify, Lists, SeenAfter, Changes, Changed;
    var state := Classify(idleAfter, now, last);
    VisitSeen(idleAfter, was, now, done, name, last);
    VisitChanges(idleAfter, was, now, done, name, last);
    if Changed(was, name, state) {
      ListsSnoc(list, Changes(idleAfter, was, now, done), Change(name, state, last));
    }
  }

  lemma ListsSnoc(list: seq<Change>, changes: map<string, Change>, c: Change)
    requires Lists(list, changes) && c.name !in changes
    ensures Lists(list + [c], changes[c.name := c])
  {
  }

  lemma SeenStates(idleAfter: int, now: int, polled: map<string, int>)
    ensures var seen := SeenAfter(idleAfter, now, polled);
            seen.Keys == polled.Keys &&
            forall name :: name in seen ==>
              seen[name].lastActivity == polled[name] &&
              (seen[name].state == Working <==> now < polled[name] + idleAfter)
  {
  }

  lemma ListedStates(
    idleAfter: int, seen: map<string, Entry>, now: int, polled: map<string, int>, list: seq<Change>)
    requires Lists(list, Changes(idleAfter, seen, now, polled))
    ensures forall i :: 0 <= i < |list| ==>
              list[i].name in polled && list[i].lastActivity == polled[list[i].name] &&
              (list[i].state == Working <==> now < polled[list[i].name] + idleAfter)
  {
    forall i | 0 <= i < |list|
      ensures list[i].name in polled && list[i].lastActivity == polled[list[i].name]
      ensures list[i].state == Working <==> now < polled[list[i].name] + idleAfter
    {
      assert Changes(idleAfter, seen, now, polled)[list[i].name] == list[i];
    }
  }

  class Tracker {
    const idleAfter: int
    var seen: map<string, Entry>

    constructor (idleAfter: int)
      ensures this.idleAfter == idleAfter && seen == map[]
    {
      this.idleAfter := idleAfter;
      seen := map[];
    }

    /** Two loops over maps, each in any order: the result is the same for all of them. */
    method Update(now: int, polled: map<string, int>) returns (changes: seq<Change>)
      modifies this`seen
      ensures seen == SeenAfter(idleAfter, now, polled)
      ensures Lists(changes, Changes(idleAfter, old(seen), now, polled))
      ensures seen.Keys == polled.Keys
      ensures forall name :: name in seen ==>
                seen[name].lastActivity == polled[name] &&
                (seen[name].state == Working <==> now < polled[name] + idleAfter)
      ensures forall i :: 0 <= i < |changes| ==>
                changes[i].name in polled && changes[i].lastActivity == polled[changes[i].name] &&
                (changes[i].state == Working <==> now < polled[changes[i].name] + idleAfter)
    {
      hide SeenAfter, Changes, Lists;
      changes := [];
      ghost var was := seen;
      var todo := polled.Keys;
      ghost var done: map<string, int> := map[];
      NothingVisited(idleAfter, was, now);
      while todo != {}
        invariant todo <= polled.Keys && done.Keys == polled.Keys - todo
        invariant forall name :: name in done ==> done[name] == polled[name]
        invariant seen == was + SeenAfter(idleAfter, now, done)
        invariant Lists(changes, Changes(idleAfter, was, now, done))
        decreases |todo|
      {
        var name :| name in todo;
        var last := polled[name];
        Visit(idleAfter, was, now, done, name, last, changes);
        done := done[name := last];
        var state := Idle;
        if now - last < idleAfter {
          state := Working;
        }
        if name !in seen || seen[name].state != state {
          changes := changes + [Change(name, state, last)];
        }
        seen := seen[name := Entry(last, state)];
        todo := todo - {name};
      }
      assert done == polled;
      SeenKeys(idleAfter, now, polled);
      DropVanished(polled, SeenAfter(idleAfter, now, polled), was);
      SeenStates(idleAfter, now, polled);
      ListedStates(idleAfter, was, now, polled, changes);
    }

    /** The second loop: delete what is no longer polled. */
    method DropVanished(polled: map<string, int>, ghost kept: map<string, Entry>, ghost was: map<string, Entry>)
      requires seen == was + kept && kept.Keys == polled.Keys
      modifies this`seen
      ensures seen == kept
    {
      ghost var all, gone := seen, {};
      var todo := seen.Keys;
      assert all - {} == all;
      while todo != {}
        invariant gone !! polled.Keys && all.Keys - polled.Keys <= gone + todo
        invariant seen == all - gone
        decreases todo
      {
        var name :| name in todo;
        todo := todo - {name};
        if name !in polled {
          assert all - gone - {name} == all - (gone + {name});
          gone := gone + {name};
          seen := seen - {name};
        }
      }
      assert all - gone == kept;
    }

    method Forget(name: string)
      modifies this`seen
      ensures seen == old(seen) - {name}
    {
      seen := seen - {name};
    }
  }

  /** Any two listings of one poll hold the same changes: the map order does not matter. */
  lemma OrderIrrelevant(a: seq<Change>, b: seq<Change>, changes: map<string, Change>)
    requires Lists(a, changes) && Lists(b, changes)
    ensures multiset(a) == multiset(b) && |a| == |changes|
  {
    forall c ensures multiset(a)[c] == multiset(b)[c] {
      CountInListing(a, changes, c);
      CountInListing(b, changes, c);
    }
    assert multiset(a) == multiset(b);
    var names := set i | 0 <= i < |a| :: a[i].name;
    assert names == changes.Keys by {
      forall name | name in changes ensures name in names {
        assert changes[name] in a;
        var i :| 0 <= i < |a| && a[i] == changes[name];
        assert a[i].name in changes && changes[a[i].name] == a[i];
      }
    }
    NamesCount(a);
  }

  lemma {:induction false} CountOnce(list: seq<Change>, c: Change)
    requires forall i, j :: 0 <= i < j < |list| ==> list[i].name != list[j].name
    ensures multiset(list)[c] == if c in list then 1 else 0
  {
    if list != [] {
      var n := |list| - 1;
      CountOnce(list[..n], c);
      assert list == list[..n] + [list[n]];
    }
  }

  lemma CountInListing(list: seq<Change>, changes: map<string, Change>, c: Change)
    requires Lists(list, changes)
    ensures multiset(list)[c] == if c.name in changes && changes[c.name] == c then 1 else 0
  {
    CountOnce(list, c);
    if c in list {
      var i :| 0 <= i < |list| && list[i] == c;
    }
  }

  lemma {:induction false} NamesCount(list: seq<Change>)
    requires forall i, j :: 0 <= i < j < |list| ==> list[i].name != list[j].name
    ensures |set i | 0 <= i < |list| :: list[i].name| == |list|
  {
    var names := set i | 0 <= i < |list| :: list[i].name;
    if list != [] {
      var n := |list| - 1;
      var fewer := set i | 0 <= i < |list[..n]| :: list[..n][i].name;
      NamesCount(list[..n]);
      assert names == fewer + {list[n].name};
      assert list[n].name !in fewer;
    }
  }

  // ---- the consumer ----

  /** A listener that drops vanished sessions and then applies the changes it received. */
  function Replay(view: map<string, Activity>, polled: map<string, int>, changes: map<string, Change>)
    : map<string, Activity>
  {
    map name | name in (view.Keys * polled.Keys) + changes.Keys ::
      if name in changes then changes[name].state else view[name]
  }

  datatype Op = Poll(now: int, polled: map<string, int>) | Forget(name: string)

  /** One line per session: a change it received, or the point where the tracker forgot it. */
  datatype Line = Emitted(state: Activity) | Reset

  datatype World = World(seen: map<string, Entry>, view: map<string, Activity>, log: map<string, seq<Line>>)

  function LogOf(log: map<string, seq<Line>>, name: string): seq<Line> {
    if name in log then log[name] else []
  }

  /** What a poll adds to the log of a session. */
  function PollLines(seen: map<string, Entry>, polled: map<string, int>, changes: map<string, Change>, name: string)
    : seq<Line>
  {
    if name in changes then [Emitted(changes[name].state)]
    else if name in seen && name !in polled then [Reset]
    else []
  }

  function StepWorld(idleAfter: int, w: World, op: Op): World {
    match op
    case Poll(now, polled) =>
      var changes := Changes(idleAfter, w.seen, now, polled);
      World(SeenAfter(idleAfter, now, polled),
            Replay(w.view, polled, changes),
            map name | name in w.log.Keys + changes.Keys + w.seen.Keys ::
              LogOf(w.log, name) + PollLines(w.seen, polled, changes, name))
    case Forget(name) =>
      w.(seen := w.seen - {name}, log := w.log[name := LogOf(w.log, name) + [Reset]])
  }

  function RunWorld(idleAfter: int, w: World, ops: seq<Op>): World
    decreases |ops|
  {
    if ops == [] then w else RunWorld(idleAfter, StepWorld(idleAfter, w, ops[0]), ops[1..])
  }

  const START := World(map[], map[], map[])

  /** Between two resets the states differ from one change to the next. */
  predicate Alternates(log: seq<Line>) {
    forall i :: 0 < i < |log| && log[i].Emitted? && log[i - 1].Emitted? ==> log[i].state != log[i - 1].state
  }

  /** The last line of a session's log tells what the tracker knows of it. */
  predicate LogMatches(w: World, name: string) {
    var log := LogOf(w.log, name);
    Alternates(log) &&
    if name in w.seen then log != [] && log[|log| - 1] == Emitted(w.seen[name].state)
    else log == [] || log[|log| - 1] == Reset
  }

  ghost predicate Inv(w: World) {
    && (forall name :: name in w.seen ==> name in w.view && w.view[name] == w.seen[name].state)
    && (forall name :: LogMatches(w, name))
  }

  lemma PollKeepsLog(idleAfter: int, w: World, now: int, polled: map<string, int>, name: string)
    requires LogMatches(w, name)
    ensures LogMatches(StepWorld(idleAfter, w, Poll(now, polled)), name)
  {
  }

  lemma StepKeepsInv(idleAfter: int, w: World, op: Op)
    requires Inv(w)
    ensures Inv(StepWorld(idleAfter, w, op))
  {
    hide Classify, LogMatches;
    match op {
      case Poll(now, polled) =>
        forall name ensures LogMatches(StepWorld(idleAfter, w, op), name) {
          PollKeepsLog(idleAfter, w, now, polled, name);
        }
      case Forget(gone) =>
        forall name ensures LogMatches(StepWorld(idleAfter, w, op), name) {
          ForgetKeepsLog(idleAfter, w, gone, name);
        }
    }
  }

  lemma ForgetKeepsLog(idleAfter: int, w: World, gone: string, name: string)
    requires LogMatches(w, name)
    ensures LogMatches(StepWorld(idleAfter, w, Forget(gone)), name)
  {
  }

  lemma {:induction false} RunKeepsInv(idleAfter: int, w: World, ops: seq<Op>)
    requires Inv(w)
    ensures Inv(RunWorld(idleAfter, w, ops))
    decreases |ops|
  {
    hide Inv, StepWorld;
    if ops != [] {
      StepKeepsInv(idleAfter, w, ops[0]);
      RunKeepsInv(idleAfter, StepWorld(idleAfter, w, ops[0]), ops[1..]);
    }
  }

  /**
   * Complete: over every run of polls and forgets, a listener that replays the changes has, after a poll, exactly
   * the direct classification of the polled sessions.
   */
  lemma ReplayIsClassification(idleAfter: int, ops: seq<Op>, now: int, polled: map<string, int>)
    ensures var w := StepWorld(idleAfter, RunWorld(idleAfter, START, ops), Poll(now, polled));
            w.view == map name | name in polled :: if now < polled[name] + idleAfter then Working else Idle
  {
    hide LogMatches, RunWorld;
    assert Inv(START) by {
      StartInv();
    }
    RunKeepsInv(idleAfter, START, ops);
  }

  lemma StartInv()
    ensures Inv(START)
  {
  }

  /** Minimal: between disappearances and forgets, the states reported for a session strictly alternate. */
  lemma ReportsAlternate(idleAfter: int, ops: seq<Op>, name: string)
    ensures Alternates(LogOf(RunWorld(idleAfter, START, ops).log, name))
  {
    hide RunWorld, Alternates;
    StartInv();
    RunKeepsInv(idleAfter, START, ops);
    assert LogMatches(RunWorld(idleAfter, START, ops), name);
  }

  // ---- in terms of the polls alone ----

  /** Whether the session was active when last polled, if that poll saw it and it was not forgotten since. */
  function LastSeenActive(idleAfter: int, ops: seq<Op>, name: string): Option<bool> {
    if ops == [] then None
    else
      match ops[|ops| - 1]
      case Poll(now, polled) => if name in polled then Some(now < polled[name] + idleAfter) else None
      case Forget(gone) => if gone == name then None else LastSeenActive(idleAfter, ops[..|ops| - 1], name)
  }

  lemma {:induction false} RunSnoc(idleAfter: int, w: World, ops: seq<Op>, op: Op)
    ensures RunWorld(idleAfter, w, ops + [op]) == StepWorld(idleAfter, RunWorld(idleAfter, w, ops), op)
    decreases |ops|
  {
    hide StepWorld;
    if ops == [] {
      assert [op][1..] == [] && ops + [op] == [op];
      assert RunWorld(idleAfter, StepWorld(idleAfter, w, op), []) == StepWorld(idleAfter, w, op);
    } else {
      RunSnoc(idleAfter, StepWorld(idleAfter, w, ops[0]), ops[1..], op);
      assert (ops + [op])[1..] == ops[1..] + [op];
    }
  }

  lemma {:induction false} SeenIsLast(idleAfter: int, ops: seq<Op>, name: string)
    ensures var seen := RunWorld(idleAfter, START, ops).seen;
            LastSeenActive(idleAfter, ops, name) == if name in seen then Some(seen[name].state == Working) else None
    decreases |ops|
  {
    hide Changes, Replay;
    if ops != [] {
      var front, last := ops[..|ops| - 1], ops[|ops| - 1];
      assert ops == front + [last];
      SeenIsLast(idleAfter, front, name);
      RunSnoc(idleAfter, START, front, last);
      if last.Poll? {
        SeenStates(idleAfter, last.now, last.polled);
      }
    }
  }

  /**
   * Over every run of polls and forgets, in terms of the polls alone: a poll reports a session exactly if it was not
   * known to be in the state it is in now; the report carries that state and time; and afterwards the listener holds
   * Working for exactly the polled sessions active less than `idleAfter` ago.
   */
  lemma ReportsExactly(idleAfter: int, ops: seq<Op>, now: int, polled: map<string, int>, name: string)
    ensures var w := RunWorld(idleAfter, START, ops);
            var changes := Changes(idleAfter, w.seen, now, polled);
            var view := StepWorld(idleAfter, w, Poll(now, polled)).view;
            (name in view <==> name in polled) &&
            (name in changes ==> name in polled) &&
            (name in polled ==>
               var active := now < polled[name] + idleAfter;
               (name in changes <==> LastSeenActive(idleAfter, ops, name) != Some(active)) &&
               (name in changes ==> changes[name] == Change(name, if active then Working else Idle, polled[name])) &&
               (view[name] == Working <==> active))
  {
    hide RunWorld;
    SeenIsLast(idleAfter, ops, name);
    ReplayIsClassification(idleAfter, ops, now, polled);
  }
}
