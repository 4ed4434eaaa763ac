/** `mergeDiscovered` of `internal/relay/hub.go`: discovered sessions join the relay's own unless represented there. */
module Sessions {
  import opened Text

  datatype SessionRecord = SessionRecord(
    name: string, sessionType: string, status: string, workingDirectory: string, project: string, lastActivity: int,
    lastSnippet: string, source: string)

  function Logical(name: string): string {
    TrimPrefix(name, "cx-")
  }

  /** Some relay record has this name, or this non-empty project. */
  predicate Known(relay: seq<SessionRecord>, name: string) {
    exists i :: 0 <= i < |relay| && (relay[i].name == name || (relay[i].project != "" && relay[i].project == name))
  }

  predicate Represented(relay: seq<SessionRecord>, session: SessionRecord) {
    Known(relay, session.name) || Known(relay, Logical(session.name))
  }

  /** The discovered sessions nobody represents, in order. */
  function Unrepresented(relay: seq<SessionRecord>, discovered: seq<SessionRecord>): seq<SessionRecord> {
    if discovered == [] then []
    else
      var n := |discovered| - 1;
      Unrepresented(relay, discovered[..n]) + if Represented(relay, discovered[n]) then [] else [discovered[n]]
  }

  function Merge(relay: seq<SessionRecord>, discovered: seq<SessionRecord>): seq<SessionRecord> {
    relay + Unrepresented(relay, discovered)
  }

  method MergeDiscovered(relay: seq<SessionRecord>, discovered: seq<SessionRecord>)
    returns (records: seq<SessionRecord>)
    ensures records == Merge(relay, discovered)
  {
    var relayNames: set<string>, relayProjects: set<string> := {}, {};
    for i := 0 to |relay|
      invariant relayNames == set k | 0 <= k < i :: relay[k].name
      invariant relayProjects == set k | 0 <= k < i && relay[k].project != "" :: relay[k].project
    {
      relayNames := relayNames + {relay[i].name};
      if relay[i].project != "" {
        relayProjects := relayProjects + {relay[i].project};
      }
    }
    assert forall name :: name in relayNames || name in relayProjects <==> Known(relay, name);
    records := relay;
    for i := 0 to |discovered|
      invariant records == relay + Unrepresented(relay, discovered[..i])
    {
      assert discovered[..i + 1][..i] == discovered[..i];
      var sys := discovered[i];
      var logical := Logical(sys.name);
      assert Represented(relay, sys) <==> Known(relay, sys.name) || Known(relay, logical);
      if sys.name in relayNames || sys.name in relayProjects || logical in relayNames || logical in relayProjects {
        continue;
      }
      records := records + [sys];
    }
    assert discovered[..|discovered|] == discovered;
  }

  lemma {:induction false} KeptExactly(relay: seq<SessionRecord>, discovered: seq<SessionRecord>)
    ensures forall s :: s in Unrepresented(relay, discovered) <==> s in discovered && !Represented(relay, s)
  {
    hide Represented;
    if discovered != [] {
      var n := |discovered| - 1;
      KeptExactly(relay, discovered[..n]);
      assert discovered == discovered[..n] + [discovered[n]];
    }
  }

  /** The places of the unrepresented sessions in the discovered list. */
  function Places(relay: seq<SessionRecord>, discovered: seq<SessionRecord>): seq<nat> {
    if discovered == [] then []
    else
      var n := |discovered| - 1;
      Places(relay, discovered[..n]) + if Represented(relay, discovered[n]) then [] else [n]
  }

  /** Each unrepresented session is kept once per occurrence, and the kept ones stand in the discovered order. */
  lemma {:induction false} KeptInOrder(relay: seq<SessionRecord>, discovered: seq<SessionRecord>)
    ensures |Places(relay, discovered)| == |Unrepresented(relay, discovered)|
    ensures forall i :: 0 <= i < |Places(relay, discovered)| ==>
              Places(relay, discovered)[i] < |discovered| &&
              Unrepresented(relay, discovered)[i] == discovered[Places(relay, discovered)[i]]
    ensures forall i, j :: 0 <= i < j < |Places(relay, discovered)| ==>
              Places(relay, discovered)[i] < Places(relay, discovered)[j]
    ensures forall k :: 0 <= k < |discovered| ==>
              (k in Places(relay, discovered) <==> !Represented(relay, discovered[k]))
  {
    hide Represented;
    if discovered != [] {
      var n := |discovered| - 1;
      KeptInOrder(relay, discovered[..n]);
      assert forall k :: 0 <= k < n ==> discovered[..n][k] == discovered[k];
    }
  }

  lemma KnownMore(relay: seq<SessionRecord>, more: seq<SessionRecord>, name: string)
    requires Known(relay, name)
    ensures Known(relay + more, name)
  {
    var i :| 0 <= i < |relay| && (relay[i].name == name || (relay[i].project != "" && relay[i].project == name));
    assert (relay + more)[i] == relay[i];
  }

  lemma {:induction false} NothingLeft(records: seq<SessionRecord>, discovered: seq<SessionRecord>)
    requires forall s :: s in discovered ==> Represented(records, s)
    ensures Unrepresented(records, discovered) == []
  {
    hide Represented;
    if discovered != [] {
      NothingLeft(records, discovered[..|discovered| - 1]);
    }
  }

  /**
   * The relay's records are an unchanged prefix; behind it stand exactly the discovered sessions that no relay record
   * represents; and merging the same discovery again adds nothing.
   */
  lemma MergeSettles(relay: seq<SessionRecord>, discovered: seq<SessionRecord>)
    ensures relay <= Merge(relay, discovered)
    ensures forall s :: s in Merge(relay, discovered)[|relay|..] <==> s in discovered && !Represented(relay, s)
    ensures Merge(Merge(relay, discovered), discovered) == Merge(relay, discovered)
  {
    hide Represented;
    var merged := Merge(relay, discovered);
    KeptExactly(relay, discovered);
    assert merged[|relay|..] == Unrepresented(relay, discovered);
    forall s | s in discovered ensures Represented(merged, s) {
      NowRepresented(relay, discovered, s);
    }
    NothingLeft(merged, discovered);
  }

  lemma NowRepresented(relay: seq<SessionRecord>, discovered: seq<SessionRecord>, s: SessionRecord)
    requires s in discovered
    ensures Represented(Merge(relay, discovered), s)
  {
    var kept := Unrepresented(relay, discovered);
    KeptExactly(relay, discovered);
    if Represented(relay, s) {
      KnownMore(relay, kept, if Known(relay, s.name) then s.name else Logical(s.name));
    } else {
      var i :| 0 <= i < |kept| && kept[i] == s;
      assert (relay + kept)[|relay| + i] == s;
    }
  }

  /** `cx-` in front of a name is the relay's own mark. */
  function BaseName(name: string): string {
    if |name| >= 3 && name[0] == 'c' && name[1] == 'x' && name[2] == '-' then name[3..] else name
  }

  /** A relay record goes by this name, or belongs to the project of this name. */
  predicate Taken(relay: seq<SessionRecord>, name: string) {
    exists i :: 0 <= i < |relay| && (relay[i].name == name || (name != "" && relay[i].project == name))
  }

  lemma RepresentedMeans(relay: seq<SessionRecord>, s: SessionRecord)
    ensures Represented(relay, s) <==> Taken(relay, s.name) || Taken(relay, BaseName(s.name))
  {
    assert Logical(s.name) == BaseName(s.name) by {
      if "cx-" <= s.name {
        assert s.name[0] == "cx-"[0] && s.name[1] == "cx-"[1] && s.name[2] == "cx-"[2];
      }
    }
    KnownIsTaken(relay, s.name);
    KnownIsTaken(relay, Logical(s.name));
  }

  lemma KnownIsTaken(relay: seq<SessionRecord>, name: string)
    ensures Known(relay, name) <==> Taken(relay, name)
  {
  }

  /** Behind the relay's records stand exactly the discovered sessions whose name is free, with and without the mark. */
  lemma FreeNamesJoin(relay: seq<SessionRecord>, discovered: seq<SessionRecord>, s: SessionRecord)
    ensures |relay| <= |Merge(relay, discovered)| && Merge(relay, discovered)[..|relay|] == relay
    ensures s in Merge(relay, discovered)[|relay|..] <==>
            s in discovered && !Taken(relay, s.name) && !Taken(relay, BaseName(s.name))
  {
    hide Represented, Taken;
    MergeSettles(relay, discovered);
    RepresentedMeans(relay, s);
  }
}
