/** The interface settings of a run of lines, wherever its interface sections stand. */
module ConfSettings {
  import opened Wrappers
  import opened Text
  import opened WgConfig
  import Decimal

  /** What lines set in the interface: for each setting the last value, if there is one. */
  datatype Patch = Patch(privateKey: Option<string>, address: Option<string>, listenPort: Option<int>)

  const NO_PATCH := Patch(None, None, None)

  function Over<T>(first: Option<T>, second: Option<T>): Option<T> {
    if second.Some? then second else first
  }

  /** One run of lines after another. */
  function Then(p: Patch, q: Patch): Patch {
    Patch(Over(p.privateKey, q.privateKey), Over(p.address, q.address), Over(p.listenPort, q.listenPort))
  }

  function Or<T>(p: Option<T>, had: T): T {
    if p.Some? then p.value else had
  }

  function Patched(iface: InterfaceConfig, p: Patch): InterfaceConfig {
    InterfaceConfig(
      Or(p.privateKey, iface.privateKey), Or(p.address, iface.address), Or(p.listenPort, iface.listenPort))
  }

  function SettingPatch(key: string, value: string): Patch {
    var k := ToLower(key);
    if k == "privatekey" then NO_PATCH.(privateKey := Some(value))
    else if k == "address" then NO_PATCH.(address := Some(value))
    else if k == "listenport" then NO_PATCH.(listenPort := Decimal.Atoi(TrimSpace(value)))
    else NO_PATCH
  }

  /** What one line sets, inside an interface section or not. */
  function LinePatch(inside: bool, raw: string): Patch {
    var line := StripLine(raw);
    if !inside || line == "" || IsBracketed(line) then NO_PATCH
    else
      var eq := IndexOf(line, '=');
      if eq < 0 then NO_PATCH else SettingPatch(TrimSpace(line[..eq]), TrimSpace(line[eq + 1..]))
  }

  /** Whether the next line is inside an interface section. */
  predicate InsideAfter(inside: bool, raw: string) {
    if IsBracketed(StripLine(raw)) then IsInterfaceHeader(raw) else inside
  }

  function LinesPatch(inside: bool, lines: seq<string>): Patch
    decreases |lines|
  {
    if lines == [] then NO_PATCH
    else Then(LinePatch(inside, lines[0]), LinesPatch(InsideAfter(inside, lines[0]), lines[1..]))
  }

  /** The settings of lines that start outside any interface section. */
  function SettingsIn(lines: seq<string>): Patch {
    LinesPatch(false, lines)
  }

  predicate InInterfaceSection(st: ParserState) {
    st.section == InInterface
  }

  /** One line patches the interface by what it sets. */
  lemma StepPatches(st: ParserState, raw: string)
    requires Step(st, raw).Ok?
    ensures var next := Step(st, raw).value;
            next.iface == Patched(st.iface, LinePatch(InInterfaceSection(st), raw)) &&
            (InInterfaceSection(next) <==> InsideAfter(InInterfaceSection(st), raw))
  {
    hide StripLine, HeaderName, IndexOf, TrimSpace, Decimal.Atoi, ToLower, SetPeer;
  }

  lemma PatchTwice(iface: InterfaceConfig, p: Patch, q: Patch)
    ensures Patched(Patched(iface, p), q) == Patched(iface, Then(p, q))
  {
  }

  /** Reading lines patches the interface by what they set. */
  lemma {:induction false} RunPatches(st: ParserState, lines: seq<string>)
    requires Run(st, lines).Ok?
    ensures Run(st, lines).value.iface == Patched(st.iface, LinesPatch(InInterfaceSection(st), lines))
    decreases |lines|
  {
    hide Step, LinePatch, InsideAfter, Then, Patched;
    if lines == [] {
      NothingPatched(st.iface);
    } else {
      var next := Step(st, lines[0]).value;
      StepPatches(st, lines[0]);
      RunPatches(next, lines[1..]);
      PatchTwice(st.iface, LinePatch(InInterfaceSection(st), lines[0]),
                 LinesPatch(InsideAfter(InInterfaceSection(st), lines[0]), lines[1..]));
    }
  }

  lemma NothingPatched(iface: InterfaceConfig)
    ensures Patched(iface, NO_PATCH) == iface
  {
  }

  lemma {:induction false} NoSettings(lines: seq<string>)
    requires forall i :: 0 <= i < |lines| ==> !IsInterfaceHeader(lines[i])
    ensures SettingsIn(lines) == NO_PATCH
  {
    hide StripLine, IsHeader, SettingPatch;
    if lines != [] {
      NoSettings(lines[1..]);
    }
  }

  /** Behind a peer header it does not matter which section was open in front of it. */
  lemma HeaderClosesSection(inside: bool, lines: seq<string>)
    requires lines != [] && IsPeerHeader(lines[0])
    ensures LinesPatch(inside, lines) == SettingsIn(lines) == SettingsIn(lines[1..])
  {
    hide StripLine, HeaderName;
  }

  // ---- which settings survive ----

  predicate KeptField<T(==)>(had: T, made: Option<T>, later: Option<T>) {
    made.Some? ==> later.Some? || made.value == had
  }

  /** Every setting made is made again later, or is the value that was in force anyway. */
  predicate Kept(had: InterfaceConfig, made: Patch, later: Patch) {
    && KeptField(had.privateKey, made.privateKey, later.privateKey)
    && KeptField(had.address, made.address, later.address)
    && KeptField(had.listenPort, made.listenPort, later.listenPort)
  }

  /** Leaving lines out in the middle keeps the interface exactly if their settings are kept. */
  lemma KeptExact(had: InterfaceConfig, made: Patch, later: Patch)
    ensures Patched(had, later) == Patched(Patched(had, made), later) <==> Kept(had, made, later)
  {
  }
}
