/** The `wg0.conf` reader of `internal/wg/config.go`: a line-by-line section state machine. */
module WgConfig {
  import opened Wrappers
  import opened Text
  import Decimal

  const MAX_WG_PEERS := 100

  datatype InterfaceConfig = InterfaceConfig(privateKey: string, address: string, listenPort: int)

  datatype PeerConfig = PeerConfig(
    publicKey: string, allowedIPs: seq<string>, endpoint: string, keepalive: int, presharedKey: string)

  datatype Config = Config(iface: InterfaceConfig, peers: seq<PeerConfig>)

  datatype ParseError =
    | InvalidListenPort(text: string)
    | ListenPortOutOfRange(port: int)
    | InvalidKeepalive(text: string)
    | TooManyPeers

  const EMPTY_INTERFACE := InterfaceConfig("", "", 0)
  const EMPTY_PEER := PeerConfig("", [], "", 0, "")

  // ---- one line ----

  /** What the parser sees of a line: no comment, no surrounding white space. */
  function StripLine(raw: string): string {
    var at := IndexOf(raw, '#');
    TrimSpace(if at >= 0 then raw[..at] else raw)
  }

  predicate IsBracketed(line: string) {
    line != "" && line[0] == '[' && line[|line| - 1] == ']'
  }

  function HeaderName(line: string): string
    requires IsBracketed(line)
  {
    ToLower(TrimSpace(line[1..|line| - 1]))
  }

  predicate IsHeader(raw: string, name: string) {
    IsBracketed(StripLine(raw)) && HeaderName(StripLine(raw)) == name
  }

  predicate IsPeerHeader(raw: string) {
    IsHeader(raw, "peer")
  }

  predicate IsInterfaceHeader(raw: string) {
    IsHeader(raw, "interface")
  }

  // ---- the settings ----

  function SetInterface(iface: InterfaceConfig, key: string, value: string): Result<InterfaceConfig, ParseError> {
    var k := ToLower(key);
    if k == "privatekey" then Ok(iface.(privateKey := value))
    else if k == "address" then Ok(iface.(address := value))
    else if k == "listenport" then
      match Decimal.Atoi(TrimSpace(value))
      case None => Err(InvalidListenPort(value))
      case Some(port) =>
        if port < 1 || port > 65535 then Err(ListenPortOutOfRange(port)) else Ok(iface.(listenPort := port))
    else Ok(iface)
  }

  /** The non-blank entries of a comma-separated address list, in order. */
  function Addresses(pieces: seq<string>): seq<string> {
    if pieces == [] then []
    else
      var rest := Addresses(pieces[1..]);
      var cidr := TrimSpace(pieces[0]);
      if cidr != "" then [cidr] + rest else rest
  }

  function SetPeer(peer: PeerConfig, key: string, value: string): Result<PeerConfig, ParseError> {
    var k := ToLower(key);
    if k == "publickey" then Ok(peer.(publicKey := value))
    else if k == "allowedips" then Ok(peer.(allowedIPs := peer.allowedIPs + Addresses(Split(value, ','))))
    else if k == "endpoint" then Ok(peer.(endpoint := value))
    else if k == "persistentkeepalive" then
      match Decimal.Atoi(value)
      case None => Err(InvalidKeepalive(value))
      case Some(seconds) => Ok(peer.(keepalive := seconds))
    else if k == "presharedkey" then Ok(peer.(presharedKey := value))
    else Ok(peer)
  }

  lemma {:induction false} AddressesSnoc(pieces: seq<string>, last: string)
    ensures Addresses(pieces + [last]) ==
            Addresses(pieces) + if TrimSpace(last) != "" then [TrimSpace(last)] else []
  {
    if pieces == [] {
      assert [last][1..] == [];
    } else {
      AddressesSnoc(pieces[1..], last);
      assert (pieces + [last])[1..] == pieces[1..] + [last];
    }
  }

  method ApplyPeerKey(peer: PeerConfig, key: string, value: string) returns (r: Result<PeerConfig, ParseError>)
    ensures r == SetPeer(peer, key, value)
  {
    var k := ToLower(key);
    if k == "allowedips" {
      var pieces := Split(value, ',');
      var allowed := peer.allowedIPs;
      for i := 0 to |pieces|
        invariant allowed == peer.allowedIPs + Addresses(pieces[..i])
      {
        var cidr := TrimSpace(pieces[i]);
        assert pieces[..i + 1] == pieces[..i] + [pieces[i]];
        AddressesSnoc(pieces[..i], pieces[i]);
        if cidr != "" {
          allowed := allowed + [cidr];
        }
      }
      assert pieces[..|pieces|] == pieces;
      return Ok(peer.(allowedIPs := allowed));
    } else if k == "publickey" {
      return Ok(peer.(publicKey := value));
    } else if k == "endpoint" {
      return Ok(peer.(endpoint := value));
    } else if k == "persistentkeepalive" {
      var seconds := Decimal.Atoi(value);
      if seconds.None? {
        return Err(InvalidKeepalive(value));
      }
      return Ok(peer.(keepalive := seconds.value));
    } else if k == "presharedkey" {
      return Ok(peer.(presharedKey := value));
    }
    return Ok(peer);
  }

  // ---- the state machine ----

  datatype Section = NoSection | InInterface | InPeer | InUnknown

  datatype ParserState = ParserState(
    section: Section, pending: Option<PeerConfig>, iface: InterfaceConfig, committed: seq<PeerConfig>)
  {
    /** The peers seen so far: the committed ones and the one being read. */
    function Peers(): seq<PeerConfig> {
      if pending.Some? then committed + [pending.value] else committed
    }
  }

  const START := ParserState(NoSection, None, EMPTY_INTERFACE, [])

  function EnterSection(st: ParserState, name: string): Result<ParserState, ParseError> {
    if name == "peer" then
      if |st.Peers()| >= MAX_WG_PEERS then Err(TooManyPeers)
      else Ok(ParserState(InPeer, Some(EMPTY_PEER), st.iface, st.Peers()))
    else
      Ok(ParserState(if name == "interface" then InInterface else InUnknown, None, st.iface, st.Peers()))
  }

  function Assign(st: ParserState, key: string, value: string): Result<ParserState, ParseError> {
    match st.section
    case InInterface =>
      (match SetInterface(st.iface, key, value)
       case Err(e) => Err(e)
       case Ok(iface) => Ok(st.(iface := iface)))
    case InPeer =>
      (match SetPeer(if st.pending.Some? then st.pending.value else EMPTY_PEER, key, value)
       case Err(e) => Err(e)
       case Ok(peer) => Ok(st.(pending := Some(peer))))
    case _ => Ok(st)
  }

  function Step(st: ParserState, raw: string): Result<ParserState, ParseError> {
    var line := StripLine(raw);
    if line == "" then Ok(st)
    else if IsBracketed(line) then EnterSection(st, HeaderName(line))
    else
      var eq := IndexOf(line, '=');
      if eq < 0 then Ok(st)
      else Assign(st, TrimSpace(line[..eq]), TrimSpace(line[eq + 1..]))
  }

  /** Parsing as a fold over lines. */
  function Run(st: ParserState, lines: seq<string>): Result<ParserState, ParseError>
    decreases |lines|
  {
    if lines == [] then Ok(st)
    else
      match Step(st, lines[0])
      case Err(e) => Err(e)
      case Ok(next) => Run(next, lines[1..])
  }

  /** The lines of `bufio.ScanLines`: no final empty line, no trailing carriage return. */
  function ScanLines(text: string): seq<string> {
    var lines := Split(text, '\n');
    DropReturns(if lines[|lines| - 1] == "" then lines[..|lines| - 1] else lines)
  }

  function DropReturn(line: string): string {
    if HasSuffix(line, "\r") then line[..|line| - 1] else line
  }

  function DropReturns(lines: seq<string>): (r: seq<string>)
    ensures |r| == |lines|
  {
    if lines == [] then [] else [DropReturn(lines[0])] + DropReturns(lines[1..])
  }

  /** The configuration a text denotes. */
  function Parse(text: string): Result<Config, ParseError> {
    match Run(START, ScanLines(text))
    case Err(e) => Err(e)
    case Ok(st) => Ok(Config(st.iface, st.Peers()))
  }

  // ---- the parser's own invariant ----

  function CountPeerHeaders(lines: seq<string>): nat {
    if lines == [] then 0
    else (if IsPeerHeader(lines[0]) then 1 else 0) + CountPeerHeaders(lines[1..])
  }

  /** A peer is pending exactly inside a peer section, and the limit counts it. */
  predicate Consistent(st: ParserState) {
    (st.pending.Some? <==> st.section == InPeer) && |st.Peers()| <= MAX_WG_PEERS
  }

  /** Every line keeps the invariant, and a header line is the only one that adds a peer. */
  lemma StepInvariant(st: ParserState, raw: string)
    requires Consistent(st) && Step(st, raw).Ok?
    ensures Consistent(Step(st, raw).value)
    ensures |Step(st, raw).value.Peers()| == |st.Peers()| + if IsPeerHeader(raw) then 1 else 0
  {
    hide StripLine, HeaderName, IndexOf, TrimSpace, SetInterface, SetPeer;
  }

  lemma {:induction false} RunInvariant(st: ParserState, lines: seq<string>)
    requires Consistent(st) && Run(st, lines).Ok?
    ensures Consistent(Run(st, lines).value)
    ensures |Run(st, lines).value.Peers()| == |st.Peers()| + CountPeerHeaders(lines)
    decreases |lines|
  {
    if lines != [] {
      StepInvariant(st, lines[0]);
      RunInvariant(Step(st, lines[0]).value, lines[1..]);
    }
  }

  /** At every prefix of the text the invariant holds; the limit is exact and an excess is always an error. */
  lemma ParserStateInvariant(text: string, k: nat)
    requires k <= |ScanLines(text)|
    ensures Run(START, ScanLines(text)[..k]).Ok? ==>
              var st := Run(START, ScanLines(text)[..k]).value;
              Consistent(st) && |st.Peers()| == CountPeerHeaders(ScanLines(text)[..k])
    ensures Parse(text).Ok? ==> |Parse(text).value.peers| == CountPeerHeaders(ScanLines(text)) <= MAX_WG_PEERS
    ensures CountPeerHeaders(ScanLines(text)) > MAX_WG_PEERS ==> Parse(text).Err?
  {
    if Run(START, ScanLines(text)[..k]).Ok? {
      RunInvariant(START, ScanLines(text)[..k]);
    }
    if Parse(text).Ok? {
      RunInvariant(START, ScanLines(text));
    }
  }

  /** The scanner loop: sections, a pending peer, and the committed list, updated line by line. */
  method ParseString(s: string) returns (r: Result<Config, ParseError>)
    ensures r == Parse(s)
  {
    hide StripLine, HeaderName, SetInterface, SetPeer, ScanLines;
    var lines := ScanLines(s);
    var section, iface, peers := NoSection, EMPTY_INTERFACE, [];
    var currentPeer: Option<PeerConfig> := None;
    assert lines[0..] == lines;
    for i := 0 to |lines|
      invariant Consistent(ParserState(section, currentPeer, iface, peers))
      invariant Run(START, lines) == Run(ParserState(section, currentPeer, iface, peers), lines[i..])
    {
      assert lines[i..][1..] == lines[i + 1..];
      StepInvariantIfOk(ParserState(section, currentPeer, iface, peers), lines[i]);
      var line := StripLine(lines[i]);
      if line == "" {
        continue;
      }
      if IsBracketed(line) {
        if currentPeer.Some? {
          peers := peers + [currentPeer.value];
          currentPeer := None;
        }
        match HeaderName(line) {
          case "interface" =>
            section := InInterface;
          case "peer" =>
            if |peers| >= MAX_WG_PEERS {
              return Err(TooManyPeers);
            }
            currentPeer := Some(EMPTY_PEER);
            section := InPeer;
          case _ =>
            section := InUnknown;
        }
        continue;
      }
      var eq := IndexOf(line, '=');
      if eq < 0 {
        continue;
      }
      var key, value := TrimSpace(line[..eq]), TrimSpace(line[eq + 1..]);
      match section {
        case InInterface =>
          var applied := SetInterface(iface, key, value);
          if applied.Err? {
            return Err(applied.error);
          }
          iface := applied.value;
        case InPeer =>
          var applied := ApplyPeerKey(currentPeer.value, key, value);
          if applied.Err? {
            return Err(applied.error);
          }
          currentPeer := Some(applied.value);
        case _ =>
      }
    }
    if currentPeer.Some? {
      peers := peers + [currentPeer.value];
    }
    // The final count check of the source can never fire.
    assert |peers| <= MAX_WG_PEERS;
    return Ok(Config(iface, peers));
  }

  lemma StepInvariantIfOk(st: ParserState, raw: string)
    requires Consistent(st)
    ensures Step(st, raw).Ok? ==> Consistent(Step(st, raw).value)
  {
    if Step(st, raw).Ok? {
      StepInvariant(st, raw);
    }
  }
}
