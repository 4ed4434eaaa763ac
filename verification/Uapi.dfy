/**
 * The WireGuard device as its cross-platform configuration protocol shows it, and the two ways
 * `internal/wg/server.go` drives it: the full configuration at start, and one peer at a time while running.
 */
module Uapi {
  import opened Wrappers
  import opened Text
  import opened KeyCodec
  import opened Prefixes
  import Cutting
  import Decimal

  // ---- the device ----

  datatype DevicePeer = DevicePeer(presharedKey: string, endpoint: string, keepalive: nat)

  /** Peers by hex key; each allowed network belongs to one peer, the last one it was given to. */
  datatype Device = Device(
    privateKey: string, listenPort: nat, peers: map<string, DevicePeer>, routes: map<Net, string>)

  const BLANK_DEVICE := Device("", 0, map[], map[])
  const BLANK_PEER := DevicePeer("", "", 0)

  function DropRoutes(routes: map<Net, string>, owner: string): map<Net, string> {
    map net | net in routes && routes[net] != owner :: routes[net]
  }

  function DropPeer(dev: Device, hex: string): Device {
    dev.(peers := dev.peers - {hex}, routes := DropRoutes(dev.routes, hex))
  }

  // ---- the protocol's lines ----

  datatype Command =
    | PrivateKey(key: string)
    | ListenPort(port: nat)
    | PublicKey(peer: string)
    | Remove
    | PresharedKey(psk: string)
    | ReplaceAllowedIPs
    | AllowedIP(cidr: string)
    | Endpoint(endpoint: string)
    | Keepalive(seconds: nat)

  function Keyword(c: Command): string {
    match c
    case PrivateKey(_) => "private_key"
    case ListenPort(_) => "listen_port"
    case PublicKey(_) => "public_key"
    case Remove => "remove"
    case PresharedKey(_) => "preshared_key"
    case ReplaceAllowedIPs => "replace_allowed_ips"
    case AllowedIP(_) => "allowed_ip"
    case Endpoint(_) => "endpoint"
    case Keepalive(_) => "persistent_keepalive_interval"
  }

  function Argument(c: Command): string {
    match c
    case PrivateKey(key) => key
    case ListenPort(port) => Decimal.FormatNat(port)
    case PublicKey(peer) => peer
    case Remove => "true"
    case PresharedKey(psk) => psk
    case ReplaceAllowedIPs => "true"
    case AllowedIP(cidr) => cidr
    case Endpoint(endpoint) => endpoint
    case Keepalive(seconds) => Decimal.FormatNat(seconds)
  }

  function Print(c: Command): string {
    Keyword(c) + "=" + Argument(c)
  }

  const MAX_UINT16 := 65535

  /** The commands the device accepts. */
  predicate Accepted(c: Command) {
    match c
    case PrivateKey(key) => IsHexKey(key)
    case ListenPort(port) => port <= MAX_UINT16
    case PublicKey(peer) => IsHexKey(peer)
    case PresharedKey(psk) => IsHexKey(psk)
    case AllowedIP(cidr) => ReadPrefix(cidr).Some?
    case Endpoint(endpoint) => IsEndpoint(endpoint)
    case Keepalive(seconds) => seconds <= MAX_UINT16
    case _ => true
  }

  function ReadKey(value: string, c: Command): Option<Command> {
    if IsHexKey(value) then Some(c) else None
  }

  function ReadUint16(value: string): Option<nat> {
    if value == "" || !Decimal.AllDigits(value) || Decimal.DigitsValue(value) > MAX_UINT16 then None
    else Some(Decimal.DigitsValue(value))
  }

  /** One `key=value` line as the device reads it. */
  function ReadCommand(line: string): Option<Command> {
    var eq := IndexOf(line, '=');
    if eq < 0 then None else Interpret(line[..eq], line[eq + 1..])
  }

  function Interpret(keyword: string, value: string): Option<Command> {
    match keyword
    case "private_key" => ReadKey(value, PrivateKey(value))
    case "listen_port" =>
      (match ReadUint16(value)
       case None => None
       case Some(port) => Some(ListenPort(port)))
    case "public_key" => ReadKey(value, PublicKey(value))
    case "remove" => if value == "true" then Some(Remove) else None
    case "preshared_key" => ReadKey(value, PresharedKey(value))
    case "replace_allowed_ips" => if value == "true" then Some(ReplaceAllowedIPs) else None
    case "allowed_ip" => if ReadPrefix(value).Some? then Some(AllowedIP(value)) else None
    case "endpoint" => if IsEndpoint(value) then Some(Endpoint(value)) else None
    case "persistent_keepalive_interval" =>
      (match ReadUint16(value)
       case None => None
       case Some(seconds) => Some(Keepalive(seconds)))
    case _ => None
  }

  lemma ReadFormatted(n: nat)
    ensures ReadUint16(Decimal.FormatNat(n)) == if n <= MAX_UINT16 then Some(n) else None
  {
    Decimal.ValueOfFormat(n);
  }

  predicate IsKeywordChar(c: char) {
    'a' <= c <= 'z' || c == '_'
  }

  predicate IsKeyword(s: string) {
    forall i :: 0 <= i < |s| ==> IsKeywordChar(s[i])
  }

  lemma KeywordsHaveNoEquals(c: Command)
    ensures '=' !in Keyword(c) && '\n' !in Keyword(c)
  {
    hide Keyword;
    KeywordShape(c);
    assert !IsKeywordChar('=') && !IsKeywordChar('\n');
  }

  lemma KeywordShape(c: Command)
    ensures IsKeyword(Keyword(c))
  {
    LongKeyword();
  }

  lemma LongKeyword()
    ensures IsKeyword("persistent_keepalive_interval") && IsKeyword("replace_allowed_ips")
  {
  }

  /** Reading a printed command gives that command, if the device accepts it at all. */
  lemma ReadPrint(c: Command)
    ensures ReadCommand(Print(c)) == if Accepted(c) then Some(c) else None
  {
    hide IndexOf, ReadUint16, Keyword, Argument;
    KeywordsHaveNoEquals(c);
    var line := Print(c);
    assert line == Keyword(c) + ['='] + Argument(c);
    IndexOfAt(Keyword(c), '=', Argument(c));
    assert line[..|Keyword(c)|] == Keyword(c) && line[|Keyword(c)| + 1..] == Argument(c);
    InterpretPrinted(c);
  }

  lemma InterpretPrinted(c: Command)
    ensures Interpret(Keyword(c), Argument(c)) == if Accepted(c) then Some(c) else None
  {
    hide ReadUint16, Decimal.FormatNat, IsHexKey, ReadPrefix, IsEndpoint;
    match c {
      case ListenPort(port) => ReadFormatted(port);
      case Keepalive(seconds) => ReadFormatted(seconds);
      case _ =>
    }
  }

  // ---- running commands ----

  /** Which peer the following lines configure; after `remove=true` they go nowhere. */
  datatype Selection = NoPeer | Peer(hex: string) | Removed

  function OnPeer(dev: Device, sel: Selection, c: Command): Device {
    if sel.Peer? && sel.hex in dev.peers then
      var had := dev.peers[sel.hex];
      match c
      case PresharedKey(psk) => dev.(peers := dev.peers[sel.hex := had.(presharedKey := psk)])
      case Endpoint(endpoint) => dev.(peers := dev.peers[sel.hex := had.(endpoint := endpoint)])
      case Keepalive(seconds) => dev.(peers := dev.peers[sel.hex := had.(keepalive := seconds)])
      case ReplaceAllowedIPs => dev.(routes := DropRoutes(dev.routes, sel.hex))
      case AllowedIP(cidr) =>
        (match ReadPrefix(cidr)
         case None => dev
         case Some(net) => dev.(routes := dev.routes[net := sel.hex]))
      case Remove => DropPeer(dev, sel.hex)
      case _ => dev
    else dev
  }

  /** One command; a device setting after a peer, or a peer setting before one, is refused. */
  function Apply(dev: Device, sel: Selection, c: Command): Option<(Device, Selection)> {
    match c
    case PrivateKey(key) => if sel.NoPeer? then Some((dev.(privateKey := key), sel)) else None
    case ListenPort(port) => if sel.NoPeer? then Some((dev.(listenPort := port), sel)) else None
    case PublicKey(hex) =>
      Some((if hex in dev.peers then dev else dev.(peers := dev.peers[hex := BLANK_PEER]), Peer(hex)))
    case Remove => if sel.NoPeer? then None else Some((OnPeer(dev, sel, c), Removed))
    case _ => if sel.NoPeer? then None else Some((OnPeer(dev, sel, c), sel))
  }

  function Execute(dev: Device, sel: Selection, commands: seq<Command>): Option<(Device, Selection)>
    decreases |commands|
  {
    if commands == [] then Some((dev, sel))
    else if !Accepted(commands[0]) then None
    else
      match Apply(dev, sel, commands[0])
      case None => None
      case Some(next) => Execute(next.0, next.1, commands[1..])
  }

  /** `IpcSet`: the lines of the text up to the first empty one. */
  function ExecuteLines(dev: Device, sel: Selection, lines: seq<string>): Option<Device>
    decreases |lines|
  {
    if lines == [] || lines[0] == "" then Some(dev)
    else
      match ReadCommand(lines[0])
      case None => None
      case Some(c) =>
        match Apply(dev, sel, c)
        case None => None
        case Some(next) => ExecuteLines(next.0, next.1, lines[1..])
  }

  function IpcSet(dev: Device, text: string): Option<Device> {
    ExecuteLines(dev, NoPeer, Split(text, '\n'))
  }

  function PrintAll(commands: seq<Command>): (r: seq<string>)
    ensures |r| == |commands|
  {
    if commands == [] then [] else [Print(commands[0])] + PrintAll(commands[1..])
  }

  lemma PrintAllCons(c: Command, rest: seq<Command>)
    ensures PrintAll([c] + rest) == [Print(c)] + PrintAll(rest)
  {
    assert ([c] + rest)[1..] == rest;
  }

  lemma {:induction false} PrintAllConcat(a: seq<Command>, b: seq<Command>)
    ensures PrintAll(a + b) == PrintAll(a) + PrintAll(b)
  {
    hide Print;
    if a == [] {
      assert a + b == b;
    } else {
      hide PrintAll;
      var head, rest := a[0], a[1..];
      PrintAllConcat(rest, b);
      PrintAllCons(head, rest);
      PrintAllCons(head, rest + b);
      assert a == [head] + rest && a + b == [head] + (rest + b);
      Cutting.Associate([Print(head)], PrintAll(rest), PrintAll(b));
    }
  }

  /** The text of a command list: one line each, and the blank line that ends a set operation. */
  function Script(commands: seq<Command>): string {
    Unlines(PrintAll(commands)) + "\n"
  }

  function DeviceOf(r: Option<(Device, Selection)>): Option<Device> {
    if r.None? then None else Some(r.value.0)
  }

  lemma {:induction false} ExecutePrinted(dev: Device, sel: Selection, commands: seq<Command>)
    ensures ExecuteLines(dev, sel, PrintAll(commands) + ["", ""]) == DeviceOf(Execute(dev, sel, commands))
    decreases |commands|
  {
    hide Print, Apply, ReadCommand, Accepted;
    var lines := PrintAll(commands) + ["", ""];
    if commands != [] {
      ReadPrint(commands[0]);
      PrintNonEmpty(commands[0]);
      assert lines[1..] == PrintAll(commands[1..]) + ["", ""];
      var next := Apply(dev, sel, commands[0]);
      if next.Some? {
        ExecutePrinted(next.value.0, next.value.1, commands[1..]);
      }
    }
  }

  lemma PrintNonEmpty(c: Command)
    ensures Print(c) != ""
  {
  }

  predicate CleanCommands(commands: seq<Command>) {
    forall i :: 0 <= i < |commands| ==> '\n' !in Argument(commands[i])
  }

  lemma {:induction false} PrintAllClean(commands: seq<Command>)
    requires CleanCommands(commands)
    ensures NoNewlines(PrintAll(commands))
  {
    hide Argument, Keyword;
    if commands != [] {
      KeywordsHaveNoEquals(commands[0]);
      PrintAllClean(commands[1..]);
    }
  }

  /** What the device makes of a printed script is what its commands mean. */
  lemma ScriptMeaning(dev: Device, commands: seq<Command>)
    requires CleanCommands(commands)
    ensures IpcSet(dev, Script(commands)) == DeviceOf(Execute(dev, NoPeer, commands))
  {
    hide Execute, ExecuteLines, PrintAll, Argument, Split;
    var lines := PrintAll(commands);
    PrintAllClean(commands);
    UnlinesConcat(lines, [""]);
    assert [""][1..] == [];
    assert Unlines([""]) == "\n";
    SplitUnlines(lines + [""]);
    assert lines + [""] + [""] == lines + ["", ""];
    ExecutePrinted(dev, NoPeer, commands);
  }

  lemma {:induction false} ExecuteConcat(dev: Device, sel: Selection, a: seq<Command>, b: seq<Command>)
    ensures Execute(dev, sel, a + b) ==
            match Execute(dev, sel, a)
            case None => None
            case Some(mid) => Execute(mid.0, mid.1, b)
    decreases |a|
  {
    hide Apply, Accepted;
    if a == [] {
      assert a + b == b;
    } else {
      assert (a + b)[1..] == a[1..] + b;
      var next := Apply(dev, sel, a[0]);
      if next.Some? {
        ExecuteConcat(next.value.0, next.value.1, a[1..], b);
      }
    }
  }
}
