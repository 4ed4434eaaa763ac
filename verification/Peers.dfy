/** The peer manager of `internal/peers/peers.go`: ordered steps on the live device and on `wg0.conf`, and failures. */
module Peers {
  import opened Wrappers
  import opened Text
  import opened KeyCodec
  import opened WgConfig
  import opened Sections
  import opened ConfEdits
  import opened ConfAppend
  import opened WgServer
  import opened Octets
  import Decimal
  import Uapi

  const MAX_PEERS := 10

  /** Which of the steps outside the model fail in one call. */
  datatype Faults = Faults(
    read: bool, keygen: bool, liveAdd: bool, append: bool, rollback: bool, liveRemove: bool, rewrite: bool)

  datatype Failure =
    | InvalidName
    | ReadFailed
    | ParseFailed(error: ParseError)
    | PeerLimit
    | KeygenFailed
    | LiveFailed
    | WriteFailed
    | NoServerKey
    | OutOfRange
    | RewriteFailed

  /** The tunnel as the manager sees it: none wired in, not running, or running. */
  datatype Tunnel = Absent | Stopped | Running(device: Uapi.Device)

  /** The two things the manager keeps in step: the file and the live device. */
  datatype Store = Store(conf: string, live: Tunnel)

  function TunnelAdd(t: Tunnel, pubKey: string, cidr: string, refused: bool): Option<Tunnel> {
    match t
    case Absent => Some(Absent)
    case Stopped => None
    case Running(dev) =>
      if refused || LiveAdd(dev, pubKey, cidr).None? then None else Some(Running(LiveAdd(dev, pubKey, cidr).value))
  }

  function TunnelRemove(t: Tunnel, pubKey: string, refused: bool): Option<Tunnel> {
    match t
    case Absent => Some(Absent)
    case Stopped => None
    case Running(dev) =>
      if refused || LiveRemove(dev, pubKey).None? then None else Some(Running(LiveRemove(dev, pubKey).value))
  }

  function NewAddress(cfg: Config): string {
    AddressOf(NextOctet(UsedBy(cfg.peers) + {SERVER_OCTET}))
  }

  // ---- what each call does to the store ----

  /** From the live update on: a failed append is rolled back, a missing server key is noticed only afterwards. */
  function Commit(st: Store, cfg: Config, name: string, pubKey: string, faults: Faults)
    : (Store, Result<PeerInfo, Failure>)
  {
    var ip := NewAddress(cfg);
    match TunnelAdd(st.live, pubKey, ip + "/32", faults.liveAdd)
    case None => (st, Err(LiveFailed))
    case Some(live) =>
      if faults.append then
        var undone := TunnelRemove(live, pubKey, faults.rollback);
        (Store(st.conf, if undone.Some? then undone.value else live), Err(WriteFailed))
      else
        var done := Store(Appended(st.conf, name, pubKey, ip), live);
        if B64ToHex(cfg.iface.privateKey).None? then (done, Err(NoServerKey))
        else (done, Ok(PeerInfo(|cfg.peers| + 1, name, pubKey, ip)))
  }

  function AddStep(st: Store, name: string, key: seq<byte>, faults: Faults): (Store, Result<PeerInfo, Failure>) {
    if !LegalName(name) then (st, Err(InvalidName))
    else if faults.read then (st, Err(ReadFailed))
    else
      match Parse(st.conf)
      case Err(e) => (st, Err(ParseFailed(e)))
      case Ok(cfg) =>
        if |cfg.peers| >= MAX_PEERS then (st, Err(PeerLimit))
        else if faults.keygen then (st, Err(KeygenFailed))
        else Commit(st, cfg, name, Encode(key), faults)
  }

  function RemoveStep(st: Store, index: int, faults: Faults): (Store, Result<(), Failure>) {
    if faults.read then (st, Err(ReadFailed))
    else
      match Parse(st.conf)
      case Err(e) => (st, Err(ParseFailed(e)))
      case Ok(cfg) =>
        if index < 1 || index > |cfg.peers| then (st, Err(OutOfRange))
        else
          match TunnelRemove(st.live, cfg.peers[index - 1].publicKey, faults.liveRemove)
          case None => (st, Err(LiveFailed))
          case Some(live) =>
            if faults.rewrite || WithoutBlock(st.conf, index - 1).None? then (Store(st.conf, live), Err(RewriteFailed))
            else (Store(WithoutBlock(st.conf, index - 1).value, live), Ok(()))
  }

  // ---- listing ----

  /** `List` reads the file once for the peers and once more for the names; a failure of the second is ignored. */
  function ListResult(conf: string, unreadable: bool, namesUnreadable: bool): Result<seq<PeerInfo>, Failure> {
    if unreadable then Err(ReadFailed)
    else
      match Parse(conf)
      case Err(e) => Err(ParseFailed(e))
      case Ok(cfg) => Ok(Rows(cfg.peers, if namesUnreadable then [] else Names(Split(conf, '\n'))))
  }

  /** Without the names the rows are the same but for the names, which are all numbered defaults. */
  lemma UnnamedListing(conf: string)
    requires Parse(conf).Ok?
    ensures Listing(conf).Ok? && ListResult(conf, false, false) == Ok(Listing(conf).value)
    ensures var plain := ListResult(conf, false, true);
            plain.Ok? && |plain.value| == |Listing(conf).value| &&
            forall i :: 0 <= i < |plain.value| ==>
              plain.value[i] == Listing(conf).value[i].(name := "device-" + Decimal.FormatNat(i + 1))
  {
    hide Parse, Names, Decimal.FormatNat, TrimSuffix;
  }

  // ---- the manager ----

  class Manager {
    var conf: string
    const device: Server?

    constructor (conf: string, device: Server?)
      ensures this.conf == conf && this.device == device
    {
      this.conf := conf;
      this.device := device;
    }

    function Live(): Tunnel
      reads device
    {
      if device == null then Absent
      else if device.device.None? then Stopped
      else Running(device.device.value)
    }

    function Contents(): Store
      reads this, device
    {
      Store(conf, Live())
    }

    /** The peers in order, each with the name found at its place or a numbered one. */
    method List(unreadable: bool, namesUnreadable: bool) returns (r: Result<seq<PeerInfo>, Failure>)
      ensures r == ListResult(conf, unreadable, namesUnreadable)
    {
      hide Parse, Names, Row;
      if unreadable {
        return Err(ReadFailed);
      }
      var cfg := ParseString(conf);
      if cfg.Err? {
        return Err(ParseFailed(cfg.error));
      }
      var names := [];
      if !namesUnreadable {
        names := ReadPeerNames(conf);
      }
      var peers := cfg.value.peers;
      var rows := [];
      for i := 0 to |peers|
        invariant |rows| == i
        invariant forall k :: 0 <= k < i ==> rows[k] == Rows(peers, names)[k]
      {
        var name := "";
        if i < |names| {
          name := names[i];
        }
        rows := rows + [Row(i, peers[i], name)];
      }
      assert rows == Rows(peers, names);
      return Ok(rows);
    }

    /** Live update first, then the file; a failed append takes the peer off the device again. */
    method Add(name: string, key: seq<byte>, faults: Faults) returns (r: Result<PeerInfo, Failure>)
      modifies this`conf, device
      ensures (Contents(), r) == AddStep(old(Contents()), name, key, faults)
    {
      hide Parse, LegalName, B64ToHex, NewAddress, Commit, Encode, AddressOf, NextOctet, UsedBy;
      if !LegalName(name) {
        return Err(InvalidName);
      }
      if faults.read {
        return Err(ReadFailed);
      }
      var parsed := ParseString(conf);
      if parsed.Err? {
        return Err(ParseFailed(parsed.error));
      }
      var cfg := parsed.value;
      if |cfg.peers| >= MAX_PEERS {
        return Err(PeerLimit);
      }
      var octet := NextAvailableOctet(cfg);
      var clientIP := AddressOf(octet);
      assert clientIP == NewAddress(cfg) by {
        SameAddress(cfg, octet);
      }
      if faults.keygen {
        return Err(KeygenFailed);
      }
      var pubKey := Encode(key);
      r := CommitPeer(cfg, name, pubKey, clientIP, faults);
    }

    /** From the live update on. */
    method CommitPeer(cfg: Config, name: string, pubKey: string, clientIP: string, faults: Faults)
      returns (r: Result<PeerInfo, Failure>)
      requires clientIP == NewAddress(cfg)
      modifies this`conf, device
      ensures (Contents(), r) == Commit(old(Contents()), cfg, name, pubKey, faults)
    {
      hide B64ToHex, NewAddress, LiveAdd, LiveRemove, Appended;
      if device != null {
        var ok := device.AddPeer(pubKey, clientIP + "/32", faults.liveAdd);
        if !ok {
          return Err(LiveFailed);
        }
      }
      if faults.append {
        if device != null {
          var undone := device.RemovePeer(pubKey, faults.rollback);
        }
        return Err(WriteFailed);
      }
      conf := Appended(conf, name, pubKey, clientIP);
      var serverKey := B64ToHex(cfg.iface.privateKey);
      if serverKey.None? {
        return Err(NoServerKey);
      }
      return Ok(PeerInfo(|cfg.peers| + 1, name, pubKey, clientIP));
    }

    /** Live revoke first; the file is touched only if it succeeded. */
    method Remove(index: int, faults: Faults) returns (r: Result<(), Failure>)
      modifies this`conf, device
      ensures (Contents(), r) == RemoveStep(old(Contents()), index, faults)
    {
      hide Parse, LiveAdd, LiveRemove, WithoutBlock;
      if faults.read {
        return Err(ReadFailed);
      }
      var parsed := ParseString(conf);
      if parsed.Err? {
        return Err(ParseFailed(parsed.error));
      }
      var cfg := parsed.value;
      if index < 1 || index > |cfg.peers| {
        return Err(OutOfRange);
      }
      var peer := cfg.peers[index - 1];
      if device != null {
        var ok := device.RemovePeer(peer.publicKey, faults.liveRemove);
        if !ok {
          return Err(LiveFailed);
        }
      }
      var rewritten := RewriteWithout(index - 1, faults.rewrite);
      if !rewritten {
        return Err(RewriteFailed);
      }
      return Ok(());
    }

    /** Cut the file into sections and write it back without one of them, all or nothing. */
    method RewriteWithout(removeIdx: nat, failed: bool) returns (ok: bool)
      modifies this`conf
      ensures ok <==> !failed && WithoutBlock(old(conf), removeIdx).Some?
      ensures conf == if ok then WithoutBlock(old(conf), removeIdx).value else old(conf)
    {
      hide BlocksOf, Texts, Concat;
      if failed {
        return false;
      }
      var parts := SplitSections(conf);
      TextsAt(BlocksOf(conf));
      if removeIdx + 1 >= |parts| {
        return false;
      }
      var peerIdx := removeIdx + 1;
      TextsDropped(BlocksOf(conf), peerIdx);
      conf := Concat(parts[..peerIdx] + parts[peerIdx + 1..]);
      return true;
    }
  }

  lemma SameAddress(cfg: Config, octet: nat)
    requires octet == NextOctet(UsedBy(cfg.peers) + {SERVER_OCTET})
    ensures AddressOf(octet) == NewAddress(cfg)
  {
  }

  lemma TextsDropped(blocks: seq<seq<string>>, i: nat)
    requires i < |blocks|
    ensures |Texts(blocks)| == |blocks|
    ensures Texts(DropAt(blocks, i)) == Texts(blocks)[..i] + Texts(blocks)[i + 1..]
  {
    hide Unlines;
    TextsAt(blocks);
    TextsAt(DropAt(blocks, i));
  }
}
