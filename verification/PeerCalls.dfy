/** Which answer each call of the peer manager gives, and what it leaves behind, written out for every store. */
module PeerCalls {
  import opened Wrappers
  import opened Text
  import opened Cutting
  import opened KeyCodec
  import opened WgConfig
  import opened Sections
  import opened ConfEdits
  import opened ConfAppend
  import opened Prefixes
  import opened WgServer
  import opened LiveAgreement
  import opened Octets
  import opened Peers
  import opened PeerState
  import opened PeerRuns
  import opened PeerLimits
  import Decimal
  import Uapi

  // ---- the octet handed out ----

  /** Some peer of the file lists an address that ends in this octet. */
  ghost predicate ListsOctet(peers: seq<PeerConfig>, octet: nat) {
    exists i: nat, cidr: string {:trigger cidr in peers[i].allowedIPs} ::
      i < |peers| && cidr in peers[i].allowedIPs && LastOctet(cidr) == Some(octet)
  }

  lemma {:induction false} OctetsListed(cidrs: seq<string>, octet: nat)
    ensures octet in OctetsIn(cidrs) <==> exists cidr :: cidr in cidrs && LastOctet(cidr) == Some(octet)
  {
    hide LastOctet;
    if cidrs != [] {
      var front, last := cidrs[..|cidrs| - 1], cidrs[|cidrs| - 1];
      OctetsListed(front, octet);
      assert cidrs == front + [last];
    }
  }

  lemma UsedIsListed(peers: seq<PeerConfig>, octet: nat)
    ensures octet in UsedBy(peers) <==> ListsOctet(peers, octet)
  {
    hide LastOctet, UsedBy, OctetsIn;
    UsedMeans(peers, octet);
    if octet in UsedBy(peers) {
      var i :| 0 <= i < |peers| && octet in OctetsIn(peers[i].allowedIPs);
      OctetsListed(peers[i].allowedIPs, octet);
    }
    if ListsOctet(peers, octet) {
      var i: nat, cidr :| i < |peers| && cidr in peers[i].allowedIPs && LastOctet(cidr) == Some(octet);
      OctetsListed(peers[i].allowedIPs, octet);
    }
  }

  /** The least octet from 2 on that nobody lists, and 254 if there is none up to it. */
  lemma OctetMeaning(cfg: Config)
    ensures var octet := NewOctet(cfg);
            2 <= octet <= 254 && (forall k :: 2 <= k < octet ==> ListsOctet(cfg.peers, k)) &&
            (ListsOctet(cfg.peers, octet) ==> octet == 254) &&
            NewAddress(cfg) == "10.100.0." + Decimal.FormatNat(octet)
  {
    hide NextOctet, UsedBy, ListsOctet, Decimal.FormatNat;
    var used, octet := UsedBy(cfg.peers) + {SERVER_OCTET}, NewOctet(cfg);
    ChosenIsNext(used, octet);
    forall k | 2 <= k <= octet ensures k in used <==> ListsOctet(cfg.peers, k) {
      UsedIsListed(cfg.peers, k);
    }
  }

  // ---- adding ----

  predicate BeforeDevice(f: Failure) {
    f.InvalidName? || f.ReadFailed? || f.ParseFailed? || f.PeerLimit? || f.KeygenFailed? || f.OutOfRange?
  }

  /** A name is refused exactly if it is empty, longer than 64, or has a character outside the alphabet. */
  lemma NamesRefused(st: Store, name: string, key: seq<byte>, faults: Faults)
    ensures AddStep(st, name, key, faults).1 == Err(InvalidName) <==>
            name == "" || |name| > 64 || exists c :: c in name && c !in NAME_CHARS
    ensures AddStep(st, name, key, faults).1 == Err(InvalidName) ==> AddStep(st, name, key, faults).0 == st
  {
    hide Parse, LegalName, Encode, B64ToHex, NewAddress, TunnelAdd, TunnelRemove, Appended;
    LegalNameMeaning(name);
  }

  /** The other calls that end before anything is changed, and which answer each of them gets. */
  lemma AddRefusals(st: Store, name: string, key: seq<byte>, faults: Faults)
    requires AddStep(st, name, key, faults).1 != Err(InvalidName)
    ensures var (next, r) := AddStep(st, name, key, faults);
            var parsed := Parse(st.conf);
            (r == Err(ReadFailed) <==> faults.read) &&
            (forall e :: r == Err(ParseFailed(e)) <==> !faults.read && parsed == Err(e)) &&
            (r == Err(PeerLimit) <==> !faults.read && parsed.Ok? && |parsed.value.peers| >= 10) &&
            (r == Err(KeygenFailed) <==>
               !faults.read && parsed.Ok? && |parsed.value.peers| < 10 && faults.keygen) &&
            (r.Err? && BeforeDevice(r.error) ==> next == st)
  {
    hide Parse, LegalName, Encode, B64ToHex, NewAddress, TunnelAdd, TunnelRemove, Appended;
  }

  /** A blank line, the header with the name behind the mark, the key and the one address. */
  function WithPeer(content: string, name: string, key: string, ip: string): string {
    content + "\n[Peer]  # " + name + "\nPublicKey = " + key + "\nAllowedIPs = " + ip + "/32\n"
  }

  lemma AppendedText(content: string, name: string, key: string, ip: string)
    ensures Appended(content, name, key, ip) == WithPeer(content, name, key, ip)
  {
    hide PeerText;
    PeerTextPieces(name, key, ip);
    assert content + ("\n[Peer]  # " + name + "\nPublicKey = " + key + "\nAllowedIPs = " + ip + "/32\n") ==
           content + "\n[Peer]  # " + name + "\nPublicKey = " + key + "\nAllowedIPs = " + ip + "/32\n";
  }

  lemma LinePieces(nl: string, key: string, value: string, rest: string)
    ensures nl + (key + value + nl + rest) == (nl + key) + value + (nl + rest)
  {
  }

  lemma FlatPieces(a: string, b: string, c: string, d: string, e: string, f: string, g: string)
    ensures a + b + (c + d + (e + f + g)) == a + b + c + d + e + f + g
  {
  }

  lemma PeerTextPieces(name: string, key: string, ip: string)
    ensures PeerText(name, key, ip) == "\n[Peer]  # " + name + "\nPublicKey = " + key + "\nAllowedIPs = " + ip + "/32\n"
  {
    var h, k, a := "[Peer]  # ", "PublicKey" + " = ", "AllowedIPs" + " = ";
    var last := a + (ip + "/32") + "\n";
    assert "\n" + h == "\n[Peer]  # " && "\n" + k == "\nPublicKey = " && "\n" + a == "\nAllowedIPs = ";
    assert "/32" + "\n" == "/32\n";
    assert PeerText(name, key, ip) == "\n" + (h + name + "\n" + (k + key + "\n" + last));
    PeerTextOf(h, name, k, key, a, ip, "/32", "\n");
  }

  lemma PeerTextOf(h: string, name: string, k: string, key: string, a: string, ip: string, mask: string, nl: string)
    ensures nl + (h + name + nl + (k + key + nl + (a + (ip + mask) + nl))) ==
            (nl + h) + name + (nl + k) + key + (nl + a) + ip + (mask + nl)
  {
    var last := a + (ip + mask) + nl;
    LinePieces(nl, h, name, k + key + nl + last);
    LinePieces(nl, k, key, last);
    assert nl + last == (nl + a) + ip + (mask + nl);
    FlatPieces(nl + h, name, nl + k, key, nl + a, ip, mask + nl);
  }

  /** The device with one more peer, or the peer it knows, and one more address of that peer's own. */
  function DevicePlus(dev: Uapi.Device, hex: string, octet: nat): Uapi.Device {
    dev.(peers := if hex in dev.peers then dev.peers else dev.peers[hex := Uapi.DevicePeer("", "", 0)],
         routes := dev.routes[Net4(((10 * 256 + 100) * 256 + 0) * 256 + octet, 32) := hex])
  }

  /** The device without a peer and without its addresses. */
  ghost predicate DeviceMinus(dev: Uapi.Device, hex: string, left: Uapi.Device) {
    && left.privateKey == dev.privateKey && left.listenPort == dev.listenPort
    && (forall h :: h in left.peers <==> h in dev.peers && h != hex)
    && (forall h :: h in left.peers ==> left.peers[h] == dev.peers[h])
    && (forall net :: net in left.routes <==> net in dev.routes && dev.routes[net] != hex)
    && (forall net :: net in left.routes ==> left.routes[net] == dev.routes[net])
  }

  lemma DropIsMinus(dev: Uapi.Device, hex: string)
    ensures DeviceMinus(dev, hex, Uapi.DropPeer(dev, hex))
  {
  }

  /** A call that gets as far as the device: a legal name, a file that parses and has room, and a key. */
  ghost predicate ReachesDevice(st: Store, name: string, faults: Faults) {
    && 1 <= |name| <= 64 && (forall c :: c in name ==> c in NAME_CHARS)
    && !faults.read && !faults.keygen
    && Parse(st.conf).Ok? && |Parse(st.conf).value.peers| < 10
  }

  lemma ReachesCommit(st: Store, name: string, key: seq<byte>, faults: Faults)
    requires ReachesDevice(st, name, faults)
    ensures LegalName(name) && Parse(st.conf).Ok? && |Parse(st.conf).value.peers| < 10
    ensures AddStep(st, name, key, faults) == Commit(st, Parse(st.conf).value, name, Encode(key), faults)
  {
    hide Parse, LegalName, Encode, Commit;
    LegalNameMeaning(name);
  }

  /** A running device takes every generated key and address. */
  lemma DeviceTakesIt(dev: Uapi.Device, cfg: Config, key: seq<byte>)
    requires |key| == 32
    ensures LiveAdd(dev, Encode(key), NewAddress(cfg) + "/32") == Some(DevicePlus(dev, ToHex(key), NewOctet(cfg)))
    ensures LiveRemove(DevicePlus(dev, ToHex(key), NewOctet(cfg)), Encode(key)) ==
            Some(Uapi.DropPeer(DevicePlus(dev, ToHex(key), NewOctet(cfg)), ToHex(key)))
  {
    hide Encode, ToHex, LiveAdd, LiveRemove, HasBreak, B64ToHex, ReadPrefix, LastOctet, NewAddress, PlainValue,
         NewOctet, Uapi.DropPeer;
    KeyIsPlain(key);
    GeneratedKeyAccepted(key);
    NewAddressReads(cfg);
    LiveAddMeaning(dev, Encode(key), NewAddress(cfg) + "/32");
    LiveRemoveMeaning(DevicePlus(dev, ToHex(key), NewOctet(cfg)), Encode(key));
  }

  /** A stopped tunnel refuses, and so does a failing device; nothing is changed then. */
  lemma AddStopped(st: Store, name: string, key: seq<byte>, faults: Faults)
    requires ReachesDevice(st, name, faults) && |key| == 32
    ensures AddStep(st, name, key, faults).1 == Err(LiveFailed) <==>
            st.live.Stopped? || (st.live.Running? && faults.liveAdd)
    ensures AddStep(st, name, key, faults).1 == Err(LiveFailed) ==> AddStep(st, name, key, faults).0 == st
  {
    hide Parse, LegalName, Encode, ToHex, B64ToHex, NewAddress, Appended, AddStep, LiveAdd, TunnelRemove, DevicePlus,
         ReachesDevice;
    ReachesCommit(st, name, key, faults);
    if st.live.Running? {
      DeviceTakesIt(st.live.device, Parse(st.conf).value, key);
    }
  }

  /** From the device on: the peer is there; the file gains its text, or the device loses the peer again. */
  lemma AddCommits(st: Store, name: string, key: seq<byte>, faults: Faults)
    requires ReachesDevice(st, name, faults) && |key| == 32
    requires st.live.Absent? || (st.live.Running? && !faults.liveAdd)
    ensures var cfg := Parse(st.conf).value;
            var ip := "10.100.0." + Decimal.FormatNat(NewOctet(cfg));
            var (next, r) := AddStep(st, name, key, faults);
            (st.live.Absent? ==> next.live.Absent?) &&
            (st.live.Running? ==>
               var with := DevicePlus(st.live.device, ToHex(key), NewOctet(cfg));
               next.live.Running? &&
               if faults.append && !faults.rollback then DeviceMinus(with, ToHex(key), next.live.device)
               else next.live.device == with) &&
            if faults.append then r == Err(WriteFailed) && next.conf == st.conf
            else
              next.conf == WithPeer(st.conf, name, Encode(key), ip) &&
              r == if B64ToHex(cfg.iface.privateKey).None? then Err(NoServerKey)
                   else Ok(PeerInfo(|cfg.peers| + 1, name, Encode(key), ip))
  {
    hide Parse, LegalName, Encode, ToHex, B64ToHex, NewAddress, Appended, AddStep, LiveAdd, LiveRemove, DevicePlus,
         WithPeer, DeviceMinus, ReachesDevice, Decimal.FormatNat, NewOctet, ListsOctet, Uapi.DropPeer;
    ReachesCommit(st, name, key, faults);
    var cfg := Parse(st.conf).value;
    OctetMeaning(cfg);
    AppendedText(st.conf, name, Encode(key), NewAddress(cfg));
    if st.live.Running? {
      var with := DevicePlus(st.live.device, ToHex(key), NewOctet(cfg));
      DeviceTakesIt(st.live.device, cfg, key);
      DropIsMinus(with, ToHex(key));
    }
  }

  /**
   * On the device a start from a healthy file brings up, with fewer than ten peers, every name of the alphabet with a
   * key that is not there yet is added when no step fails: the call answers the number behind the last one, and the
   * file then holds the old peers and that one behind them.
   */
  lemma EveryNameIsAdded(content: string, dev: Uapi.Device, name: string, key: seq<byte>)
    requires Healthy(content) && Restart(content) == Some(dev) && |Parse(content).value.peers| < 10
    requires 1 <= |name| <= 64 && (forall c :: c in name ==> c in NAME_CHARS)
    requires |key| == 32 && ToHex(key) !in dev.peers
    ensures var cfg := Parse(content).value;
            var ip := "10.100.0." + Decimal.FormatNat(NewOctet(cfg));
            var (next, r) := AddStep(Store(content, Running(dev)), name, key, NO_FAULTS);
            r == Ok(PeerInfo(|cfg.peers| + 1, name, Encode(key), ip)) &&
            next.live == Running(DevicePlus(dev, ToHex(key), NewOctet(cfg))) &&
            Parse(next.conf) ==
            Ok(Config(cfg.iface, cfg.peers + [PeerConfig(Encode(key), [ip + "/32"], "", 0, "")]))
  {
    hide Parse, Encode, ToHex, B64ToHex, AddStep, DevicePlus, Healthy, Decimal.FormatNat, NewOctet, Restart, Keys,
         DeviceMinus, WithPeer;
    var st := Store(content, Running(dev));
    StartedFrom(content, dev);
    AddedParses(content, name, key);
    AddCommits(st, name, key, NO_FAULTS);
  }

  lemma AddedParses(content: string, name: string, key: seq<byte>)
    requires Healthy(content) && |Parse(content).value.peers| < 10
    requires 1 <= |name| <= 64 && (forall c :: c in name ==> c in NAME_CHARS)
    requires |key| == 32 && ToHex(key) !in Keys(Parse(content).value.peers)
    ensures var cfg := Parse(content).value;
            var ip := "10.100.0." + Decimal.FormatNat(NewOctet(cfg));
            Parse(WithPeer(content, name, Encode(key), ip)) ==
            Ok(Config(cfg.iface, cfg.peers + [PeerConfig(Encode(key), [ip + "/32"], "", 0, "")]))
  {
    hide WF, Parse, Sound, LegalName, Encode, ToHex, NewAddress, Appended, WithPeer, Decimal.FormatNat, NewOctet,
         ListsOctet, Listed, NewNet, Keys;
    var cfg := Parse(content).value;
    LegalNameMeaning(name);
    OctetMeaning(cfg);
    AppendedText(content, name, Encode(key), NewAddress(cfg));
    HealthyAdd(content, name, key);
  }

  lemma StartedFrom(content: string, dev: Uapi.Device)
    requires Healthy(content) && Restart(content) == Some(dev)
    ensures Parse(content).Ok? && Keys(Parse(content).value.peers) == dev.peers.Keys
    ensures B64ToHex(Parse(content).value.iface.privateKey).Some?
  {
    hide WF, Parse, B64ToHex, ConfigureAll, Restart, DeviceFor, Keys, PeerSettings, Sound;
    RestartMeaning(content);
    HealthyIsBootable(content);
  }

  // ---- removing ----

  function CountMarks(lines: seq<string>): nat {
    if lines == [] then 0 else (if IsPeerMark(lines[0]) then 1 else 0) + CountMarks(lines[1..])
  }

  lemma {:induction false} CountMarksConcat(a: seq<string>, b: seq<string>)
    ensures CountMarks(a + b) == CountMarks(a) + CountMarks(b)
  {
    hide IsPeerMark;
    if a == [] {
      assert a + b == b;
    } else {
      CountMarksConcat(a[1..], b);
      assert (a + b)[1..] == a[1..] + b;
    }
  }

  lemma {:induction false} NoMarks(lines: seq<string>)
    requires forall i :: 0 <= i < |lines| ==> !IsPeerMark(lines[i])
    ensures CountMarks(lines) == 0
  {
    hide IsPeerMark;
    if lines != [] {
      NoMarks(lines[1..]);
    }
  }

  /** Behind the first line every block has one mark, but the first block. */
  lemma {:induction false} MarksOfBlocks(blocks: seq<seq<string>>)
    requires blocks != [] && Shaped(IsPeerMark, blocks)
    ensures Flatten(blocks) != [] && CountMarks(Flatten(blocks)[1..]) == |blocks| - 1
  {
    hide IsPeerMark, Flatten;
    var head, rest := blocks[0], blocks[1..];
    assert blocks == [head] + rest;
    FlattenCons(head, rest);
    assert (head + Flatten(rest))[1..] == head[1..] + Flatten(rest);
    CountMarksConcat(head[1..], Flatten(rest));
    NoMarks(head[1..]);
    if rest == [] {
      FlattenNil<string>();
    } else {
      MarksOfBlocks(rest);
      var more := Flatten(rest);
      assert more[0] == rest[0][0] by {
        FlattenCons(rest[0], rest[1..]);
        assert rest == [rest[0]] + rest[1..];
      }
      assert CountMarks(more) == 1 + CountMarks(more[1..]);
    }
  }

  /** A run of lines from one mark to the next, with `i` marks before it that are not on the first line. */
  ghost predicate IsSection(lines: seq<string>, i: nat, a: seq<string>, section: seq<string>, b: seq<string>) {
    && lines == a + section + b
    && a != [] && CountMarks(a[1..]) == i
    && section != [] && IsPeerMark(section[0])
    && (forall j :: 1 <= j < |section| ==> !IsPeerMark(section[j]))
    && (b == [] || IsPeerMark(b[0]))
  }

  /** The text without the `i`-th such run. */
  ghost predicate LeavesOut(content: string, i: nat, text: string) {
    exists a, section, b :: IsSection(Split(content, '\n'), i, a, section, b) && text == Unlines(a + b)
  }

  /** The rewrite leaves out exactly the section of that number, and fails exactly if there is none. */
  lemma RewriteMeaning(content: string, i: nat)
    ensures WithoutBlock(content, i).None? <==> CountMarks(Split(content, '\n')[1..]) <= i
    ensures WithoutBlock(content, i).Some? ==> LeavesOut(content, i, WithoutBlock(content, i).value)
  {
    hide IsPeerMark, Split, IsSection, Texts, Concat, Unlines, Flatten;
    var lines, blocks := Split(content, '\n'), BlocksOf(content);
    CutShape(IsPeerMark, lines);
    MarksOfBlocks(blocks);
    if i + 1 < |blocks| {
      SectionOf(blocks, i);
      var front, back := blocks[..i + 1], blocks[i + 2..];
      assert DropAt(blocks, i + 1) == front + back;
      ConcatTexts(front + back);
      FlattenConcat(front, back);
    }
  }

  lemma SectionOf(blocks: seq<seq<string>>, i: nat)
    requires Shaped(IsPeerMark, blocks) && i + 1 < |blocks|
    ensures IsSection(Flatten(blocks), i, Flatten(blocks[..i + 1]), blocks[i + 1], Flatten(blocks[i + 2..]))
  {
    hide IsPeerMark, Flatten, CountMarks, Shaped;
    var front, back := blocks[..i + 1], blocks[i + 2..];
    ShapedParts(blocks, i, blocks[i + 1]);
    MarksOfBlocks(front);
    AroundBlock(blocks, i);
    StartsMarked(back);
  }

  lemma ShapedParts(blocks: seq<seq<string>>, i: nat, section: seq<string>)
    requires Shaped(IsPeerMark, blocks) && i + 1 < |blocks| && section == blocks[i + 1]
    ensures Shaped(IsPeerMark, blocks[..i + 1])
    ensures section != [] && IsPeerMark(section[0]) && forall j :: 1 <= j < |section| ==> !IsPeerMark(section[j])
    ensures blocks[i + 2..] != [] ==> blocks[i + 2..][0] != [] && IsPeerMark(blocks[i + 2..][0][0])
  {
    hide IsPeerMark;
  }

  lemma AroundBlock(blocks: seq<seq<string>>, i: nat)
    requires i + 1 < |blocks|
    ensures Flatten(blocks) == Flatten(blocks[..i + 1]) + blocks[i + 1] + Flatten(blocks[i + 2..])
  {
    hide Flatten;
    var front, section, back := blocks[..i + 1], blocks[i + 1], blocks[i + 2..];
    AroundIndex(blocks, i);
    FlattenConcat(front, [section] + back);
    FlattenCons(section, back);
    Associate(Flatten(front), section, Flatten(back));
  }

  lemma AroundIndex<T>(s: seq<T>, i: nat)
    requires i + 1 < |s|
    ensures s == s[..i + 1] + ([s[i + 1]] + s[i + 2..])
  {
  }

  lemma StartsMarked(blocks: seq<seq<string>>)
    requires blocks != [] ==> blocks[0] != [] && IsPeerMark(blocks[0][0])
    ensures Flatten(blocks) == [] || IsPeerMark(Flatten(blocks)[0])
  {
    hide IsPeerMark;
  }

  /** Which answer a removal gets, and what it leaves of the file. */
  lemma RemoveAnswers(st: Store, index: int, faults: Faults)
    ensures var (next, r) := RemoveStep(st, index, faults);
            var parsed := Parse(st.conf);
            (r == Err(ReadFailed) <==> faults.read) &&
            (forall e :: r == Err(ParseFailed(e)) <==> !faults.read && parsed == Err(e)) &&
            (r == Err(OutOfRange) <==>
               !faults.read && parsed.Ok? && (index < 1 || index > |parsed.value.peers|)) &&
            (r.Err? && BeforeDevice(r.error) ==> next == st)
  {
    hide Parse, TunnelRemove, WithoutBlock;
  }

  /** A removal that gets as far as the device: live revoke first, and only then the file. */
  lemma RemoveCommits(st: Store, index: int, faults: Faults)
    requires !faults.read && Parse(st.conf).Ok? && 1 <= index <= |Parse(st.conf).value.peers|
    ensures var key := Parse(st.conf).value.peers[index - 1].publicKey;
            var (next, r) := RemoveStep(st, index, faults);
            var refused := st.live.Stopped? ||
              (st.live.Running? && (faults.liveRemove || '\n' in key || '\r' in key || B64ToHex(key).None?));
            if refused then r == Err(LiveFailed) && next == st
            else
              (st.live.Absent? ==> next.live.Absent?) &&
              (st.live.Running? ==>
                 next.live.Running? && DeviceMinus(st.live.device, B64ToHex(key).value, next.live.device)) &&
              if faults.rewrite || CountMarks(Split(st.conf, '\n')[1..]) < index then
                r == Err(RewriteFailed) && next.conf == st.conf
              else
                r == Ok(()) && LeavesOut(st.conf, index - 1, next.conf)
  {
    hide Parse, B64ToHex, LiveRemove, WithoutBlock, CountMarks, LeavesOut, DeviceMinus, Uapi.DropPeer, Split;
    var key := Parse(st.conf).value.peers[index - 1].publicKey;
    RewriteMeaning(st.conf, index - 1);
    if st.live.Running? {
      RevokeMeaning(st.live.device, key);
    }
  }

  lemma RevokeMeaning(dev: Uapi.Device, key: string)
    ensures LiveRemove(dev, key).None? <==> '\n' in key || '\r' in key || B64ToHex(key).None?
    ensures LiveRemove(dev, key).Some? ==> DeviceMinus(dev, B64ToHex(key).value, LiveRemove(dev, key).value)
  {
    hide B64ToHex, DeviceMinus, Uapi.DropPeer, Uapi.IpcSet, Uapi.Script;
    if '\n' !in key && '\r' !in key && B64ToHex(key).Some? {
      LiveRemoveMeaning(dev, key);
      DropIsMinus(dev, B64ToHex(key).value);
    }
  }

  // ---- listing ----

  /** `List` fails if the file cannot be read or parsed; a failure to read the names only costs the names. */
  lemma ListAnswers(conf: string, unreadable: bool, namesUnreadable: bool)
    ensures var r := ListResult(conf, unreadable, namesUnreadable);
            (r == Err(ReadFailed) <==> unreadable) &&
            (forall e :: r == Err(ParseFailed(e)) <==> !unreadable && Parse(conf) == Err(e)) &&
            (r.Ok? <==> !unreadable && Parse(conf).Ok?)
  {
    hide Parse, Names, Row;
  }

  /** One row per peer, in order: its number, its key, and the name read for that place or else a numbered one. */
  lemma ListedRow(conf: string, namesUnreadable: bool, i: nat)
    requires Parse(conf).Ok? && i < |Parse(conf).value.peers|
    ensures var rows := ListResult(conf, false, namesUnreadable).value;
            var peer, names := Parse(conf).value.peers[i], Names(Split(conf, '\n'));
            |rows| == |Parse(conf).value.peers| &&
            rows[i].index == i + 1 && rows[i].publicKey == peer.publicKey &&
            rows[i].name == (if !namesUnreadable && i < |names| && names[i] != "" then names[i]
                             else "device-" + Decimal.FormatNat(i + 1)) &&
            if peer.allowedIPs == [] then rows[i].ip == ""
            else
              (peer.allowedIPs[0] == rows[i].ip || peer.allowedIPs[0] == rows[i].ip + "/32") &&
              forall host :: peer.allowedIPs[0] == host + "/32" ==> rows[i].ip == host
  {
    hide Parse, Names, Row, Decimal.FormatNat;
    var names := if namesUnreadable then [] else Names(Split(conf, '\n'));
    RowMeaning(i, Parse(conf).value.peers[i], if i < |names| then names[i] else "");
  }
}
