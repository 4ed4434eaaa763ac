# A model of the continuum relay's stateful core

The relay keeps WireGuard peers in one text file, `wg0.conf`, and on a running device at the same time. Three
hand-written readers look at the file: the configuration parser, a splitter that cuts it into sections so that one
peer can be deleted, and a reader that recovers names from comments. This project models the readers line by line,
the two edits (append a block, cut one out), the device as its text protocol shows it, and the manager that edits file
and device in ordered steps with rollback and failure exits. Around that core it models the permission protocol and
the tool loop that uses it, the per-address lockout, the activity tracker, and the smaller text and byte codecs.

How the parts build on each other:

- `Text`, `Cutting`, `Decimal`, `KeyCodec`: strings, cutting lines into blocks, numbers, base64 and hex.
- `WgConfig`, `Sections`: the three readers, each as a loop against a fold or a recursion.
- `ConfWrite`: every configuration written out, in any layout, and what each line does.
- `ConfSettings`, `ConfFile`, `ConfEdits`, `ConfAppend`: interface settings, blocks and parsing, removal, appending and
  listing.
- `ConfLimits`, `ConfExact`: what goes wrong on texts that are not well-formed, and exactly when nothing does.
- `Prefixes`, `AddressText`, `ColonText`: addresses as the device and the octet scan read them, and exactly which texts
  denote which.
- `Uapi`, `WgServer`, `DeviceText`, `LiveAgreement`: the device, the start-up script, live changes, all of it spelled out,
  and when live changes and a restart agree.
- `Octets`, `Peers`, `PeerState`, `PeerRuns`, `PeerTheorems`: address allocation, the manager, and whole runs with faults.
- `PeerCalls`: which answer each call of the manager gives, and what it leaves behind, for every store.
- `PeerLimits`: what a removal does to file and device on texts that are not well-formed.
- `Install`, `PoolLimits`: the file the installer writes and the run results from there on, and a file with every address
  in it.
- `Permission`, `ChatLoop`, `ToolPermission`: the permission protocol and its broker, the tool loop, and the two together.
- `Auth`, `Detector`, `Jws`, `EnvFile`, `WebProxy`, `Sessions`: the other components.

A text is well-formed when its first line is no peer header, the parser and the other two readers take the same lines
for peer headers, and no interface section follows the first peer. A file is healthy when it is also one a start
accepts, with distinct keys on the device and no network listed by two peers.

Calls outside the model are parameters: a record of which steps fail, the generated key bytes, the clock readings, the
backend, the tools and the URL parser. A failing step changes nothing, and a file write is all or nothing. What an `Add`
relies on is a premise of the run theorems, checked at each `Add`: the generated key is not in use, and the address it
would hand out is not listed yet. The second holds while some octet from 2 to 254 is unused (`PeerState.OpenPoolFresh`),
and so for every file whose peers list at most 28 addresses each (`PeerState.ShortListsLeaveRoom`).

## Where code and comments differ

The model follows the code in each case.

- `rewriteWithout` says its first section is the interface and everything before the first peer. A peer header on the very
  first line stays in that section too, which shifts every index (`ConfLimits.LeadingHeaderShifts`): `Remove` then returns
  nil with one peer revoked and another one deleted (`PeerLimits.LeadingHeaderInstance`).
- The parser accepts blanks inside the brackets of a header, and rejects text behind it; the other two readers do the
  opposite. A peer under `[ Peer ]` goes from the file with the peer before it and stays live
  (`PeerLimits.SpacedHeaderRemove`); a peer behind a line `[Peer] phone` is revoked and stays in the file
  (`PeerLimits.LabelledHeaderRemove`).
- An interface section behind the peers belongs to the last peer's section. Removing that peer returns nil and takes the
  interface out of the file (`PeerLimits.LateInterfaceInstance`).
- `nextAvailableOctet` hands out 254 when nothing is free, as if it were (`Octets.FreeWhileOpen`,
  `PoolLimits.FullPoolAdd`).
- The rollback of a failed `Add` removes the new peer, but not the loss of its address by whoever had it
  (`PeerRuns.RollbackExact`).
- The parser's comment speaks of unquoted `#` signs; the code cuts at the first `#` of any kind.
- A rewrite that is described as removing a peer also adds one newline to the end of the text
  (`ConfAppend.AppendThenRemove`).
- `rewriteLocation` leaves every target that starts with `/proxy/` alone, so a backend's own path of that form is read as
  another port (`WebProxy.RootRelativeRoundTrip`).
- `RemovePeer` on the device equals a restart without the peer only under the condition of
  `LiveAgreement.RemoveAgreement`; a network listed by two peers is lost to the earlier one until the next start.

## Model

| member | source | states |
|---|---|---|
| KeyCodec.DecodeEncode | internal/peers/peers.go:356 | Base64 decoding inverts encoding on every byte sequence (section 4 of RFC 4648). |
| KeyCodec.GeneratedKeyAccepted | internal/wg/server.go:341-350 | A generated key is accepted exactly when it has 32 bytes, and becomes their hex digits. |
| KeyCodec.HexRoundTrip | internal/wg/server.go:349 | Hex digits denote the bytes they were made from (section 8 of RFC 4648). |
| KeyCodec.DistinctKeysStayDistinct | internal/wg/server.go:341-350 | Two generated keys have the same text, or the same device form, only if they are the same key. |
| KeyCodec.LooseTextsCollide | internal/wg/server.go:342 | Every key has four texts, no two the same and only one of them the encoder's, that decode to it, because unused padding bits are ignored; so uniqueness must be stated on the device form. |
| KeyCodec.SextetAlphabet | internal/wg/server.go:342 | The 64 digits are the letters A to Z and a to z, the ten digits, plus and slash, in that order. |
| KeyCodec.GroupMeaning | internal/peers/peers.go:356 | Three bytes and their four digits are the same number, written in that alphabet with the most significant digit first. |
| KeyCodec.DecodedTexts | internal/wg/server.go:342 | The decoder takes exactly the texts of whole groups of four letters of which the last may end in one or two equals signs. |
| KeyCodec.BreaksSkipped | internal/wg/server.go:342 | Newlines and carriage returns in a key text are skipped wherever they stand. |
| KeyCodec.HexMeaning | internal/wg/server.go:349 | Two lower-case hex digits stand for each byte, the high half first. |
| KeyCodec.KeyMeaning | internal/wg/server.go:341-350 | A text is a key exactly if it decodes to 32 bytes, and then becomes 64 hex digits. |
| Decimal.AtoiReads | internal/wg/config.go:153 | Digits, with a sign or without, are read as their value exactly within the range of a 64-bit integer. |
| WgConfig.ParseString | internal/wg/config.go:45-144 | The scanner loop computes the fold over lines, and its final peer-count check can never fire. |
| WgConfig.ApplyPeerKey | internal/wg/config.go:166-191 | The setting loop appends the non-blank entries of a comma list in order, and reports only an unreadable keepalive. |
| ConfWrite.LineMeaning | internal/wg/config.go:62-112 | In any layout, with blanks in the four places where they do not matter and with any comment, a setting line assigns its value to its key and does nothing else. |
| ConfWrite.SettingLayout | internal/wg/config.go:105-112 | Every line with an equals sign that is no header is such a setting line, in some layout. |
| ConfWrite.PeerSettings | internal/wg/config.go:166-188 | In a peer section each of the five keys, in any case, stores its value in its own field; only a keepalive can be refused. |
| ConfWrite.OtherPeerKeys | internal/wg/config.go:188 | A key that is none of the five changes nothing. |
| ConfWrite.InterfaceSettings | internal/wg/config.go:146-160 | In an interface section the private key and the address are stored, and the port exactly if it is a number from 1 to 65535. |
| ConfWrite.OtherInterfaceKeys | internal/wg/config.go:161 | A key that is none of the three changes nothing. |
| ConfWrite.HeadersExactly | internal/wg/config.go:74-75 | A line is a header of a name if and only if it is the bracketed name in some layout and some case. |
| ConfWrite.HeadersMean | internal/wg/config.go:76-101 | A peer header starts an empty peer, unless it would be the 101st; an interface header and any other one end the peer before them. |
| ConfWrite.ConfigRoundTrip | internal/wg/config.go:45-144 | A text that writes out an interface and up to a hundred peers, one setting a line, in any layout and any case of the keys, parses to exactly that configuration. |
| ConfWrite.WrittenParses | internal/wg/config.go:45-144 | Every configuration of plain values with a port from 1 to 65535 and 64-bit keepalives has a text that parses to it. |
| WgConfig.StepInvariant | internal/wg/config.go:62-127 | Every line keeps "a peer is pending exactly inside a peer section, at most 100 in all"; only a header adds a peer. |
| WgConfig.ParserStateInvariant | internal/wg/config.go:48-141 | At every prefix the invariant holds; success means as many peers as peer headers; more than 100 headers always fail. |
| Sections.SplitSections | internal/peers/peers.go:360-380 | The builder loop returns the text of each block of the cut, and the pieces join to the content plus one newline on every input. |
| Cutting.CutShape | internal/peers/peers.go:366-378 | A cut loses no line, and a marked line starts every block but the first and stands nowhere else. |
| Cutting.CutUnique | internal/peers/peers.go:366-378 | Blocks of that shape are the only cut of their lines. |
| Sections.ReadPeerNames | internal/peers/peers.go:390-415 | The name loop returns, in order, the comment of every line that starts with the peer mark. |
| Sections.NamesOfBlocks | internal/peers/peers.go:397-413 | Only the first line of a block can carry a name. |
| Sections.PeerMarkMeaning | internal/peers/peers.go:368 | A line starts a section if and only if it is blanks, then `[peer]` in some case, then anything. |
| Sections.NameMeaning | internal/peers/peers.go:406-411 | The name of a section is what follows the first `#` behind the mark, without the blanks around it. |
| Sections.NoNameMeaning | internal/peers/peers.go:406-411 | A mark without a comment has the empty name. |
| ConfFile.ParseSplit | internal/wg/config.go:55-60 | The scanner's lines and the splitter's lines of a text denote the same configuration. |
| ConfSettings.RunPatches | internal/wg/config.go:146-165 | Reading any lines changes the interface by exactly the last value of each setting made inside interface sections, wherever these stand. |
| ConfFile.RebaseRun | internal/wg/config.go:58-128 | On any lines the parser acts independently of the interface settings and of the peers in front of them: it fails in the same places, but for the limit, and finds the same peers and settings. |
| ConfFile.RunSection | internal/wg/config.go:77-128 | Lines that start with their only peer header add exactly their own peer and patch the interface by what they set. |
| ConfFile.RunBlocks | internal/wg/config.go:84-93 | A run of peer blocks appends exactly their peers in order, and succeeds exactly if each block does and the limit holds. |
| ConfEdits.WFIsBlocks | internal/peers/peers.go:302-303 | The three line-level well-formedness clauses hold exactly if the first block is a preamble and every other one a peer block. |
| ConfEdits.RemovalCommutes | internal/peers/peers.go:292-320 | Cutting block i out of a well-formed text and parsing gives the same interface and the peers without element i; the text stays well-formed. |
| ConfLimits.HeadShifts | internal/peers/peers.go:302-310 | With h peers in the first section and peer blocks behind it, removing peer i takes out peer i + h, and the last h peers cannot be removed. |
| ConfLimits.LeadingHeaderShifts | internal/peers/peers.go:368 | With a peer header on the first line and the interface behind it in the same section, or nowhere, removing a peer takes out its successor instead, and the last peer cannot be removed. |
| ConfExact.RemovalExactAnywhere | internal/peers/peers.go:302-310 | On any text that parses, removal of every peer is right if and only if each section it can name holds exactly one header the parser accepts, the lines in front of that header say the same to the peer before as the lines in front of the next one, and the interface settings that go are made again later or were in force anyway. |
| ConfExact.HeadExact | internal/peers/peers.go:302-310 | When every section behind the first starts with its only header, removal is right if and only if the parser finds no peer in the first section and every interface setting behind it is made again in a later section or repeats the value in force. |
| ConfExact.RemovalExact | internal/peers/peers.go:302-310 | When the readers agree, removal of every peer is right if and only if the first line is no header and every interface setting behind the first section is made again in a later section or repeats the value in force. |
| ConfExact.StrayAddressLost | internal/peers/peers.go:304-310 | With an address between a mark the parser rejects and the section's own header, every section holds one header, and removing the peer of that section takes the address off the peer before it. |
| ConfLimits.RemovalCountExact | internal/peers/peers.go:304-310 | On any text, every removal takes out exactly one parsed header if and only if each block it can name holds exactly one. |
| ConfLimits.SpacedHeaderVanishes | internal/wg/config.go:74-75 | A peer under a header the parser alone accepts cannot be removed by its own number, and vanishes from the file with the ordinary peer before it. |
| ConfLimits.HeaderlessSectionKeepsPeers | internal/peers/peers.go:304-310 | Removing the number of a section without a header the parser accepts leaves every parsed peer in the file. |
| ConfLimits.LabelledPeerStays | internal/peers/peers.go:368 | A line such as `[Peer] phone` before a peer is a section of its own: removing that peer gives a text that still parses to the same configuration. |
| PeerLimits.LeadingHeaderRemove | internal/peers/peers.go:236-252 | On file and device: with a leading header a removal returns nil, revokes one peer and deletes the next one from the file; of the last peer it fails after revoking. |
| PeerLimits.LeadingHeaderInstance | internal/peers/peers.go:236-256 | For any three keys, a two-peer file a relay starts from: removing peer 1 returns nil, the file keeps exactly that peer, and the device exactly the other. |
| PeerLimits.SpacedHeaderRemove | internal/peers/peers.go:236-252 | On file and device: with a spaced header behind n peers, removing peer n deletes two peers from the file and revokes one; removing peer n + 1 fails after revoking. |
| PeerLimits.LabelledHeaderRemove | internal/peers/peers.go:236-256 | On file and device: with a labelled mark before a peer, removing that peer returns nil and revokes it, and the file still lists it. |
| ConfLimits.LateInterfaceLost | internal/wg/config.go:77-83 | A key set in an interface section after the peers is in force; removing the last peer brings back the key in force before, so that removal is right if and only if the two are the same. |
| PeerLimits.LateInterfaceRemove | internal/peers/peers.go:236-256 | On file and device: with the only interface section behind n peers, removing peer n returns nil, revokes it, and leaves a file no relay starts from. |
| PeerLimits.LateInterfaceInstance | internal/peers/peers.go:236-256 | For any two keys, a file a relay starts from: after removing peer 1 has returned nil it does not start again. |
| ConfAppend.HeaderLine | internal/peers/peers.go:287 | The header line written for a name is a header to all readers and reads back as that name. |
| ConfAppend.LegalNameMeaning | internal/peers/peers.go:25 | A name is legal if and only if it has 1 to 64 characters, each of them one of the 64 letters, digits, underscore and hyphen. |
| ConfAppend.NewBlock | internal/peers/peers.go:287 | The appended block is a peer block for exactly the written key and address. |
| ConfAppend.AppendParses | internal/peers/peers.go:280-290 | Any text that parses with room left gains exactly the new peer, well-formed or not. |
| ConfAppend.AppendBlocks | internal/peers/peers.go:280-290 | A well-formed text stays well-formed and gains one block at the end. |
| ConfAppend.AppendThenRemove | internal/peers/peers.go:280-320 | Removing the peer just appended restores the text byte for byte, plus one newline. |
| Peers.Manager.List | internal/peers/peers.go:81-117 | The listing loop pairs the parsed peers with the names of a second read, or with numbered names when that read fails, and strips `/32`. |
| PeerCalls.ListAnswers | internal/peers/peers.go:81-94 | Listing fails exactly if the file cannot be read or parsed. |
| PeerCalls.ListedRow | internal/peers/peers.go:96-115 | Row i holds number i + 1, the key of peer i, the name read for that place or else `device-` and the number, and the first address without `/32`. |
| Peers.UnnamedListing | internal/peers/peers.go:94-108 | When the second read fails the rows are the same but for their names, which are all numbered. |
| ConfAppend.ReadersPair | internal/peers/peers.go:81-117 | As many peers as names as blocks behind the first, and row i shows the name and key of block i. |
| ConfAppend.AppendLists | internal/peers/peers.go:94-114 | A peer just added is listed last under its name, key and address; the rows before it are unchanged. |
| Prefixes.HostOctet | internal/peers/peers.go:262-269 | A text the device reads as one IPv4 host is one whose last octet the octet scan sees, however it is written. |
| Prefixes.HostBitsIgnored | internal/wg/server.go:288-291 | Under one prefix length two addresses are the same network to the device if and only if they agree above the host bits. |
| AddressText.DottedExactly | internal/peers/peers.go:262 | A dotted text denotes an address if and only if it is four numbers up to 255 without leading zeros, the first the most significant. |
| ColonText.ColonsExactly | internal/wg/server.go:288-291 | A colon text denotes a number if and only if it is eight 16-bit groups, the last two perhaps as a dotted address, or fewer with one double colon for the missing zeros (section 2.2 of RFC 4291). |
| ColonText.ZonedExactly | internal/wg/server.go:288-291 | An IPv6 address is such a text, alone or with a percent sign and a non-empty zone behind it, and nothing else is. |
| AddressText.PrefixReads | internal/wg/server.go:288-291 | An address without a zone and a prefix length up to its width denote the network of that address with its host bits cleared. |
| AddressText.PrefixExactly | internal/wg/server.go:288-291 | Nothing else is a network to the device. |
| AddressText.MaskedMeaning | internal/wg/server.go:288-291 | Clearing the host bits rounds the address down to a multiple of their range. |
| AddressText.DottedOctet | internal/peers/peers.go:262-269 | The octet scan sees the last number of a dotted address exactly if the mask is a number up to 32, leading zeros or not. |
| AddressText.MappedOctet | internal/peers/peers.go:262-269 | Of a colon address it sees the last octet exactly if the address is IPv4-mapped and the mask is a number up to 128. |
| AddressText.EndpointExactly | internal/wg/server.go:292-294 | An endpoint is a dotted address, or an IPv6 address in brackets, with a port up to 65535 behind the last colon; nothing else is. |
| Uapi.ReadPrint | internal/wg/server.go:208 | Reading a printed protocol command gives that command, or an error exactly when the device does not accept it: a malformed key, an unreadable address or endpoint, a number out of range. |
| Uapi.ScriptMeaning | internal/wg/server.go:208-209 | What the device makes of a printed script is what its commands mean one after another. |
| WgServer.BuildUAPIConfig | internal/wg/server.go:242-302 | The builder loops produce the script of the configuration's commands, or nothing when a field is broken or a key does not decode. |
| WgServer.WritePeer | internal/wg/server.go:275-298 | The lines of one peer: key, preshared key, replacement, addresses, endpoint, keepalive, each only when set. |
| DeviceText.StartTextMeaning | internal/wg/server.go:262-301 | The start-up text, spelled out line by line: private key, port if set, and for each peer its key, preshared key if set, replacement, addresses, endpoint and keepalive if set, and a final blank line. |
| DeviceText.LiveAddText | internal/wg/server.go:208 | The text of a live add, spelled out. |
| DeviceText.LiveRemoveText | internal/wg/server.go:229 | The text of a live removal, spelled out. |
| WgServer.ExecutePeer | internal/wg/server.go:275-298 | Those lines store the peer's settings and move its networks to it, unless an address or the endpoint is unreadable or the keepalive does not fit the protocol. |
| WgServer.BootMeaning | internal/wg/server.go:38-49 | The construction checks and the configuration script of a start succeed exactly for an interface with key and address and usable peers (keys decode, addresses and endpoints can be read, numbers fit), and configure the peers in order on a bare device. |
| DeviceText.StartExactly | internal/wg/server.go:38-49 | A start from a parsed file succeeds if and only if every key has 32 bytes, the interface has an address, no field holds a newline or carriage return, every address and endpoint can be read, and no keepalive is above 65535. |
| DeviceText.StartedPeers | internal/wg/server.go:242-302 | The device then has the file's own key and port, and exactly the file's peers, each with its preshared key, endpoint and keepalive. |
| DeviceText.StartedRoutes | internal/wg/server.go:288-291 | And each network goes to the last peer that lists it. |
| WgServer.LiveAddMeaning | internal/wg/server.go:194-210 | A live add keeps a known peer's settings and gives it one more network, taken from whoever had it; an unreadable address is refused. |
| WgServer.LiveRemoveMeaning | internal/wg/server.go:218-231 | A live removal takes the peer and its addresses off the device, known or not. |
| DeviceText.LiveAddExactly | internal/wg/server.go:194-210 | A live add succeeds if and only if the key has 32 bytes, the address can be read, and neither holds a newline or carriage return. |
| DeviceText.LiveRemoveExactly | internal/wg/server.go:218-231 | A live removal succeeds if and only if the key has 32 bytes and holds no newline or carriage return. |
| WgServer.Server.AddPeer | internal/wg/server.go:194-210 | The method fails on a stopped device, a broken field or a bad key, and otherwise does the live add. |
| WgServer.Server.RemovePeer | internal/wg/server.go:218-231 | The method fails on a stopped device, a broken field or a bad key, and otherwise does the live removal. |
| LiveAgreement.ConfiguredDevice | internal/wg/server.go:275-298 | A freshly configured device holds each peer's settings, and each network at the last peer that lists it, in whatever notation. |
| LiveAgreement.RemoveAgreement | internal/wg/server.go:212-231 | Live removal equals a restart without the peer if and only if every network shared with an earlier peer, host bits aside, is listed again by a later one. |
| LiveAgreement.AddAgreement | internal/wg/server.go:188-210 | A live add of a fresh key equals configuring that peer after the others, and is refused exactly if its address cannot be read. |
| Octets.NextAvailableOctet | internal/peers/peers.go:258-278 | The two loops return the choice over all well-formed addresses, IPv6-mapped ones included, and the server's own octet. |
| Octets.ChosenIsNext | internal/peers/peers.go:272-277 | The choice is exactly the octet from 2 to 254 below which all are taken and which is itself free, or 254 when every one is taken. |
| Octets.FreeWhileOpen | internal/peers/peers.go:272-277 | The octet handed out is free if and only if some octet from 2 to 254 is; otherwise it is 254 again, which somebody has. |
| Octets.OctetBound | internal/peers/peers.go:258-278 | With n listed addresses, n at most 252, some octet is free and the one handed out lies between 2 and n+2. |
| Octets.OctetOfAddress | internal/peers/peers.go:147-148 | The address handed out for an octet reads back as that octet, and is a single host to the device. |
| Peers.Manager.Add | internal/peers/peers.go:125-213 | The method performs the ordered steps on device and file with every failure exit, including rollback and the exit after the commit. |
| Peers.Manager.Remove | internal/peers/peers.go:221-256 | The method revokes live first and touches the file only then. |
| PeerCalls.NamesRefused | internal/peers/peers.go:129-135 | `Add` answers that the name is invalid if and only if it is empty, longer than 64, or has a character outside the alphabet written out; nothing is changed then. |
| PeerCalls.AddRefusals | internal/peers/peers.go:137-154 | For every other name: which of the answers before the device is touched occurs when, the limit of ten peers included, and that they change nothing. |
| PeerCalls.AddStopped | internal/peers/peers.go:158-160 | Past these, the live update fails if and only if the tunnel is stopped or the device fails, and nothing is changed then. |
| PeerCalls.AddCommits | internal/peers/peers.go:156-213 | Past that, the device has the new peer with its one address; the file gains the text written out, or, if writing fails, the device loses the peer again; the answer is number n + 1, name, key and address, unless the server's key does not decode. |
| PeerCalls.EveryNameIsAdded | internal/peers/peers.go:125-213 | On the device a start from a healthy file brings up, with fewer than ten peers, every name of the alphabet with a key not in use is added as number n + 1 when no step fails, and the file then parses to the old peers and that one. |
| PeerCalls.OctetMeaning | internal/peers/peers.go:258-278 | The address handed out is `10.100.0.` and the least octet from 2 on that no listed address ends in, or 254. |
| PeerCalls.RemoveAnswers | internal/peers/peers.go:225-232 | Which answers a removal gives before the device is touched, and that they change nothing. |
| PeerCalls.RemoveCommits | internal/peers/peers.go:234-256 | Past these, exactly when the revocation fails; otherwise the device loses exactly that peer and its networks, and the file exactly the lines of that section, or nothing if the rewrite fails. |
| PeerCalls.RewriteMeaning | internal/peers/peers.go:292-320 | The rewrite leaves out the run of lines from the mark of that number to the next mark, and fails if and only if there are not that many marks behind the first line. |
| Peers.Manager.RewriteWithout | internal/peers/peers.go:292-320 | The rewrite is all or nothing, and writes the sections without the named one. |
| PeerState.NewOctetApart | internal/peers/peers.go:142-148 | The octet given to a new peer is nobody else's if and only if some octet from 2 to 254 was unused. |
| PeerState.PoolRunsOut | internal/peers/peers.go:272-278 | A configuration whose one peer lists all 253 addresses: the next peer is given the address of octet 254 a second time. |
| PoolLimits.FullParses | internal/wg/config.go:166-191 | A text of that configuration: the installed file with a line for each of the other addresses is well-formed and parses to it. |
| PoolLimits.FullPoolAdd | internal/peers/peers.go:125-213 | From that file, on the device it starts: an add without any failure returns the address of octet 254, takes it off the first peer on the device, and lists it for both in the file. |
| PeerState.OpenPoolFresh | internal/peers/peers.go:258-278 | While an octet is unused, the new address is no other peer's network on the device, however the addresses are written. |
| PeerState.ShortListsLeaveRoom | internal/peers/peers.go:119-141 | Below the limit of ten peers, lists of at most 28 addresses each cannot exhaust the octets. |
| PeerState.HealthyAdd | internal/peers/peers.go:125-175 | Adding to a healthy file gives exactly that peer more, and a healthy file if and only if the new address was not listed yet. |
| PeerState.HealthyDrop | internal/peers/peers.go:244-252 | Removing from a healthy file gives a healthy file without exactly that peer. |
| PeerRuns.AddKeepsStep | internal/peers/peers.go:156-175 | Whatever fails in an add, device and file differ only by the recorded failed rollbacks and failed rewrites. |
| PeerRuns.RemoveKeepsStep | internal/peers/peers.go:236-252 | Whatever fails in a removal, device and file differ only by the recorded failed rollbacks and failed rewrites. |
| PeerRuns.RollbackExact | internal/peers/peers.go:162-170 | An add that failed and was rolled back leaves file and device as they were if and only if nobody on the device had the new address; only a peer of an earlier failed rollback can have had it. |
| PeerRuns.BalancedIsRestart | internal/peers/peers.go:119-124 | With nothing recorded, the live device is exactly the one a restart from the file would bring up. |
| PeerTheorems.RunsStayInStep | internal/peers/peers.go:125-256 | The same over every run of adds and removals, with any step of any call failing. |
| PeerTheorems.LiveRefinesRestart | internal/peers/peers.go:125-256 | From a device built from the file, over every run without a failed rollback or rewrite, live device and restarted device are equal. |
| PeerTheorems.RemovedMeansGone | internal/peers/peers.go:254-255 | A removal that returns nil leaves the peer neither live nor in the file. |
| PeerTheorems.FailedRemoveKeepsFile | internal/peers/peers.go:236-252 | No failing removal changes the file, and only a failed rewrite changes anything. |
| PeerTheorems.RetryRestores | internal/peers/peers.go:221-256 | From any ledger, retrying a failed removal until it returns nil settles that peer and nothing else; with nothing else recorded that is full agreement. |
| PeerTheorems.NoLateFailure | internal/peers/peers.go:177-181 | The failure after the commit cannot happen while the device runs from the file's own server key. |
| PeerTheorems.AddApartExact | internal/peers/peers.go:125-175 | Whether the device runs, is stopped or is absent: an add that writes the file keeps the octets apart if and only if there was one left. |
| PeerTheorems.AddressesStayApart | internal/peers/peers.go:142-148 | Over every run, whatever fails and whether or not there is a device, no two peers of the file share a last octet and none has the server's, while octets last. |
| Install.InstalledParses | install.sh:298-308 | For all keys, the file the installer writes is well-formed and parses to its interface and its one peer. |
| Install.InstalledLines | install.sh:298-308 | The installed file, spelled out line by line. |
| Install.InstalledIsHealthy | install.sh:298-308 | For all keys, that file is healthy and its peer has an octet of its own. |
| Install.InstalledListing | internal/peers/peers.go:94-108 | The installed peer is listed as `device-1` by the numbered default, since its comment stands on a line of its own. |
| Install.InstalledRuns | internal/peers/peers.go:125-256 | From an installation, over every run with keys of their own and any failing steps: the ledger accounts for every difference, addresses stay apart, and without a failed rollback or rewrite a restart gives exactly the live device. |
| Permission.PermissionBroker.RegisterPending | internal/relay/permission.go:36-42 | A fresh empty channel is entered under the id with its owner; for an id not pending this is the protocol's registration step. |
| Permission.PermissionBroker.RemovePending | internal/relay/permission.go:45-49 | Exactly that id leaves the map; for a waiter with its answer this is the protocol's removal step. |
| Permission.PermissionBroker.Find | internal/relay/permission.go:57-62 | The lookup gives the channel exactly for a pending id of the responder's address, and is the protocol's response step. |
| Permission.PermissionBroker.TrySend | internal/relay/permission.go:63-66 | The send never replaces a buffered value, and is the protocol's delivery step for the response that holds the channel. |
| Permission.PermissionBroker.Respond | internal/relay/permission.go:56-68 | Accepted exactly for a pending id of the responder's address; no other channel changes; the call is the two steps one after the other. |
| Permission.PermissionBroker.Await | internal/relay/chat_proxy.go:251-260 | The answer is a heard approval and nothing else; each branch is the protocol's receiving or giving-up step. |
| Permission.GrantMeansOwnerApproved | internal/relay/chat_proxy.go:229-261 | In every interleaving, a waiter is granted exactly if it heard its channel and the first value sent there was an approval, sent from its owner's address for its own id. |
| Permission.PendingIsLiveWaiters | internal/relay/chat_proxy.go:232-233 | In every interleaving, the pending map holds exactly the ids of the waiters that have not left it. |
| Permission.OutcomeIsFinal | internal/relay/chat_proxy.go:253-260 | No later step changes a waiter's answer. |
| Permission.SendNeverBlocks | internal/relay/permission.go:63-66 | After its lookup a responder's send stays possible whatever happens meanwhile, and touches neither the map nor any answer. |
| Permission.WaiterNeverBlocks | internal/relay/chat_proxy.go:251-260 | In every interleaving a waiter without an answer can give up at any time, and can hear one exactly if one was sent. |
| Permission.ForeignResponseRefused | internal/relay/permission.go:57-62 | A response is refused, changing nothing, exactly if no live waiter has that id and that owner. |
| Permission.RegisterExact | internal/relay/permission.go:36-42 | Registering keeps the pending map the exact list of live requests if and only if the id is not pending. |
| Permission.ReusedIdUnregisters | internal/relay/chat_proxy.go:230-233 | If a pending id were registered again, the first waiter's removal would unregister the second. |
| ChatLoop.RunToolLoop | internal/relay/chat_proxy.go:118-188 | The nested loops compute the record of the conversation for every backend, tool and answer; `ChatLoop.CallTexts` says what is in it. |
| ChatLoop.TranscriptShape | internal/relay/chat_proxy.go:120-188 | At most ten rounds; request, then each reply with one tool message per call behind it, in order; exactly which of the three endings occurs. |
| ChatLoop.CallTexts | internal/relay/chat_proxy.go:161-186 | For every run and call, the message and the event of the call hold the answer of the safe tool for `web_search` and `web_fetch`, of the other entry point if the call was granted, and otherwise the denial; an error shows as `error: ` and its text. |
| ChatLoop.NonInterference | internal/relay/chat_proxy.go:161-179 | Two worlds that differ only in what tools would have answered that no call may consult lead to the same conversation, so nothing an ungranted tool returns reaches anybody. |
| ChatLoop.EventsMatchMessages | internal/relay/chat_proxy.go:181-186 | Events and tool messages carry the same texts in the same order. |
| ChatLoop.RanExactly | internal/relay/chat_proxy.go:161-179 | For every run and call: a safe tool runs unasked, any other is asked about and runs if and only if its own question was granted, and nothing else runs. |
| ChatLoop.UnsafeOnlyAfterGrant | internal/relay/chat_proxy.go:165-179 | In the order of effects a dangerous tool runs directly behind its own question and a positive answer to it, and the other entry point serves only safe tools. |
| ToolPermission.PlayIsConversation | internal/relay/chat_proxy.go:229-261 | The loop and the protocol as one system, with any actions of others in between: the conversation is the loop's with the answers its waiters got, and each question is a waiter of its own, registered from the client's address. |
| ToolPermission.EveryConversationIsPlayed | internal/relay/chat_proxy.go:118-261 | And for every backend, every tool and all answers there is a course of the protocol that leads to exactly that conversation. |
| ToolPermission.AskAnswered | internal/relay/chat_proxy.go:229-261 | A question answered from the client's address gets that answer. |
| ToolPermission.AskGivenUp | internal/relay/chat_proxy.go:255-260 | A question nobody answers ends as a denial and leaves nothing pending. |
| ToolPermission.ForeignNotHeard | internal/relay/permission.go:57-62 | A response from another address never becomes the answer. |
| ToolPermission.RunsOnlyIfApproved | internal/relay/chat_proxy.go:165-179 | In that system, for every backend and every interleaving: a dangerous call runs if and only if it heard, in time, as the first value on its own channel an approval sent from the client's address for its own request. |
| ToolPermission.OneResponseOneTool | internal/relay/permission.go:56-68 | Two dangerous calls that run were let through by two different responses. |
| ChatLoop.EachCallAskedOnce | internal/relay/chat_proxy.go:161-187 | The effects follow the calls in order, with at most one question per call. |
| Auth.Authenticator.IsLocked | internal/auth/auth.go:65-80 | The pruning loop stores the recent failures, forgets an address without any, and answers whether there are five. |
| Auth.Authenticator.Validate | internal/auth/auth.go:45-63 | One attempt: refused while locked, recorded on a wrong token, cleared on success. |
| Auth.RunsRefine | internal/auth/auth.go:45-84 | Over every run with a non-decreasing clock, the stored lists agree with the full history within the window and never exceed five. |
| Auth.DecisionIsHistory | internal/auth/auth.go:45-63 | An attempt succeeds exactly if it carries the current token and its address has fewer than five failures since its last success in the last sixty seconds. |
| Auth.DecidedByAttempts | internal/auth/auth.go:45-84 | The same in terms of the attempts alone, with the sixty seconds and the five written out. |
| Auth.TokenIsCurrent | internal/auth/auth.go:86-92 | The token that counts is that of the last rotation, or else the first. |
| Auth.OthersUnaffected | internal/auth/auth.go:65-84 | An attempt changes neither list nor lock of any other address. |
| Auth.LockEndsExactly | internal/auth/auth.go:66-79 | A full list locks until exactly sixty seconds after its oldest entry. |
| Auth.LockoutNotExtended | internal/auth/auth.go:49-52 | Whatever is tried during a lockout, by anybody, the lock keeps its end and the address's attempts are refused. |
| Detector.Tracker.Update | internal/detector/detector.go:66-89 | For every map order the two loops remember exactly the polled sessions, each Working if and only if it was active less than `idleAfter` ago, and list each changed session exactly once. |
| Detector.OrderIrrelevant | internal/detector/detector.go:71-81 | Any two listings of one poll hold the same changes, one per changed session. |
| Detector.ReplayIsClassification | internal/detector/detector.go:55-89 | Replaying the changes and dropping vanished names leaves, after every poll of every run, Working for exactly the sessions whose last activity is less than `idleAfter` ago. |
| Detector.ReportsExactly | internal/detector/detector.go:55-89 | Over every run, a poll reports a session if and only if it was not last seen in the state it is in now, and the report carries that state and the time of its last activity. |
| Detector.ReportsAlternate | internal/detector/detector.go:76-97 | Between disappearances and forgets the states reported for a session strictly alternate. |
| Jws.PackSignature | internal/apns/client.go:261-266 | For r and s below 2^256 the offsets stay in range and the two halves decode big-endian to r and s. |
| Jws.PackingRoundTrip | internal/apns/client.go:261-266 | The offsets are in range exactly below 2^256, and packing loses nothing there (section 3.4 of RFC 7518). |
| Jws.PackedIsUnique | internal/apns/client.go:261-266 | No other 64 bytes read back as the same two numbers. |
| EnvFile.RewriteEnvFile | internal/relay/client.go:247-263 | The loop replaces the first token line, or adds one before a final empty line, or at the end. |
| EnvFile.LoadToken | main.go:298-316 | The environment wins over the file; the file's first token line counts; an empty token is none. |
| EnvFile.FileTokenMeaning | main.go:298-316 | The token of a file is what follows `CONTINUUM_TOKEN=` on the first line that starts with it. |
| EnvFile.RewritePlaces | internal/relay/client.go:247-263 | The token goes onto that line, or else onto a new one at the end, with a newline behind it exactly if the file ended in one or was empty. |
| EnvFile.ReadBack | internal/relay/client.go:247-266 | The reader finds the written token in any file. |
| EnvFile.OtherLinesKept | internal/relay/client.go:237-238 | All other lines keep their content and order. |
| EnvFile.LastRewriteWins | internal/relay/client.go:247-266 | Rewriting twice is rewriting once with the later token. |
| EnvFile.Rotation.Rotate | internal/relay/client.go:150-162 | The file is rewritten first, and the authenticator switches only if that succeeded; a reply that says rotated means both hold the new token, any other that nothing changed. |
| EnvFile.RotateReplies | internal/relay/client.go:149-162 | The token is refused exactly if it is not 64 characters from 0 to 9 and a to f; it is rotated exactly if it is legal and writing works, and then file and authenticator hold it; otherwise nothing changes. |
| EnvFile.LastRotationCounts | internal/relay/client.go:150-162 | Over every sequence the accepted token is that of the last try that was legal and could be written, or else the first one. |
| EnvFile.FileAndAuthAgree | internal/relay/client.go:150-162 | Over every sequence of rotations, failing or not, file and authenticator hold the same token. |
| WebProxy.RootRelativeRoundTrip | internal/webproxy/webproxy.go:139-176 | A root-relative redirect comes back as its path on the same port if and only if it does not itself start with `/proxy/`. |
| WebProxy.LocalhostRoundTrip | internal/webproxy/webproxy.go:159-168 | A redirect to the same machine comes back as its path and query on the proxied port. |
| WebProxy.RewriteIdempotent | internal/webproxy/webproxy.go:155-176 | Rewriting twice changes nothing more, on all inputs. |
| WebProxy.LeftAlone | internal/webproxy/webproxy.go:155-176 | Redirects to another machine, redirects into a proxy, and texts that are neither rooted nor name a host are left as they are; any other rooted one gets the prefix and the port. |
| WebProxy.ParseTargetExact | internal/webproxy/webproxy.go:139-150 | A path is read only if it is `/proxy/`, a decimal number, and the end or a slash and the rest. |
| WebProxy.ParseTargetReads | internal/webproxy/webproxy.go:139-150 | And every such path is read, with that number and that rest. |
| Sessions.MergeDiscovered | internal/relay/hub.go:110-131 | The loops compute the merge. |
| Sessions.KeptInOrder | internal/relay/hub.go:122-129 | Each unrepresented session is kept once per occurrence, in the discovered order. |
| Sessions.MergeSettles | internal/relay/hub.go:93-109 | The relay's records are an unchanged prefix, followed by exactly the unrepresented sessions; merging again changes nothing. |
| Sessions.FreeNamesJoin | internal/relay/hub.go:93-131 | A discovered session joins if and only if no relay record has its name or project, with or without `cx-` in front. |

## Left out

- Texts are ASCII and lines are shorter than 64 KiB; Unicode case and white space and the scanner's length limit are not modelled.
- Error values carry their kind but not the line number or the wording.
- Longest-prefix matching is not modelled: the device's routes are networks with an owner each. A leading minus sign, which newer device versions read as a withdrawal, makes an address unreadable.
- The device is its text protocol for the keys the relay prints; it has no handshake state and does not treat its own public key specially.
- A start is the checks of `New` and the configuration script; the TUN device and setting the interface address on it are not part of it.
- Curve25519, randomness and the QR payload: a key pair is the bytes of its public key, and agreement of the payload's token with a rotated one does not hold and is not claimed.
- Reading the file, opening it for append and renaming it are single steps that succeed or fail; a torn append is not modelled.
- Permission.GrantMeansOwnerApproved: assumes an id is not pending when it is registered; the code draws ids from 128 random bits.
- Notification and logging during a permission prompt, and the final streaming request after the tool loop.
- Times are unbounded integers, so the saturation of Go's durations does not appear.
- HTTP, WebSocket, APNs and Ollama transport, JSON, PTY, tmux, git and systemd calls, and the signing of the JWT.
- `url.Parse` is a parameter, of which only "a reference with one leading slash names no host" is assumed.
- Header extraction (`extractBearer`, `extractBasic`, `clientIP`), CLI verbs, path validators, resize clamping, the device-token list and the notification dedup set are not modelled.
