# aincraft-ndnts in Dafny

aincraft-ndnts is a shared voxel world in the browser. Each page clicks boxes
into an A-Frame scene and publishes every edit as a patch. The patches go
out as sequence-numbered NDN Data packets, and peers learn of new sequence
numbers through State Vector Sync (SVS). This project models the
replication core and the patch translators of that application and proves
their properties:

- **Production and the packet store** (module `Ndn`). A node publishes under
  `base/seq=N`. Each production stores one packet at the next sequence
  number and advances the counter by one. A separate "skip-zero"
  production writes sequence 0 and leaves the counter alone. The packet
  server returns exactly what is stored under a name.
- **UTF-8** (module `Utf8`). This is `toUtf8` and `fromUtf8`: a TextEncoder
  over scalar values, and a decoder that replaces malformed input with
  U+FFFD and strips one leading byte-order mark. It is proved to
  round-trip.
- **Base64 and colours** (module `Utils`, src/utils.ts).
  - `bytesToBase64` and `base64ToBytes` go through a binary string and
    btoa/atob, the forgiving-base64 algorithm that browsers implement over
    the alphabet of section 4 of RFC 4648.
  - `scanQrCode` turns a failed decode into "nothing".
  - `getRandomColor` takes its six random indices as input.
- **The certificate store** (module `CertStorage`, src/cert-storage.ts).
  It covers key and certificate naming, import keyed by the certificate
  name minus its last two components, and `verify` with its three errors
  in their fixed order.
- **Receiving a sync update** (module `Receiving`), shared by the two
  application variants. One iteration runs per sequence number from lo to
  hi inclusive. A failure skips that sequence number. The content of each
  obtained packet is decoded and handed to the patch callback in order.
- **`NdnAdapter`** (module `Adapter`), the Automerge-Repo network adapter:
  - its names;
  - `produce`, `send` and `connect`;
  - the packet server;
  - a `handleSyncUpdate` that turns sequence 1 into a `peer-candidate`
    event, skips empty content and emits each valid CBOR message.
- **The signed application layer** (module `SyncApp`, src/index.ts):
  - the random node id;
  - `produce` and `createSync`;
  - a `handleSyncUpdate` that verifies each packet before applying and
    caching it;
  - `selfSignCert` and `scanQrCode`.
- **The unsigned application layer** (module `UnsignedSyncApp`,
  src/index.js). It works the same way without signatures and without
  caching received packets.
- **The A-Frame scene bound to an Automerge document** (module `Scene`,
  src/aframe-automerge.ts):
  - the initial document;
  - `createElement` and `renderRootDoc`;
  - `onDocChange`, which classifies Automerge patches by action, path
    length and the `@` sigil.
- **The page script** (module `Aincraft`, public/static/aincraft.js):
  - the JSON-op `applyPatch`;
  - the spawn handler, which appends the box and produces its `new` patch
    before its `add` patch. It publishes through the unsigned layer
    (module `UnsignedSyncApp`, src/index.js), which is what the bundle
    exposes to the page as `ndnts`.

Foreign code appears as parameters of function type. This covers the
following:

- Ed25519 signing and verification;
- TLV certificate encoding;
- CBOR and `isValidMessage`;
- `JSON.stringify` and `JSON.parse`;
- `endpoint.consume`;
- the patch callback.

Clock readings, random bytes and random indices are inputs. A name's
`toString()` is taken to be injective, so the dictionaries keyed by it are
maps keyed by the name itself.

To verify, run `dafny verify` on all the `.dfy` files together.

## Model

| member | source | states |
|---|---|---|
| Wrappers.Get | src/cert-storage.ts:62 | a dictionary lookup yields a value exactly when the key is present, and then the stored value |
| Utf8.EncodeChar | src/index.ts:126 | one scalar value encodes to 1 to 4 bytes; a single byte exactly when it is below 0x80; the other bytes are continuation bytes |
| Utf8.ToUtf8 | src/index.ts:126 | the encoding has between one and four bytes per character |
| Utf8.FromUtf8 | src/index.ts:91 | decoding yields at most one character per byte |
| Utf8.DecodeEncodeChar | src/index.ts:91 | the decoder reads back exactly the character one encoded character came from, whatever follows it |
| Utf8.DecodeToUtf8 | src/index.ts:91 | decoding after encoding gives back the string (with no BOM handling applied) |
| Utf8.FromToUtf8 | src/index.js:62 | `fromUtf8(toUtf8(s)) == s` for every string that does not begin with U+FEFF |
| Utf8.FromToUtf8Bom | src/index.js:62 | a string that begins with U+FEFF comes back without that first character |
| Ndn.GetPrefix | src/cert-storage.ts:49 | `getPrefix(k)`: the first k components, or all but the last -k when k is negative; always a prefix |
| Ndn.DropLastTwo | src/automerge-ndn-adapter.ts:23 | the name without its last two components (two shorter, and the name is it followed by the dropped two); empty for a shorter name |
| Ndn.SeqName | src/index.ts:122 | `base/seq=k` is the base followed by exactly one sequence-number component k |
| Ndn.SeqIndex | src/index.ts:122 | recovers k from `base/seq=k`, and from no other name |
| Ndn.SeqNameInjective | src/index.ts:122 | distinct sequence numbers give distinct names |
| Ndn.MakePacket | src/index.ts:123-128 | the packet carries the name, the content, the 60000 ms freshness period, and the signer's key name as key locator (none when unsigned) |
| Ndn.Produce | src/automerge-ndn-adapter.ts:61-72 | the counter goes up by one, exactly one name `base/seq=(old+1)` is added holding the new packet, and every other entry is unchanged |
| Ndn.ProduceSkipZero | src/index.ts:117-133 | the counter is unchanged, the packet lands at `base/seq=0`, every other entry is unchanged |
| Ndn.ProduceAllStores | src/automerge-ndn-adapter.ts:74-84 | after k productions from counter s the counter is s+k and sequence s+j holds the j-th content, for every j in 1..k |
| Ndn.FirstProduced | src/automerge-ndn-adapter.ts:61-72 | the first of several productions lands at `seqNum + 1` |
| Ndn.ProduceAllKeeps | src/automerge-ndn-adapter.ts:61-72 | a run of productions leaves every entry outside s+1..s+k untouched and adds no other name |
| Ndn.Serve | src/index.ts:58-61 | the server answers exactly for stored names, with the stored packet |
| Ndn.ServeAfterProduce | src/index.js:47-50 | after a production the server answers the new name with the new packet and every other name as before |
| Utils.SextetChar | src/utils.ts:11 | each 6-bit value maps to a character of the alphabet of section 4 of RFC 4648 that maps back to it |
| Utils.SextetCharOfValue | src/utils.ts:5 | an alphabet character maps to its value and back |
| Utils.Sextets | src/utils.ts:11 | n bytes give ceil(4n/3) sextets, each below 64 |
| Utils.Chars | src/utils.ts:11 | each sextet becomes the alphabet character with that value |
| Utils.PaddedLength | src/utils.ts:11 | body plus `=` padding has length 4*ceil(n/3) |
| Utils.Encode | src/utils.ts:11 | the encoding has length 4*ceil(n/3) |
| Utils.EncodeAlphabet | src/utils.ts:11 | the encoding is alphabet characters followed by at most two `=` |
| Utils.Btoa | src/utils.ts:11 | btoa fails exactly when some character is above U+00FF |
| Utils.StripWhitespace | src/utils.ts:5 | what atob keeps has no ASCII whitespace and is no longer than the input |
| Utils.StripWhitespaceNone | src/utils.ts:5 | a string without whitespace is kept whole |
| Utils.KeptByStrip | src/utils.ts:5 | every non-whitespace character of the input survives the strip |
| Utils.StripPadding | src/utils.ts:5 | removes at most two trailing `=`, keeping a prefix |
| Utils.Values | src/utils.ts:5 | each alphabet character is read as its 6-bit value |
| Utils.Atob | src/utils.ts:5 | a successful atob yields a binary string (every code point at most U+00FF) |
| Utils.GroupRoundTrip | src/utils.ts:4-12 | three bytes cut into four sextets and reassembled give the bytes back, also for the two- and one-byte tails |
| Utils.UnsextetsSextets | src/utils.ts:4-12 | reassembling the sextets of a byte string gives the bytes back |
| Utils.StripPaddingEncode | src/utils.ts:4-12 | stripping the padding from an encoding leaves exactly its character body |
| Utils.StripBody | src/utils.ts:4-12 | stripping the padding from a body plus its padding gives back the body |
| Utils.AtobEncode | src/utils.ts:4-12 | atob of the encoding of some bytes is their binary string |
| Utils.BinaryString | src/utils.ts:10 | one character per byte, whose code point equals the byte, same length as the input |
| Utils.CodePoints | src/utils.ts:6 | one byte per character, equal to its code point (mod 256 as `Uint8Array.from` stores it) |
| Utils.CodePointsBinary | src/utils.ts:4-12 | reading back a binary string gives the bytes it was made from |
| Utils.BytesToBase64 | src/utils.ts:9-12 | btoa of the binary string succeeds, and the result is the padded RFC 4648 encoding |
| Utils.Base64ToBytes | src/utils.ts:4-7 | succeeds exactly when atob does, and then yields the code points of atob's result |
| Utils.Base64RoundTrip | src/utils.ts:4-12 | `base64ToBytes(bytesToBase64(b)) == b` for every byte string |
| Utils.InvalidCharacterFails | src/utils.ts:5 | a character outside the alphabet, not `=` and not whitespace, makes decoding fail |
| Utils.LengthOneMoreFails | src/utils.ts:5 | an unpadded body whose length is 1 mod 4 makes decoding fail |
| Utils.ScanQrCode | src/utils.ts:30-39 | a failed scan or a failed decode yields nothing instead of an exception; otherwise the decoded bytes |
| Utils.ColorOf | src/utils.ts:41-48 | `#` followed by one character of `0123456789ABCDEF` per index, the character at that index |
| Utils.GetRandomColor | src/utils.ts:41-48 | with six indices in [0,16): the colour above, 7 characters, `#` then six upper-case hex digits (the page script's copy at public/static/aincraft.js lines 79-86 is the same loop) |
| CertStorage.KeyName | src/cert-storage.ts:16 | the signing key is `nodeId/KEY/1`, two components after the node id |
| CertStorage.SelfCertName | src/cert-storage.ts:19 | the certificate is `nodeId/KEY/1/self/<version>`, two components after the key name |
| CertStorage.SelfCertificate | src/cert-storage.ts:18-23 | named as above, valid from the start reading to the end reading plus 360000000 ms, issued by the key, carrying the public key |
| CertStorage.SelfCertificateKey | src/cert-storage.ts:15-27 | the self certificate's name minus two components is the signer's key name, and its validity lasts 360000000 ms plus the time between the two clock readings |
| CertStorage.Import | src/cert-storage.ts:44-55 | a failed decode leaves the store unchanged; otherwise the certificate is stored under its name minus the last two components and every other entry is kept |
| CertStorage.ImportOverwrites | src/cert-storage.ts:49-50 | a second certificate with the same key name replaces the first |
| CertStorage.ImportIdempotent | src/cert-storage.ts:44-55 | importing the same wire twice equals importing it once |
| CertStorage.Verify | src/cert-storage.ts:57-72 | succeeds exactly when the packet has a key locator, storage has its certificate, and the verifier accepts both; fails "not signed" exactly when there is no key locator, "no certificate" exactly when the key is not on file, "no verifier" exactly when the certificate's key is rejected, and "bad signature" exactly when the key is accepted but the signature is not |
| CertStorage.VerifyAfterImport | src/cert-storage.ts:44-72 | after importing a signer's certificate, a packet it signed correctly verifies against it |
| CertStorage.VerifyUnaffected | src/cert-storage.ts:44-72 | importing a certificate for another key does not change a packet's verification |
| CertStorage.CertStore.constructor | src/cert-storage.ts:15-27 | the signer is `nodeId/KEY/1`, the certificate is the self certificate, the store is empty |
| CertStorage.CertStore.ExportSelfCert | src/cert-storage.ts:37-42 | the wire decodes back to the self certificate under any decoder that inverts the encoder |
| CertStorage.CertStore.ImportCert | src/cert-storage.ts:44-55 | the store becomes `Import` of the old store |
| CertStorage.ImportOwnCert | src/cert-storage.ts:15-55 | importing this node's own exported certificate files it under `nodeId/KEY/1`, the signer's key name |
| Adapter.ProduceValid | src/automerge-ndn-adapter.ts:61-72 | production keeps the store holding exactly `base/seq=1..seqNum`, each packet under its own name |
| Adapter.ServeValid | src/automerge-ndn-adapter.ts:27-32 | the packet server answers exactly for sequence numbers 1..seqNum, with a packet of that name, and nothing for a name never produced |
| Adapter.VisitStops | src/automerge-ndn-adapter.ts:88-117 | an iteration aborts the handler exactly when the fetch fails or, away from sequence 1, non-empty content fails to decode |
| Adapter.VisitOne | src/automerge-ndn-adapter.ts:104-110 | sequence 1 emits exactly one `peer-candidate` with the UTF-8 decoding of its content, and no message |
| Adapter.VisitOther | src/automerge-ndn-adapter.ts:112-123 | elsewhere at most one event: exactly one when the content is non-empty and valid, and then the message decoded from it |
| Adapter.TraceLength | src/automerge-ndn-adapter.ts:88 | the handler requests at most hi-lo+1 names, all of them when it completes |
| Adapter.TraceNames | src/automerge-ndn-adapter.ts:87-89 | the j-th name requested is `update.id + syncPrefix + seq=(lo+j)`: ascending, consecutive |
| Adapter.TraceStops | src/automerge-ndn-adapter.ts:88-117 | a handler that does not complete stopped at the last sequence number it requested, where an iteration failed |
| Adapter.TraceSplit | src/automerge-ndn-adapter.ts:88-124 | a range is its first part followed by the rest, unless the first part aborts; events come out in sequence order |
| Adapter.PeerCandidatesAppend | src/automerge-ndn-adapter.ts:108 | peer candidates of joined event lists add up |
| Adapter.TraceEvents | src/automerge-ndn-adapter.ts:104-123 | one update emits at most one peer candidate (and none unless 1 is in range), and every message emitted passes `isValidMessage` |
| Adapter.ConnectAnnounces | src/automerge-ndn-adapter.ts:49-54 | on a fresh adapter `connect` lands at sequence 1, and a receiver fetching it obtains exactly one peer candidate carrying the peer id |
| Adapter.PendingStep | src/automerge-ndn-adapter.ts:88-124 | loop invariant: after a successful iteration, the rest of the run from i+1 completes the whole |
| Adapter.PendingHalt | src/automerge-ndn-adapter.ts:89 | loop invariant: a failing iteration ends the run with what was done so far |
| Adapter.PendingEnd | src/automerge-ndn-adapter.ts:88 | loop invariant: past hi, the run is complete |
| Adapter.NdnAdapter.constructor | src/automerge-ndn-adapter.ts:16-47 | nodeId is the signer's name minus two components, baseName is nodeId followed by the sync prefix, the store is empty |
| Adapter.NdnAdapter.Produce | src/automerge-ndn-adapter.ts:61-72 | the new counter and store are `Produce` of the old ones; the store stays valid |
| Adapter.NdnAdapter.Send | src/automerge-ndn-adapter.ts:74-84 | one production of the CBOR encoding of the message |
| Adapter.NdnAdapter.Connect | src/automerge-ndn-adapter.ts:49-54 | records the peer id and produces its UTF-8 bytes |
| Adapter.NdnAdapter.HandleSyncUpdate | src/automerge-ndn-adapter.ts:86-125 | the names requested and the events appended are those of the trace over lo..hi under `update.id + syncPrefix`; store and counter are unchanged |
| Receiving.FirstSeqNum | src/index.ts:65-68 | a low bound of 1 becomes 0, any other is kept |
| Receiving.Obtained | src/index.ts:72 | one iteration yields zero or one packet |
| Receiving.DeliveredMembers | src/index.ts:70-72 | a packet is delivered exactly when some iteration in range lo..hi obtains it |
| Receiving.DeliveredSplit | src/index.ts:70 | ascending order: a range delivers its first part's packets followed by the rest's |
| Receiving.DeliveredSkips | src/index.ts:98-101 | a failing iteration is skipped and the loop goes on with the next |
| Receiving.DeliveredCount | src/index.js:59 | at most one packet per sequence number, exactly one each when no iteration fails |
| Receiving.Patches | src/index.js:62-64 | one patch per delivered packet |
| Receiving.PatchesAt | src/index.js:62 | the k-th patch is the decoding of the k-th packet's content |
| Receiving.DeliverAllApplied | src/index.ts:91-93 | the callback sees exactly the decodings of the delivered packets, in order |
| Receiving.DeliverAllCaches | src/index.ts:93-97 | every old cache entry stays, and every new one is a delivered packet under its own name whose patch the callback accepted |
| Receiving.RemainingStep | src/index.ts:70-97 | loop invariant: delivering packet i leaves the remainder from i+1 |
| Receiving.RemainingSkip | src/index.ts:98-101 | loop invariant: skipping iteration i leaves the remainder from i+1 |
| Receiving.RemainingEnd | src/index.ts:70 | loop invariant: at the end nothing remains |
| Receiving.DeliverRange | src/index.ts:70-102 | the loop's state is that of delivering, in order, the packets the range obtains |
| Receiving.PatchesStep | src/index.js:59-68 | one iteration appends the patch of the packet it fetched, or nothing |
| Receiving.PatchRange | src/index.js:59-68 | the loop appends exactly the patches of the packets the range obtains |
| Receiving.SameFetches | src/index.js:59-68 | ranges whose iterations obtain the same packets deliver the same |
| SyncApp.HexByte | src/index.ts:21 | `v.toString(16).padStart(2, '0')` is the two lower-case hex digits of the byte |
| SyncApp.HexString | src/index.ts:20-22 | two characters per byte |
| SyncApp.HexStringAt | src/index.ts:20-22 | characters 2k and 2k+1 are the digits of byte k |
| SyncApp.HexDigitOf | src/index.ts:21 | each lower-case hex digit reads back as its value |
| SyncApp.NodeIdFormat | src/index.ts:20-22 | the node id is `/node-` followed by two lower-case hex digits per random byte, zero padded, reading back as the byte |
| SyncApp.NodeIdInjective | src/index.ts:20-22 | different random bytes give different node ids |
| SyncApp.CreateSyncThenProduce | src/index.ts:105-133 | `createSync` puts the nop patch at sequence 0 without advancing the counter; the first `produce` then lands at sequence 1 and both stay stored |
| SyncApp.CheckedFetchIff | src/index.ts:72-88 | an iteration obtains a packet exactly when the fetch succeeds, the packet has a key locator, its certificate is on file, a verifier is made from it and the signature verifies |
| SyncApp.OnlyVerifiedDelivered | src/index.ts:70-97 | the packets delivered are exactly the fetched packets in range that pass verification |
| SyncApp.ScanFailureKeeps | src/index.ts:172-186 | a failed scan, text that is not base64 or bytes that are not a certificate leave `certStorage` unchanged |
| SyncApp.QrExchange | src/index.ts:149-186 | scanning the QR code of a node's self certificate stores it under `nodeId/KEY/1` and keeps every other entry |
| SyncApp.App.constructor | src/index.ts:20-29 | the node id from four random bytes, empty stores, no sync node, no signer |
| SyncApp.App.Produce | src/index.ts:117-133 | with the flag: sequence 0, counter unchanged; without: `seqNum + 1`, counter advanced; other entries unchanged; before `createSync` or `selfSignCert` nothing changes |
| SyncApp.App.CreateSync | src/index.ts:105-115 | starts the sync node at 0 and stores the nop patch at sequence 0 |
| SyncApp.App.DataPktServer | src/index.ts:58-61 | the stored packet for the name, under that very name, or nothing |
| SyncApp.App.HandleSyncUpdate | src/index.ts:63-103 | applied patches and cache are those of delivering, in order, the verified packets of FirstSeqNum(lo)..hi |
| SyncApp.App.SelfSignCert | src/index.ts:149-170 | the signer is `nodeId/KEY/1`, the certificate is the self certificate, and the QR text decodes back to its wire |
| SyncApp.App.ScanQrCode | src/index.ts:172-186 | `certStorage` becomes the import of the scanned certificate, or stays as it was |
| UnsignedSyncApp.UnsignedPatches | src/index.js:59-67 | the k-th patch is the decoding of a packet fetched in range |
| UnsignedSyncApp.SignedAgreesWhenAllVerify | src/index.js:52-69 | when every fetched packet verifies, the signed handler delivers what the unsigned one does |
| UnsignedSyncApp.App.constructor | src/index.js:12-18 | the node id from four random bytes, empty store, no sync node |
| UnsignedSyncApp.App.Produce | src/index.js:83-97 | with the flag: sequence 0, counter unchanged; without: `seqNum + 1`, counter advanced; other entries unchanged; packets unsigned; before `createSync` it throws and nothing changes |
| UnsignedSyncApp.App.CreateSync | src/index.js:71-81 | starts the sync node at 0 and stores the nop patch at sequence 0 |
| UnsignedSyncApp.App.DataPktServer | src/index.js:47-50 | the stored entry for the requested name, under that name, without key locator |
| UnsignedSyncApp.App.HandleSyncUpdate | src/index.js:52-69 | appends the patches of the packets fetched over FirstSeqNum(lo)..hi, in order; `pktStorage` is untouched |
| Scene.CopiedAttrs | src/aframe-automerge.ts:117-126 | attributes are `id` and exactly the fields not starting with `@`, with their values; `id` is the `@id` unless a field overrides it |
| Scene.CreateChildren | src/aframe-automerge.ts:127-130 | one element per `@children` entry |
| Scene.CreateChildrenAt | src/aframe-automerge.ts:127-130 | child i is `createElement` of entry i, recursively |
| Scene.CreateChildrenAppend | src/aframe-automerge.ts:127-130 | children are built in entry order |
| Scene.WalkAllAppend | src/aframe-automerge.ts:141-144 | appending an element appends its subtree in document order |
| Scene.WalkDepths | src/aframe-automerge.ts:127-130 | an element comes first in its subtree, and its descendants are deeper |
| Scene.WalkAllDepths | src/aframe-automerge.ts:127-130 | no node of a forest is shallower than the forest |
| Scene.AtDepthAppend | src/aframe-automerge.ts:141-144 | the nodes at one depth of a joined list are those of each part |
| Scene.AtDepthNone | src/aframe-automerge.ts:141-144 | deeper-only lists have no node at the given depth |
| Scene.WalkAllTops | src/aframe-automerge.ts:141-144 | the top-level nodes of a rendered forest are its roots, in order |
| Scene.RenderAppend | src/aframe-automerge.ts:141-144 | rendering one more child appends its subtree |
| Scene.RenderTops | src/aframe-automerge.ts:135-145 | the root is not rendered; its children become the top-level elements, one per entry, with its `@type` as tag and the copied attributes |
| Scene.FindById | src/aframe-automerge.ts:166 | `getElementById`: the first node with that id, or none when no node has it |
| Scene.ChangeAttrs | src/aframe-automerge.ts:167 | `setAttribute(name, property, value)` sets one property, keeping the others; `setAttribute(name, value)` replaces the attribute; other attributes are kept |
| Scene.ChangeElement | src/aframe-automerge.ts:166-167 | fails exactly when no element has the id; otherwise changes that element's attributes and no other node |
| Scene.ApplyPatch | src/aframe-automerge.ts:156-195 | `del` and `insert` fail "not implemented" and nothing else does; unknown actions change nothing; a failing lookup names `path[1]`; only a length-2 `put` adds a node |
| Scene.PutAppendsEntity | src/aframe-automerge.ts:160-163 | a `put` of length 2 appends one `a-entity` with id `path[1]`, no other attribute and no children |
| Scene.PutSetsPosition | src/aframe-automerge.ts:164-168 | a `put` of length 4 on `position` sets property `path[3]` on element `path[1]`; every other `put` changes nothing |
| Scene.SpliceCases | src/aframe-automerge.ts:173-188 | `@` components are skipped; length 4 replaces `path[2]`, length 5 sets its property `path[3]`, any other length changes nothing |
| Scene.ApplyPatchesAppend | src/aframe-automerge.ts:153 | patches apply in list order, and nothing after a failure |
| Scene.NotImplementedStops | src/aframe-automerge.ts:169-172 | a `del` or `insert` stops the batch with "not implemented" |
| Scene.PendingStep | src/aframe-automerge.ts:153-196 | loop invariant: one patch applied leaves the rest of the batch |
| Scene.InitialIdsMatchKeys | src/aframe-automerge.ts:54-115 | in the initial document every node's `@id` equals its key among its parent's `@children` |
| Scene.CrdtScene.CreateNewRootDoc | src/aframe-automerge.ts:54-115 | the document becomes an `a-scene` with id `root` and the initial children |
| Scene.CrdtScene.RenderRootDoc | src/aframe-automerge.ts:135-145 | appends the rendering of the root's children, not the root itself |
| Scene.CrdtScene.OnDocChange | src/aframe-automerge.ts:152-197 | the scene and the failure are those of applying the patches in order |
| Aincraft.NewEntity | public/static/aincraft.js:98-105 | the new element carries the value's `@type`, `@id`, `position`, `material` and `mixin` |
| Aincraft.ApplyPatch | public/static/aincraft.js:88-106 | a parse failure or a `new` without value throws; `new` appends exactly one element; `add` and `nop` change nothing; any other op changes nothing and logs |
| Aincraft.ApplyPatchReturns | public/static/aincraft.js:88-106 | `applyPatch` returns normally exactly when the patch parses and is not a `new` without value |
| Aincraft.Digit | public/static/aincraft.js:43 | a digit character has its value |
| Aincraft.Decimal | public/static/aincraft.js:43 | the decimal text of a number is non-empty and all digits |
| Aincraft.DecimalRoundTrip | public/static/aincraft.js:43 | the decimal text reads back as the number |
| Aincraft.BoxIdInjective | public/static/aincraft.js:42-43 | different versions give different box ids |
| Aincraft.SpawnAttrs | public/static/aincraft.js:29-44 | the box has `position`, `material` with the colour, every data key but `event`, `snap` and `offset`, and the box id |
| Aincraft.CursorSpawnAttrs | src/aframe-automerge.ts:110 | with the cursor's spawner data from the initial document, the box has exactly its position, its colour, the `voxel` mixin and its id |
| Aincraft.SpawnPatchPair | public/static/aincraft.js:50-74 | both patches carry the version and the id `box-<version>`; `new` is named `/root/<id>`, `add` targets `/@children/<id>` named `/root` |
| Aincraft.SpawnReplayed | public/static/aincraft.js:50-106 | a peer applying the `new` patch appends exactly the box with its id, position, colour and mixin, and the `add` patch then changes nothing |
| Aincraft.Page.Spawn | public/static/aincraft.js:17-75 | appends the box, then produces, unsigned, the `new` patch and after it the `add` patch; before `createSync` the first produce throws, so neither patch is stored |
| Aincraft.ProduceTwice | public/static/aincraft.js:66-74 | two productions in a row are a run of two |
| Aincraft.SpawnOrder | public/static/aincraft.js:66-74 | `new` is produced before `add`: sequence s+1 holds the `new` patch and s+2 the `add` patch |

## Left out

- I/O and foreign libraries are not modelled. This covers the PeerJS and WebSocket transports, NFD prefix registration, Endpoint networking, the SVS protocol itself, `shutdown` and `disconnect`. Update events are inputs, and `endpoint.consume` is a partial function from name to packet.
- Ed25519 key generation, signing and verification are function parameters (`sign`, `keyOk`, `sigOk`). So are certificate TLV encoding and decoding, CBOR and `isValidMessage`, and `JSON.stringify`/`JSON.parse`.
- The patch callback given to `setApplyPatch` is represented by an `accepts` predicate: whether the callback returns normally.
- `Date.now`, `Math.random` and `crypto.getRandomValues` are not modelled. Their readings are inputs.
- Asynchrony is not modelled: `setTimeout` readiness, promise ordering and the un-awaited `produce` calls that can race on `seqNum`. Each production is atomic and sequential.
- Adapter.NdnAdapter.HandleSyncUpdate: a rejected `consume`, or a CBOR decode that throws, aborts the rest of the range. In the source both calls sit outside the `try` block, so this follows the code rather than a reading in which every failure is skipped.
- Adapter.NdnAdapter.HandleSyncUpdate: the commented-out verifier is a no-op, as in the source.
- A name's `toString()` is taken to be injective, so the dictionaries keyed by it are maps keyed by the name itself.
- Utf8: strings are sequences of Unicode scalar values. A lone surrogate, which JavaScript strings can hold and TextEncoder replaces, does not occur.
- The two private base64 helpers in src/index.ts (lines 139-147) are the same code as those in src/utils.ts, and `Utils` models both.
- SyncApp.App.Produce: a call before `createSync` or `selfSignCert` throws in the source (there is no sync node or signer). The model leaves the state unchanged.
- UnsignedSyncApp.App.Produce: a call before `createSync` throws a TypeError in the source (`syncNode` is undefined). The model returns `thrown` and leaves the state unchanged. Callers stop at that flag in place of the exception unwinding them: `CreateSync` never sees it, and `Page.Spawn` returns before its second produce.
- Scene.ApplyPatch: the `console.error` for a patch with an unhandled action is not modelled, because console output is I/O. Such a patch returns the scene unchanged and succeeds, as in the source.
- `drawQrCode` and the QR canvas plumbing are not modelled. `qrcode.toCanvas` is UI. `SelfSignCert` returns the text it would draw.
- Grid snapping of the intersection point is floating-point arithmetic, so the position is an input string.
- `changeDoc`, Automerge Repo `find`/`create` and the CRDT merge are not modelled. `CrdtScene.constructor` takes the found document, or None for a new one.
- `onDocChangeRebuild` is not modelled. Nothing registers it.
- Scene: the DOM under `rootEl` is a list of nodes in document order, each with its depth. `appendChild` appends a subtree, and `getElementById` finds the first node with the id. Elements elsewhere in the page are not part of the model.
- Scene: A-Frame's parsing of attribute strings into component properties is reduced to two cases. An attribute is either whole text or a property map.
- Aincraft.SpawnAttrs: each data key is copied as a whole attribute. `setComponentProperty` (public/static/aincraft.js:38) splits a dotted `component.property` key, such as the `material.color: red` of the component's header example, and sets that one property. It also merges a whole-component value into the component's existing properties. Neither is modelled, because attribute values are text here. The page's only spawner passes `mixin: voxel` (src/aframe-automerge.ts:110), and CursorSpawnAttrs states the attributes for it.
- Scene: `@children` entries are kept in insertion order. `Object.values` puts integer-like keys first, which the initial document and box ids (`box-…`) never use.
- Scene: path elements are strings. A numeric list index in an Automerge path is not modelled.
- Scene: `createElement` has no contract of its own. Its properties are stated by CopiedAttrs, CreateChildrenAt and RenderTops.
- Aincraft.ApplyPatch: the JSON value of a patch is a box, a number or absent. A `new` with a number value creates the tag `undefined` with attributes set to `undefined`, where A-Frame would keep a text form.
- Aincraft.ApplyPatch: JSON text that parses to something other than a patch record is outside the model. A record without `op` is given some op other than `new`, `add` and `nop`, so it is logged and ignored, as in the source.
