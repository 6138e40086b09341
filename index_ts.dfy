/** The application's NDN layer (src/index.ts): a random node id, the
    signed, sequence-numbered packet store served under `nodeId/example/
    testJsonPatch`, the handling of sync updates (fetch, verify, apply,
    cache), the self-signed certificate shown as a QR code, and the import
    of a peer's certificate from a scanned QR code. */
module SyncApp {
  import opened Wrappers
  import opened Bytes
  import opened Ndn
  import opened Utf8
  import opened Utils
  import opened CertStorage
  import opened Receiving

  /** `'/example/testJsonPatch'`. */
  const SyncPrefix: Name := [Generic("example"), Generic("testJsonPatch")]

  /** The patch `createSync` publishes at sequence 0. */
  const NopPatch: string := "{\"op\":\"nop\",\"@version\":0,\"@name\":\"/root\"}"

  // ---------------------------------------------------------------------
  // The node id

  const LowerHex: string := "0123456789abcdef"

  /** `v.toString(16)` for a byte: lower-case digits, no leading zero. */
  function Radix16(b: byte): string {
    if b < 16 then [LowerHex[b]] else [LowerHex[b / 16], LowerHex[b % 16]]
  }

  /** `s.padStart(2, '0')`. */
  function PadStart2(s: string): string {
    if |s| >= 2 then s else seq(2 - |s|, _ => '0') + s
  }

  /** Each byte becomes exactly two digits, the high nibble first. */
  function HexByte(b: byte): (s: string)
    ensures s == [LowerHex[b / 16], LowerHex[b % 16]]
  {
    if b < 16 then
      assert seq(1, _ => '0') == [LowerHex[0]];
      PadStart2(Radix16(b))
    else PadStart2(Radix16(b))
  }

  /** `Array.from(bytes).map(HexByte).join('')`. */
  function HexString(bs: seq<byte>): (s: string)
    ensures |s| == 2 * |bs|
  {
    if bs == [] then "" else HexByte(bs[0]) + HexString(bs[1..])
  }

  /** Digits 2k and 2k+1 are those of byte k. */
  lemma {:induction false} HexStringAt(bs: seq<byte>, k: nat)
    requires k < |bs|
    ensures HexString(bs)[2 * k] == HexByte(bs[k])[0]
    ensures HexString(bs)[2 * k + 1] == HexByte(bs[k])[1]
    decreases k
  {
    var rest := HexString(bs[1..]);
    assert HexString(bs) == HexByte(bs[0]) + rest;
    if k > 0 {
      HexStringAt(bs[1..], k - 1);
      assert bs[1..][k - 1] == bs[k];
    }
  }

  /** The value of a lower-case hexadecimal digit. */
  function HexDigit(c: char): int {
    if '0' <= c <= '9' then c as int - '0' as int
    else if 'a' <= c <= 'f' then c as int - 'a' as int + 10
    else -1
  }

  lemma HexDigitOf(d: nat)
    requires d < 16
    ensures HexDigit(LowerHex[d]) == d
  {
  }

  /** `nodeId`: `/node-` followed by the random bytes in hexadecimal. */
  function NodeIdText(rnd: seq<byte>): string {
    "/node-" + HexString(rnd)
  }

  /** The node id as a name: its one component, `node-...`. */
  function NodeName(rnd: seq<byte>): Name {
    [Generic(NodeIdText(rnd)[1..])]
  }

  /** The node id is `/node-` and two lower-case hexadecimal digits per
      random byte, from which each byte can be read back. */
  lemma NodeIdFormat(rnd: seq<byte>)
    ensures var t := NodeIdText(rnd);
      && |t| == 6 + 2 * |rnd| && t[..6] == "/node-"
      && (forall k :: 0 <= k < |rnd| ==>
            && t[6 + 2 * k] in LowerHex && t[6 + 2 * k + 1] in LowerHex
            && rnd[k] == 16 * HexDigit(t[6 + 2 * k]) + HexDigit(t[6 + 2 * k + 1]))
  {
    var t := NodeIdText(rnd);
    forall k | 0 <= k < |rnd|
      ensures t[6 + 2 * k] in LowerHex && t[6 + 2 * k + 1] in LowerHex
      ensures rnd[k] == 16 * HexDigit(t[6 + 2 * k]) + HexDigit(t[6 + 2 * k + 1])
    {
      HexStringAt(rnd, k);
      var hi, lo := rnd[k] / 16, rnd[k] % 16;
      assert HexByte(rnd[k]) == [LowerHex[hi], LowerHex[lo]];
      assert t[6 + 2 * k] == LowerHex[hi] && t[6 + 2 * k + 1] == LowerHex[lo];
      HexDigitOf(hi);
      HexDigitOf(lo);
    }
  }

  /** Distinct random draws give distinct node ids. */
  lemma NodeIdInjective(a: seq<byte>, b: seq<byte>)
    requires NodeIdText(a) == NodeIdText(b)
    ensures a == b
  {
    NodeIdFormat(a);
    NodeIdFormat(b);
    forall k | 0 <= k < |a| ensures a[k] == b[k] {
    }
  }

  // ---------------------------------------------------------------------
  // Production after `createSync`

  /** `createSync` publishes a first patch (the nop patch's bytes) at
      sequence 0 of a fresh sync node; the first production after it takes
      sequence 1, and sequence 0 keeps the first patch. */
  lemma CreateSyncThenProduce(base: Name, store: map<Name, Packet>, first: seq<byte>, content: seq<byte>, signing: Signing)
    ensures var s0 := ProduceSkipZero(base, ProducerState(0, store), first, signing);
      var s1 := Ndn.Produce(base, s0, content, signing);
      && s0.seqNum == 0 && s1.seqNum == 1
      && SeqName(base, 0) in s1.store && SeqName(base, 1) in s1.store
      && s1.store[SeqName(base, 0)] == MakePacket(SeqName(base, 0), first, signing)
      && s1.store[SeqName(base, 1)] == MakePacket(SeqName(base, 1), content, signing)
  {
    assert SeqName(base, 0) != SeqName(base, 1) by {
      assert SeqName(base, 0)[|base|] != SeqName(base, 1)[|base|];
    }
  }

  // ---------------------------------------------------------------------
  // Receiving

  /** The foreign calls of the handler: fetching (`endpoint.consume`, None
      where it rejects), whether `createVerifier` accepts a certificate,
      whether `verifier.verify` accepts a packet, and whether the patch
      callback returns normally. */
  datatype SyncEnv = SyncEnv(consume: Name -> Option<Packet>, keyOk: Certificate -> bool,
                             sigOk: (Certificate, Packet) -> bool, accepts: string -> bool)

  /** Iteration i: the fetched packet if it passes verification against
      the certificates, else None. */
  function CheckedFetch(certs: map<Name, Certificate>, prefix: Name, env: SyncEnv, i: nat): Option<Packet> {
    match env.consume(SeqName(prefix, i))
    case None => None
    case Some(p) => if Verify(certs, p, env.keyOk, env.sigOk).Ok? then Some(p) else None
  }

  function Verified(certs: map<Name, Certificate>, prefix: Name, env: SyncEnv): nat -> Option<Packet> {
    (i: nat) => CheckedFetch(certs, prefix, env, i)
  }

  /** An iteration obtains a packet exactly when the fetch succeeds and
      the packet is signed by a key on file whose certificate makes a
      verifier that accepts it; an unsigned packet, an unknown key and a
      bad signature are skipped alike. */
  lemma CheckedFetchIff(certs: map<Name, Certificate>, prefix: Name, env: SyncEnv, i: nat, p: Packet)
    ensures CheckedFetch(certs, prefix, env, i) == Some(p) <==>
      && env.consume(SeqName(prefix, i)) == Some(p)
      && p.keyLocator.Some? && p.keyLocator.value in certs
      && env.keyOk(certs[p.keyLocator.value]) && env.sigOk(certs[p.keyLocator.value], p)
  {
  }

  /** A packet is handed to the patch callback exactly when some sequence
      number of the range fetches it and it passes all the checks. */
  lemma OnlyVerifiedDelivered(certs: map<Name, Certificate>, prefix: Name, env: SyncEnv, lo: nat, end: nat, p: Packet)
    ensures p in Delivered(lo, end, Verified(certs, prefix, env)) <==>
      exists i: nat :: lo <= i < end && env.consume(SeqName(prefix, i)) == Some(p) &&
        Verify(certs, p, env.keyOk, env.sigOk).Ok?
  {
    var fetch := Verified(certs, prefix, env);
    DeliveredMembers(lo, end, fetch, p);
    forall i: nat | lo <= i < end
      ensures fetch(i) == Some(p) <==>
        env.consume(SeqName(prefix, i)) == Some(p) && Verify(certs, p, env.keyOk, env.sigOk).Ok?
    {
      assert fetch(i) == CheckedFetch(certs, prefix, env, i);
    }
  }

  /** Scan the QR code, decode its base64 text and import the certificate
      it holds; any failure leaves the store alone. */
  function ImportScanned(storage: map<Name, Certificate>, scanned: Option<string>,
                         decode: seq<byte> -> Option<Certificate>): map<Name, Certificate>
  {
    match Utils.ScanQrCode(scanned)
    case None => storage
    case Some(wire) => Import(storage, wire, decode)
  }

  /** A failed scan, text that is not base64, or bytes that are not a
      certificate leave the store unchanged. */
  lemma ScanFailureKeeps(storage: map<Name, Certificate>, scanned: Option<string>,
                         decode: seq<byte> -> Option<Certificate>)
    requires scanned.None? || Base64ToBytes(scanned.value).None? ||
             decode(Base64ToBytes(scanned.value).value).None?
    ensures ImportScanned(storage, scanned, decode) == storage
  {
  }

  /** Scanning the QR code a node shows, with a codec that round-trips its
      certificate, files that certificate under the node's key name
      `nodeId/KEY/1` and leaves every other key alone. */
  lemma QrExchange(storage: map<Name, Certificate>, nodeId: Name, publicKey: seq<byte>,
                   versionTime: nat, startTime: nat, endTime: nat,
                   encode: Certificate -> seq<byte>, decode: seq<byte> -> Option<Certificate>)
    requires var c := SelfCertificate(nodeId, publicKey, versionTime, startTime, endTime);
      decode(encode(c)) == Some(c)
    ensures var c := SelfCertificate(nodeId, publicKey, versionTime, startTime, endTime);
      var r := ImportScanned(storage, Some(BytesToBase64(encode(c))), decode);
      && KeyName(nodeId) in r && r[KeyName(nodeId)] == c
      && (forall n :: n in storage && n != KeyName(nodeId) ==> n in r && r[n] == storage[n])
  {
    var c := SelfCertificate(nodeId, publicKey, versionTime, startTime, endTime);
    Base64RoundTrip(encode(c));
    SelfCertificateKey(nodeId, publicKey, versionTime, startTime, endTime);
  }

  // ---------------------------------------------------------------------
  // The module state

  /** The module's state: the node id, whether `createSync` has made the
      sync node, its `seqNum`, the packet and certificate stores, the
      signer and certificate `selfSignCert` makes, and the patches handed
      to the `applyPatch` callback so far. */
  class App {
    const nodeId: Name
    var syncStarted: bool
    var seqNum: nat
    var pktStorage: map<Name, Packet>
    var certStorage: map<Name, Certificate>
    var signer: Option<Signing>
    var certificate: Option<Certificate>
    var applied: seq<string>

    /** `nodeId + syncPrefix`, the name packets are produced under. */
    function BaseName(): Name {
      nodeId + SyncPrefix
    }

    /** Every stored packet is filed under its own name. */
    ghost predicate Valid()
      reads this
    {
      forall n :: n in pktStorage ==> pktStorage[n].name == n
    }

    /** Module loading: the node id from four random bytes, empty stores. */
    constructor (rnd: seq<byte>)
      requires |rnd| == 4
      ensures nodeId == NodeName(rnd) && Valid()
      ensures !syncStarted && seqNum == 0 && pktStorage == map[] && certStorage == map[]
      ensures signer == None && certificate == None && applied == []
    {
      nodeId := NodeName(rnd);
      syncStarted := false;
      seqNum := 0;
      pktStorage := map[];
      certStorage := map[];
      signer := None;
      certificate := None;
      applied := [];
    }

    /** `produce(content, skipZeroFlag)`: sign the UTF-8 bytes of the
        content and store them at `seqNum + 1`, advancing the counter, or
        at 0 leaving it. Before `createSync` (no sync node) or
        `selfSignCert` (no signer) the call throws and nothing changes. */
    method Produce(content: string, skipZero: bool)
      requires Valid()
      modifies this`seqNum, this`pktStorage
      ensures Valid()
      ensures !(syncStarted && signer.Some?) ==> seqNum == old(seqNum) && pktStorage == old(pktStorage)
      ensures syncStarted && signer.Some? && skipZero ==>
        ProducerState(seqNum, pktStorage) ==
        ProduceSkipZero(BaseName(), ProducerState(old(seqNum), old(pktStorage)), ToUtf8(content), signer.value)
      ensures syncStarted && signer.Some? && !skipZero ==>
        ProducerState(seqNum, pktStorage) ==
        Ndn.Produce(BaseName(), ProducerState(old(seqNum), old(pktStorage)), ToUtf8(content), signer.value)
    {
      if !syncStarted || signer.None? {
        return;
      }
      var k := if skipZero then 0 else seqNum + 1;
      var name := SeqName(BaseName(), k);
      var data := MakePacket(name, ToUtf8(content), signer.value);
      pktStorage := pktStorage[name := data];
      if !skipZero {
        seqNum := k;
      }
    }

    /** `createSync()`: a new sync node for this node id, with `seqNum`
        0, then the nop patch at sequence 0. */
    method CreateSync()
      requires Valid()
      modifies this`syncStarted, this`seqNum, this`pktStorage
      ensures Valid() && syncStarted && seqNum == 0
      ensures signer.None? ==> pktStorage == old(pktStorage)
      ensures signer.Some? ==>
        ProducerState(seqNum, pktStorage) ==
        ProduceSkipZero(BaseName(), ProducerState(0, old(pktStorage)), ToUtf8(NopPatch), signer.value)
    {
      syncStarted := true;
      seqNum := 0;
      Produce(NopPatch, true);
    }

    /** `dataPktServer`: the packet stored under the requested name, which
        carries that name. */
    function DataPktServer(name: Name): (r: Option<Packet>)
      reads this
      ensures r.Some? <==> name in pktStorage
      ensures r.Some? ==> r.value == pktStorage[name]
      ensures Valid() && r.Some? ==> r.value.name == name
    {
      Serve(pktStorage, name)
    }

    /** `handleSyncUpdate(update)`: for i from lo (0 when lo is 1) to hi,
        fetch, verify, apply, and cache; every failure skips that i. */
    method HandleSyncUpdate(update: SyncUpdate, env: SyncEnv)
      requires Valid()
      modifies this`applied, this`pktStorage
      ensures Valid()
      ensures Inbox(applied, pktStorage) ==
        DeliverAll(Inbox(old(applied), old(pktStorage)),
                   Delivered(FirstSeqNum(update.loSeqNum), update.hiSeqNum + 1,
                             Verified(certStorage, update.id + SyncPrefix, env)),
                   env.accepts, FromUtf8)
    {
      var lo := update.loSeqNum;
      if lo == 1 {
        lo := 0;
      }
      var prefix := update.id + SyncPrefix;
      ghost var start := Inbox(applied, pktStorage);
      ghost var delivered := Delivered(lo, update.hiSeqNum + 1, Verified(certStorage, prefix, env));
      var r := DeliverRange(Inbox(applied, pktStorage), lo, update.hiSeqNum + 1, Verified(certStorage, prefix, env), env.accepts, FromUtf8);
      applied, pktStorage := r.applied, r.store;
      DeliverAllCaches(start, delivered, env.accepts, FromUtf8);
    }

    /** `selfSignCert()`: the generated key pair gives the signer
        `nodeId/KEY/1` and the self certificate; the QR code shows the
        base64 of the certificate's wire encoding. */
    method SelfSignCert(publicKey: seq<byte>, sign: (Name, seq<byte>) -> seq<byte>,
                        versionTime: nat, startTime: nat, endTime: nat,
                        encode: Certificate -> seq<byte>) returns (qrText: string)
      modifies this`signer, this`certificate
      ensures signer == Some(SignedBy(KeyName(nodeId), sign))
      ensures certificate == Some(SelfCertificate(nodeId, publicKey, versionTime, startTime, endTime))
      ensures Base64ToBytes(qrText) == Some(encode(certificate.value))
    {
      signer := Some(SignedBy(KeyName(nodeId), sign));
      var cert := SelfCertificate(nodeId, publicKey, versionTime, startTime, endTime);
      certificate := Some(cert);
      qrText := BytesToBase64(encode(cert));
      Base64RoundTrip(encode(cert));
    }

    /** `scanQrCode(file)`: import the certificate a scanned QR code
        holds; any error is caught and leaves the store alone. */
    method ScanQrCode(scanned: Option<string>, decode: seq<byte> -> Option<Certificate>)
      modifies this`certStorage
      ensures certStorage == ImportScanned(old(certStorage), scanned, decode)
    {
      var wire := Utils.ScanQrCode(scanned);
      if wire.Some? {
        var cert := decode(wire.value);
        if cert.Some? {
          certStorage := certStorage[KeyNameOf(cert.value) := cert.value];
        }
      }
    }
  }
}
