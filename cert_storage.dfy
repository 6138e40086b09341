/** The certificate store of one node: its own signing key and self-signed
    certificate, the certificates imported from peers (keyed by key name),
    and the verification of received packets against them. Ed25519, the
    certificate TLV codec and key generation are parameters. */
module CertStorage {
  import opened Wrappers
  import opened Bytes
  import opened Ndn

  /** The self certificate is valid for 360000000 ms (100 hours) after its
      start time. */
  const ValidityMs: nat := 360000000

  datatype Validity = Validity(notBefore: nat, notAfter: nat)

  /** A certificate: its name, validity period, public key (SPKI bytes) and
      the key name it is signed by. */
  datatype Certificate = Certificate(name: Name, validity: Validity, publicKey: seq<byte>, issuer: Name)

  /** `nodeId.append('KEY', '1')`: the name of the node's signing key. */
  function KeyName(nodeId: Name): (r: Name)
    ensures |r| == |nodeId| + 2 && r[..|nodeId|] == nodeId
    ensures r[|nodeId|..] == [Generic("KEY"), Generic("1")]
  {
    nodeId + [Generic("KEY"), Generic("1")]
  }

  /** `nodeId/KEY/1/self` followed by the version component
      `Version.create(version)`. */
  function SelfCertName(nodeId: Name, version: nat): (r: Name)
    ensures |r| == |KeyName(nodeId)| + 2 && r[..|KeyName(nodeId)|] == KeyName(nodeId)
    ensures r[|KeyName(nodeId)|..] == [Generic("self"), Version(version)]
  {
    KeyName(nodeId) + [Generic("self"), Version(version)]
  }

  /** `cert.name.getPrefix(cert.name.length - 2)`: the key a certificate
      is filed under. */
  function KeyNameOf(cert: Certificate): Name {
    DropLastTwo(cert.name)
  }

  /** The self certificate built when the key pair is ready. The three clock
      readings are, in order, the one in the version component and the two
      in the validity period. */
  function SelfCertificate(nodeId: Name, publicKey: seq<byte>, versionTime: nat, startTime: nat, endTime: nat): (c: Certificate)
    ensures c.name == SelfCertName(nodeId, versionTime)
    ensures c.validity.notBefore == startTime && c.validity.notAfter == endTime + ValidityMs
    ensures c.issuer == KeyName(nodeId) && c.publicKey == publicKey
  {
    Certificate(SelfCertName(nodeId, versionTime), Validity(startTime, endTime + ValidityMs), publicKey, KeyName(nodeId))
  }

  /** The self certificate is filed under the signing key's own name, and
      it is valid for exactly `ValidityMs` when both validity readings of
      the clock agree. */
  lemma SelfCertificateKey(nodeId: Name, publicKey: seq<byte>, versionTime: nat, startTime: nat, endTime: nat)
    ensures var c := SelfCertificate(nodeId, publicKey, versionTime, startTime, endTime);
      && KeyNameOf(c) == KeyName(nodeId)
      && KeyNameOf(c) == c.issuer
      && c.validity.notAfter - c.validity.notBefore == ValidityMs + (endTime - startTime)
  {
    var c := SelfCertificate(nodeId, publicKey, versionTime, startTime, endTime);
    assert c.name[..|c.name| - 2] == KeyName(nodeId);
  }

  // ---------------------------------------------------------------------
  // Import

  /** `importCert(wire)` on the stored dictionary: decode the wire (TLV
      Data, then a certificate); on success file it under its key name,
      replacing any earlier entry; on a decoding error keep the store. */
  function Import(storage: map<Name, Certificate>, wire: seq<byte>, decode: seq<byte> -> Option<Certificate>): (r: map<Name, Certificate>)
    ensures decode(wire).None? ==> r == storage
    ensures decode(wire).Some? ==>
      && r.Keys == storage.Keys + {KeyNameOf(decode(wire).value)}
      && r[KeyNameOf(decode(wire).value)] == decode(wire).value
      && (forall k :: k in storage && k != KeyNameOf(decode(wire).value) ==> r[k] == storage[k])
  {
    match decode(wire)
    case None => storage
    case Some(cert) => storage[KeyNameOf(cert) := cert]
  }

  /** A later import of a certificate for the same key replaces the earlier
      one: the earlier import leaves no trace. */
  lemma ImportOverwrites(storage: map<Name, Certificate>, w1: seq<byte>, w2: seq<byte>, decode: seq<byte> -> Option<Certificate>)
    requires decode(w1).Some? && decode(w2).Some?
    requires KeyNameOf(decode(w1).value) == KeyNameOf(decode(w2).value)
    ensures Import(Import(storage, w1, decode), w2, decode) == Import(storage, w2, decode)
  {
    var a := Import(Import(storage, w1, decode), w2, decode);
    var b := Import(storage, w2, decode);
    assert a.Keys == b.Keys;
    forall k | k in a ensures a[k] == b[k] {
    }
  }

  /** Importing the same wire twice is importing it once. */
  lemma ImportIdempotent(storage: map<Name, Certificate>, wire: seq<byte>, decode: seq<byte> -> Option<Certificate>)
    ensures Import(Import(storage, wire, decode), wire, decode) == Import(storage, wire, decode)
  {
    if decode(wire).Some? {
      ImportOverwrites(storage, wire, wire, decode);
    }
  }

  // ---------------------------------------------------------------------
  // Verification

  /** Why `verify` rejects a packet, each carrying the packet's name and,
      after the first, the key-locator name. `NoVerifier` is an error of
      `createVerifier` (a certificate whose key is not Ed25519), which is
      not wrapped; `BadSignature` is the wrapped error of the check. */
  datatype VerifyError =
    | NotSigned(packet: Name)
    | NoCertificate(packet: Name, key: Name)
    | NoVerifier(packet: Name, key: Name)
    | BadSignature(packet: Name, key: Name)

  /** `verify(pkt)` over a store: no key-locator name, then no certificate
      for it, then no verifier for the certificate, then a failing
      signature check, in that order. On success, the certificate used. */
  function Verify(storage: map<Name, Certificate>, pkt: Packet,
                  keyOk: Certificate -> bool, sigOk: (Certificate, Packet) -> bool): (r: Result<Certificate, VerifyError>)
    ensures r.Ok? <==> pkt.keyLocator.Some? && pkt.keyLocator.value in storage
                       && keyOk(storage[pkt.keyLocator.value]) && sigOk(storage[pkt.keyLocator.value], pkt)
    ensures r.Ok? ==> r.value == storage[pkt.keyLocator.value]
    ensures r == Err(NotSigned(pkt.name)) <==> pkt.keyLocator.None?
    ensures r.Err? && r.error.NoCertificate? <==> pkt.keyLocator.Some? && pkt.keyLocator.value !in storage
    ensures r.Err? && !r.error.NotSigned? ==> r.error.packet == pkt.name && r.error.key == pkt.keyLocator.value
    ensures r.Err? && r.error.NoVerifier? <==>
      pkt.keyLocator.Some? && pkt.keyLocator.value in storage && !keyOk(storage[pkt.keyLocator.value])
    ensures r.Err? && r.error.BadSignature? <==>
      pkt.keyLocator.Some? && pkt.keyLocator.value in storage
      && keyOk(storage[pkt.keyLocator.value]) && !sigOk(storage[pkt.keyLocator.value], pkt)
  {
    if pkt.keyLocator.None? then Err(NotSigned(pkt.name))
    else
      var key := pkt.keyLocator.value;
      match Get(storage, key)
      case None => Err(NoCertificate(pkt.name, key))
      case Some(cert) =>
        if !keyOk(cert) then Err(NoVerifier(pkt.name, key))
        else if !sigOk(cert, pkt) then Err(BadSignature(pkt.name, key))
        else Ok(cert)
  }

  /** After a certificate is imported, a packet whose key locator names its
      key verifies against exactly that certificate whenever the signature
      check accepts it. */
  lemma VerifyAfterImport(storage: map<Name, Certificate>, wire: seq<byte>, decode: seq<byte> -> Option<Certificate>,
                          pkt: Packet, keyOk: Certificate -> bool, sigOk: (Certificate, Packet) -> bool)
    requires decode(wire).Some? && pkt.keyLocator == Some(KeyNameOf(decode(wire).value))
    requires keyOk(decode(wire).value) && sigOk(decode(wire).value, pkt)
    ensures Verify(Import(storage, wire, decode), pkt, keyOk, sigOk) == Ok(decode(wire).value)
  {
  }

  /** Importing a certificate for one key does not change the verdict on a
      packet signed by another key, nor on an unsigned packet. */
  lemma VerifyUnaffected(storage: map<Name, Certificate>, wire: seq<byte>, decode: seq<byte> -> Option<Certificate>,
                         pkt: Packet, keyOk: Certificate -> bool, sigOk: (Certificate, Packet) -> bool)
    requires decode(wire).Some? ==> pkt.keyLocator != Some(KeyNameOf(decode(wire).value))
    ensures Verify(Import(storage, wire, decode), pkt, keyOk, sigOk) == Verify(storage, pkt, keyOk, sigOk)
  {
  }

  // ---------------------------------------------------------------------
  // The store object

  /** `CertStorage`, once its `readyEvent` has resolved: the generated key
      pair, the self certificate, and the imported certificates. */
  class CertStore {
    var storage: map<Name, Certificate>
    const nodeId: Name
    /** The signer (`prvKey`): named `nodeId/KEY/1`, signing with the
        generated private key. */
    const signer: Signing
    const publicKey: seq<byte>
    const cert: Certificate

    /** Key generation gives `publicKey` and `sign`; the clock readings are
        parameters. */
    constructor (nodeId: Name, publicKey: seq<byte>, sign: (Name, seq<byte>) -> seq<byte>,
                 versionTime: nat, startTime: nat, endTime: nat)
      ensures this.nodeId == nodeId && this.publicKey == publicKey
      ensures signer == SignedBy(KeyName(nodeId), sign)
      ensures cert == SelfCertificate(nodeId, publicKey, versionTime, startTime, endTime)
      ensures storage == map[]
    {
      this.nodeId := nodeId;
      this.publicKey := publicKey;
      signer := SignedBy(KeyName(nodeId), sign);
      cert := SelfCertificate(nodeId, publicKey, versionTime, startTime, endTime);
      storage := map[];
    }

    /** `exportSelfCert()`: the TLV encoding of the self certificate. */
    function ExportSelfCert(encode: Certificate -> seq<byte>): (wire: seq<byte>)
      ensures forall decode: seq<byte> -> Option<Certificate> :: decode(encode(cert)) == Some(cert) ==>
        decode(wire) == Some(cert)
    {
      encode(cert)
    }

    /** `importCert(wire)`. */
    method ImportCert(wire: seq<byte>, decode: seq<byte> -> Option<Certificate>)
      modifies this
      ensures storage == Import(old(storage), wire, decode)
    {
      match decode(wire)
      case None =>
      case Some(c) =>
        storage := storage[KeyNameOf(c) := c];
    }
  }

  /** Importing this node's own exported certificate, with a codec that
      round-trips it, files it under the signer's key name `nodeId/KEY/1`. */
  lemma ImportOwnCert(storage: map<Name, Certificate>, nodeId: Name, publicKey: seq<byte>,
                      versionTime: nat, startTime: nat, endTime: nat,
                      encode: Certificate -> seq<byte>, decode: seq<byte> -> Option<Certificate>)
    requires var c := SelfCertificate(nodeId, publicKey, versionTime, startTime, endTime);
      decode(encode(c)) == Some(c)
    ensures var c := SelfCertificate(nodeId, publicKey, versionTime, startTime, endTime);
      var r := Import(storage, encode(c), decode);
      KeyName(nodeId) in r && r[KeyName(nodeId)] == c
  {
    SelfCertificateKey(nodeId, publicKey, versionTime, startTime, endTime);
  }
}
