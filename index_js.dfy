/** The earlier, unsigned variant of the application's NDN layer
    (src/index.js): the same node id, sync prefix and production scheme,
    but packets are stored unsigned, a sync update hands every fetched
    packet's patch to the callback without verification, and nothing
    received is cached. */
module UnsignedSyncApp {
  import opened Wrappers
  import opened Bytes
  import opened Ndn
  import opened Utf8
  import opened CertStorage
  import opened Receiving
  import opened SyncApp

  /** Iteration i of the unsigned handler: the fetched packet, or None
      when `endpoint.consume` rejects. */
  function Fetched(consume: Name -> Option<Packet>, prefix: Name): nat -> Option<Packet> {
    (i: nat) => consume(SeqName(prefix, i))
  }

  /** The unsigned handler hands on a patch for every fetched packet, in
      sequence order: the k-th patch is the text of the k-th packet that
      some sequence number of the range fetched. */
  lemma UnsignedPatches(consume: Name -> Option<Packet>, prefix: Name, lo: nat, end: nat, k: nat)
    requires k < |Delivered(lo, end, Fetched(consume, prefix))|
    ensures var ps := Delivered(lo, end, Fetched(consume, prefix));
      && Patches(ps, FromUtf8)[k] == FromUtf8(ps[k].content)
      && exists i: nat :: lo <= i < end && consume(SeqName(prefix, i)) == Some(ps[k])
  {
    var fetch := Fetched(consume, prefix);
    var ps := Delivered(lo, end, fetch);
    PatchesAt(ps, FromUtf8, k);
    DeliveredMembers(lo, end, fetch, ps[k]);
    var i: nat :| lo <= i < end && fetch(i) == Some(ps[k]);
    assert consume(SeqName(prefix, i)) == Some(ps[k]);
  }

  /** When every fetched packet passes verification, the signed handler
      hands the callback exactly the patches the unsigned one does. */
  lemma SignedAgreesWhenAllVerify(certs: map<Name, Certificate>, prefix: Name, env: SyncEnv, lo: nat, end: nat)
    requires forall i: nat :: lo <= i < end && env.consume(SeqName(prefix, i)).Some? ==>
      Verify(certs, env.consume(SeqName(prefix, i)).value, env.keyOk, env.sigOk).Ok?
    ensures Delivered(lo, end, Verified(certs, prefix, env)) == Delivered(lo, end, Fetched(env.consume, prefix))
  {
    SameFetches(lo, end, Verified(certs, prefix, env), Fetched(env.consume, prefix));
  }

  /** The same state as `SyncApp.App`, without the certificate side:
      the node id, whether `createSync` has made the sync node, its
      `seqNum`, the packet store, and the patches handed to the
      `applyPatch` callback so far. */
  class App {
    const nodeId: Name
    var syncStarted: bool
    var seqNum: nat
    var pktStorage: map<Name, Packet>
    var applied: seq<string>

    function BaseName(): Name {
      nodeId + SyncPrefix
    }

    /** Every stored packet is filed under its own name and unsigned. */
    ghost predicate Valid()
      reads this
    {
      forall n :: n in pktStorage ==> pktStorage[n].name == n && pktStorage[n].keyLocator.None?
    }

    /** Module loading: the node id from four random bytes, an empty
        store. */
    constructor (rnd: seq<byte>)
      requires |rnd| == 4
      ensures nodeId == NodeName(rnd) && Valid()
      ensures !syncStarted && seqNum == 0 && pktStorage == map[] && applied == []
    {
      nodeId := NodeName(rnd);
      syncStarted := false;
      seqNum := 0;
      pktStorage := map[];
      applied := [];
    }

    /** `produce(content, skipZeroFlag)`: store the UTF-8 bytes of the
        content, unsigned, at `seqNum + 1` advancing the counter, or at 0
        leaving it. Before `createSync` there is no sync node to read the
        counter from: the call throws (`thrown`) and nothing changes. */
    method Produce(content: string, skipZero: bool) returns (thrown: bool)
      requires Valid()
      modifies this`seqNum, this`pktStorage
      ensures Valid()
      ensures thrown <==> !syncStarted
      ensures thrown ==> seqNum == old(seqNum) && pktStorage == old(pktStorage)
      ensures syncStarted && skipZero ==>
        ProducerState(seqNum, pktStorage) ==
        ProduceSkipZero(BaseName(), ProducerState(old(seqNum), old(pktStorage)), ToUtf8(content), Unsigned)
      ensures syncStarted && !skipZero ==>
        ProducerState(seqNum, pktStorage) ==
        Ndn.Produce(BaseName(), ProducerState(old(seqNum), old(pktStorage)), ToUtf8(content), Unsigned)
    {
      thrown := !syncStarted;
      if thrown {
        return;
      }
      var k := if skipZero then 0 else seqNum + 1;
      var name := SeqName(BaseName(), k);
      pktStorage := pktStorage[name := MakePacket(name, ToUtf8(content), Unsigned)];
      if !skipZero {
        seqNum := k;
      }
    }

    /** `createSync()`: a new sync node with `seqNum` 0, then the nop
        patch at sequence 0. */
    method CreateSync()
      requires Valid()
      modifies this`syncStarted, this`seqNum, this`pktStorage
      ensures Valid() && syncStarted && seqNum == 0
      ensures ProducerState(seqNum, pktStorage) ==
        ProduceSkipZero(BaseName(), ProducerState(0, old(pktStorage)), ToUtf8(NopPatch), Unsigned)
    {
      syncStarted := true;
      seqNum := 0;
      var thrown := Produce(NopPatch, true);
    }

    /** `dataPktServer`: the packet stored under the requested name. */
    function DataPktServer(name: Name): (r: Option<Packet>)
      reads this
      ensures r.Some? <==> name in pktStorage
      ensures r.Some? ==> r.value == pktStorage[name]
      ensures Valid() && r.Some? ==> r.value.name == name && r.value.keyLocator.None?
    {
      Serve(pktStorage, name)
    }

    /** `handleSyncUpdate(update)`: for i from lo (0 when lo is 1) to hi,
        fetch and hand the patch on; a rejected fetch skips that i. */
    method HandleSyncUpdate(update: SyncUpdate, consume: Name -> Option<Packet>)
      modifies this`applied
      ensures applied == old(applied) +
        Patches(Delivered(FirstSeqNum(update.loSeqNum), update.hiSeqNum + 1,
                          Fetched(consume, update.id + SyncPrefix)), FromUtf8)
    {
      var lo := update.loSeqNum;
      if lo == 1 {
        lo := 0;
      }
      var prefix := update.id + SyncPrefix;
      applied := PatchRange(applied, lo, update.hiSeqNum + 1, Fetched(consume, prefix), FromUtf8);
    }
  }
}
