/** The NDN vocabulary the core works with: hierarchical names, data packets,
    SVS sync updates, and sequence-numbered production into a packet store
    (`pktStorage`). A dictionary keyed by `name.toString()` is keyed here by
    the name itself. */
module Ndn {
  import opened Wrappers
  import opened Bytes

  /** A name component: a generic text component, a sequence number
      (`SequenceNum.create`, printed `seq=N`) or a version
      (`Version.create`, printed `v=N`). */
  datatype Component = Generic(text: string) | SeqNum(number: nat) | Version(version: nat)

  type Name = seq<Component>

  /** `name.getPrefix(k)`: the first k components; a negative k counts
      from the end, as Array slice does. */
  function GetPrefix(n: Name, k: int): (r: Name)
    ensures 0 <= k <= |n| ==> r == n[..k]
    ensures k < 0 && |n| + k >= 0 ==> r == n[..|n| + k]
    ensures |r| <= |n| && r == n[..|r|]
  {
    if k > |n| then n
    else if k >= 0 then n[..k]
    else if |n| + k >= 0 then n[..|n| + k]
    else []
  }

  /** `name.getPrefix(name.length - 2)`: the name without its last two
      components. */
  function DropLastTwo(n: Name): (r: Name)
    ensures |n| >= 2 ==> |r| == |n| - 2 && n == r + n[|n| - 2..]
    ensures |n| < 2 ==> r == []
  {
    GetPrefix(n, |n| - 2)
  }

  /** `base.append(SequenceNum.create(k))`. */
  function SeqName(base: Name, k: nat): (r: Name)
    ensures |r| == |base| + 1 && r[|base|] == SeqNum(k)
  {
    base + [SeqNum(k)]
  }

  /** The sequence number of a name directly below `base`, if it is one. */
  function SeqIndex(base: Name, n: Name): (r: Option<nat>)
    ensures r.Some? ==> n == SeqName(base, r.value)
    ensures forall k: nat :: n == SeqName(base, k) ==> r == Some(k)
  {
    if |n| == |base| + 1 && n[..|base|] == base && n[|base|].SeqNum? then
      assert n == SeqName(base, n[|base|].number);
      Some(n[|base|].number)
    else None
  }

  lemma SeqNameInjective(base: Name, j: nat, k: nat)
    requires SeqName(base, j) == SeqName(base, k)
    ensures j == k
  {
    assert SeqName(base, j)[|base|] == SeqNum(j);
  }

  /** A data packet: name, FreshnessPeriod, content, and its signature's
      KeyLocator name (None when the packet is unsigned or the key locator
      holds no name) and value. */
  datatype Packet = Packet(name: Name, freshnessMs: nat, content: seq<byte>,
                           keyLocator: Option<Name>, signature: seq<byte>)

  /** Every produced packet carries `Data.FreshnessPeriod(60000)`. */
  const FreshnessMs: nat := 60000

  /** How the producer signs: not at all, or with a named signer whose
      signature value is a function of the packet's name and content. */
  datatype Signing = Unsigned | SignedBy(keyName: Name, sign: (Name, seq<byte>) -> seq<byte>)

  /** `new Data(name, Data.FreshnessPeriod(60000), content)`, then
      `signer.sign(data)` when there is a signer. */
  function MakePacket(name: Name, content: seq<byte>, signing: Signing): (p: Packet)
    ensures p.name == name && p.content == content && p.freshnessMs == FreshnessMs
    ensures p.keyLocator == if signing.SignedBy? then Some(signing.keyName) else None
  {
    match signing
    case Unsigned => Packet(name, FreshnessMs, content, None, [])
    case SignedBy(key, sign) => Packet(name, FreshnessMs, content, Some(key), sign(name, content))
  }

  /** An SVS update event: peer `id` now has sequence numbers lo..hi. */
  datatype SyncUpdate = SyncUpdate(id: Name, loSeqNum: nat, hiSeqNum: nat)

  // ---------------------------------------------------------------------
  // Production

  /** The producer's state: the sync node's `seqNum` and `pktStorage`. */
  datatype ProducerState = ProducerState(seqNum: nat, store: map<Name, Packet>)

  /** `produce(content)`: store one packet under `base/seq=(seqNum + 1)` and
      advance `seqNum` to it. */
  function Produce(base: Name, st: ProducerState, content: seq<byte>, signing: Signing): (r: ProducerState)
    ensures r.seqNum == st.seqNum + 1
    ensures r.store.Keys == st.store.Keys + {SeqName(base, r.seqNum)}
    ensures r.store[SeqName(base, r.seqNum)] == MakePacket(SeqName(base, r.seqNum), content, signing)
    ensures forall n :: n in st.store && n != SeqName(base, r.seqNum) ==> r.store[n] == st.store[n]
  {
    var k := st.seqNum + 1;
    var name := SeqName(base, k);
    ProducerState(k, st.store[name := MakePacket(name, content, signing)])
  }

  /** `produce(content, true)`: store the packet under `base/seq=0` and leave
      `seqNum` alone. */
  function ProduceSkipZero(base: Name, st: ProducerState, content: seq<byte>, signing: Signing): (r: ProducerState)
    ensures r.seqNum == st.seqNum
    ensures r.store.Keys == st.store.Keys + {SeqName(base, 0)}
    ensures r.store[SeqName(base, 0)] == MakePacket(SeqName(base, 0), content, signing)
    ensures forall n :: n in st.store && n != SeqName(base, 0) ==> r.store[n] == st.store[n]
  {
    var name := SeqName(base, 0);
    ProducerState(st.seqNum, st.store[name := MakePacket(name, content, signing)])
  }

  /** A run of productions, one per content, in order. */
  function ProduceAll(base: Name, st: ProducerState, contents: seq<seq<byte>>, signing: Signing): ProducerState
    decreases |contents|
  {
    if contents == [] then st
    else ProduceAll(base, Produce(base, st, contents[0], signing), contents[1..], signing)
  }

  /** After a run of productions from counter s the counter is s plus the
      number of contents, and sequence k holds content number k - s - 1. */
  lemma {:induction false} ProduceAllStores(base: Name, st: ProducerState, contents: seq<seq<byte>>, signing: Signing)
    ensures var r := ProduceAll(base, st, contents, signing);
      && r.seqNum == st.seqNum + |contents|
      && (forall k: nat :: st.seqNum < k <= st.seqNum + |contents| ==>
            SeqName(base, k) in r.store &&
            r.store[SeqName(base, k)] == MakePacket(SeqName(base, k), contents[k - st.seqNum - 1], signing))
    decreases |contents|
  {
    if contents != [] {
      var st' := Produce(base, st, contents[0], signing);
      ProduceAllStores(base, st', contents[1..], signing);
      var r := ProduceAll(base, st, contents, signing);
      forall k: nat | st.seqNum < k <= st.seqNum + |contents|
        ensures SeqName(base, k) in r.store
        ensures r.store[SeqName(base, k)] == MakePacket(SeqName(base, k), contents[k - st.seqNum - 1], signing)
      {
        if k > st.seqNum + 1 {
          assert contents[1..][k - st'.seqNum - 1] == contents[k - st.seqNum - 1];
        } else {
          FirstProduced(base, st, contents, signing);
        }
      }
    }
  }

  /** The first of a run of productions survives the rest of the run. */
  lemma FirstProduced(base: Name, st: ProducerState, contents: seq<seq<byte>>, signing: Signing)
    requires contents != []
    ensures var name := SeqName(base, st.seqNum + 1);
      var r := ProduceAll(base, st, contents, signing);
      name in r.store && r.store[name] == MakePacket(name, contents[0], signing)
  {
    var st' := Produce(base, st, contents[0], signing);
    var name := SeqName(base, st.seqNum + 1);
    assert name in st'.store && st'.store[name] == MakePacket(name, contents[0], signing);
    ProduceAllKeeps(base, st', contents[1..], signing);
    assert SeqIndex(base, name) == Some(st.seqNum + 1);
    assert !InRange(base, name, st'.seqNum + 1, st'.seqNum + |contents| - 1);
  }

  /** A run of productions leaves every entry outside its sequence range as
      it was, and adds nothing outside that range. */
  lemma {:induction false} ProduceAllKeeps(base: Name, st: ProducerState, contents: seq<seq<byte>>, signing: Signing)
    ensures var r := ProduceAll(base, st, contents, signing);
      && (forall n :: n in st.store && !InRange(base, n, st.seqNum + 1, st.seqNum + |contents|) ==>
            n in r.store && r.store[n] == st.store[n])
      && (forall n :: n in r.store ==> n in st.store || InRange(base, n, st.seqNum + 1, st.seqNum + |contents|))
    decreases |contents|
  {
    if contents != [] {
      var st' := Produce(base, st, contents[0], signing);
      ProduceAllKeeps(base, st', contents[1..], signing);
      var first := SeqName(base, st.seqNum + 1);
      assert SeqIndex(base, first) == Some(st.seqNum + 1);
    }
  }

  /** `n` is `base/seq=k` for some lo <= k <= hi. */
  predicate InRange(base: Name, n: Name, lo: nat, hi: nat) {
    var k := SeqIndex(base, n);
    k.Some? && lo <= k.value <= hi
  }

  /** The packet server (`dataPktServer`, the adapter's data handler):
      the stored packet for the requested name, or nothing. */
  function Serve(store: map<Name, Packet>, name: Name): (r: Option<Packet>)
    ensures r.Some? <==> name in store
    ensures r.Some? ==> r.value == store[name]
  {
    Get(store, name)
  }

  /** Serving what was produced: after a production the server hands out the
      new packet under its own name, with the given content, and a name that
      was never stored (neither before nor by this production) gets nothing. */
  lemma ServeAfterProduce(base: Name, st: ProducerState, content: seq<byte>, signing: Signing, name: Name)
    ensures var r := Produce(base, st, content, signing);
      var s := Serve(r.store, name);
      && (name == SeqName(base, r.seqNum) ==> s.Some? && s.value.name == name && s.value.content == content)
      && (name != SeqName(base, r.seqNum) ==> s == Serve(st.store, name))
  {
  }
}
