/** `NdnAdapter`, the Automerge-Repo network adapter over NDN: one node's
    name and sync prefix, its sequence-numbered packet store, and the
    handling of sync updates, which fetches a peer's packets in sequence
    order and turns them into `peer-candidate` and `message` events. */
module Adapter {
  import opened Wrappers
  import opened Bytes
  import opened Ndn
  import opened Utf8

  /** The foreign calls the handler makes: fetching a packet
      (`endpoint.consume`, None where it rejects), CBOR decoding (None where
      it throws) and `isValidMessage`. */
  datatype Env<!V> = Env(consume: Name -> Option<Packet>, decode: seq<byte> -> Option<V>, isValid: V -> bool)

  /** An event the adapter emits to the repository. */
  datatype Event<V> = PeerCandidate(peerId: string) | Message(message: V)

  // ---------------------------------------------------------------------
  // The packet store

  /** The store holds exactly the productions `base/seq=1` .. `base/seq=s`,
      each packet under its own name. */
  ghost predicate StoreValid(base: Name, seqNum: nat, store: map<Name, Packet>) {
    && (forall n :: n in store ==> InRange(base, n, 1, seqNum) && store[n].name == n)
    && (forall k: nat :: 1 <= k <= seqNum ==> SeqName(base, k) in store)
  }

  /** A production keeps the store valid. */
  lemma ProduceValid(base: Name, st: ProducerState, content: seq<byte>, signing: Signing)
    requires StoreValid(base, st.seqNum, st.store)
    ensures var r := Produce(base, st, content, signing);
      StoreValid(base, r.seqNum, r.store)
  {
    var r := Produce(base, st, content, signing);
    var name := SeqName(base, r.seqNum);
    assert SeqIndex(base, name) == Some(r.seqNum);
    forall n | n in r.store
      ensures InRange(base, n, 1, r.seqNum) && r.store[n].name == n
    {
      if n != name {
        assert InRange(base, n, 1, st.seqNum);
      }
    }
    forall k: nat | 1 <= k <= r.seqNum
      ensures SeqName(base, k) in r.store
    {
      if k < r.seqNum {
        assert SeqName(base, k) in st.store;
        assert SeqName(base, k) in st.store.Keys + {name};
      }
    }
  }

  /** On a valid store the packet server answers exactly the names that
      were produced, each with the packet of that name. */
  lemma ServeValid(base: Name, seqNum: nat, store: map<Name, Packet>, name: Name)
    requires StoreValid(base, seqNum, store)
    ensures Serve(store, name).Some? <==> InRange(base, name, 1, seqNum)
    ensures Serve(store, name).Some? ==> Serve(store, name).value.name == name
  {
    if InRange(base, name, 1, seqNum) {
      var k := SeqIndex(base, name).value;
      assert name == SeqName(base, k);
    }
  }

  // ---------------------------------------------------------------------
  // Handling a sync update

  /** What handling an update does: the names requested, in order, the
      events emitted, and whether the loop ran to the end (a fetch that
      fails or content that CBOR cannot decode ends the handler). */
  datatype Outcome<V> = Outcome(requested: seq<Name>, events: seq<Event<V>>, completed: bool)

  /** One iteration for sequence number i: None when the handler stops
      there, else the events it emits. The verification step in the loop
      is disabled in the source and does nothing here. */
  function Visit<V>(prefix: Name, i: nat, env: Env<V>): Option<seq<Event<V>>>
  {
    match env.consume(SeqName(prefix, i))
    case None => None
    case Some(data) => Classify(i, data.content, env)
  }

  /** What the content fetched for sequence number i yields: sequence 1 is
      the peer-id announcement, empty content is skipped, and other content
      is decoded and emitted if it is a valid message. */
  function Classify<V>(i: nat, content: seq<byte>, env: Env<V>): Option<seq<Event<V>>>
  {
    if i == 1 then Some([PeerCandidate(FromUtf8(content))])
    else if |content| == 0 then Some([])
    else match env.decode(content)
      case None => None
      case Some(m) => if env.isValid(m) then Some([Message(m)]) else Some([])
  }

  /** The handler stops at sequence number i exactly when the fetch fails,
      or when i is not 1 and its non-empty content does not decode. */
  lemma VisitStops<V>(prefix: Name, i: nat, env: Env<V>)
    ensures var data := env.consume(SeqName(prefix, i));
      Visit(prefix, i, env).None? <==>
        data.None? || (i != 1 && |data.value.content| > 0 && env.decode(data.value.content).None?)
  {
  }

  /** Sequence 1 yields exactly one event, a peer candidate carrying the
      UTF-8 decoding of its content, and never a message. */
  lemma VisitOne<V>(prefix: Name, env: Env<V>)
    requires env.consume(SeqName(prefix, 1)).Some?
    ensures Visit(prefix, 1, env) ==
      Some([PeerCandidate(FromUtf8(env.consume(SeqName(prefix, 1)).value.content))])
  {
  }

  /** Any other sequence number emits no peer candidate; it emits one
      message exactly when its content is non-empty, decodes, and passes
      the validity check, and that message is the decoded value. */
  lemma VisitOther<V>(prefix: Name, i: nat, env: Env<V>)
    requires i != 1 && Visit(prefix, i, env).Some?
    ensures var es := Visit(prefix, i, env).value;
      var content := env.consume(SeqName(prefix, i)).value.content;
      && |es| <= 1
      && (|es| == 1 <==> |content| > 0 && env.isValid(env.decode(content).value))
      && (|es| == 1 ==> es[0] == Message(env.decode(content).value))
  {
  }

  /** The handler's iterations, as one function of the sequence number. */
  function Steps<V>(prefix: Name, env: Env<V>): nat -> Option<seq<Event<V>>> {
    (i: nat) => Visit(prefix, i, env)
  }

  /** The iterations lo..hi, in increasing order, of a loop whose iteration
      i requests `prefix/seq=i` and then either stops (None) or emits some
      events and goes on. */
  function Trace<V>(prefix: Name, lo: nat, hi: nat, visit: nat -> Option<seq<Event<V>>>): Outcome<V>
    decreases hi + 1 - lo
  {
    if lo > hi then Outcome([], [], true)
    else match visit(lo)
      case None => Outcome([SeqName(prefix, lo)], [], false)
      case Some(es) =>
        var t := Trace(prefix, lo + 1, hi, visit);
        Outcome([SeqName(prefix, lo)] + t.requested, es + t.events, t.completed)
  }

  /** The loop requests every one of lo..hi when it completes, and at least
      one and no more than those when it stops. */
  lemma {:induction false} TraceLength<V>(prefix: Name, lo: nat, hi: nat, visit: nat -> Option<seq<Event<V>>>)
    ensures var t := Trace(prefix, lo, hi, visit);
      && |t.requested| <= (if lo <= hi then hi + 1 - lo else 0)
      && (t.completed ==> |t.requested| == (if lo <= hi then hi + 1 - lo else 0))
      && (!t.completed ==> |t.requested| > 0)
    decreases hi + 1 - lo
  {
    if lo <= hi && visit(lo).Some? {
      TraceLength(prefix, lo + 1, hi, visit);
    }
  }

  /** The loop requests `prefix/seq=lo`, `prefix/seq=lo+1`, ... in this
      order. */
  lemma {:induction false} TraceNames<V>(prefix: Name, lo: nat, hi: nat, visit: nat -> Option<seq<Event<V>>>)
    ensures forall j :: 0 <= j < |Trace(prefix, lo, hi, visit).requested| ==>
      Trace(prefix, lo, hi, visit).requested[j] == SeqName(prefix, lo + j)
    decreases hi + 1 - lo
  {
    if lo <= hi && visit(lo).Some? {
      TraceNames(prefix, lo + 1, hi, visit);
      var t := Trace(prefix, lo, hi, visit);
      var t' := Trace(prefix, lo + 1, hi, visit);
      assert t.requested == [SeqName(prefix, lo)] + t'.requested;
      forall j | 0 < j < |t.requested|
        ensures t.requested[j] == SeqName(prefix, lo + j)
      {
        assert t.requested[j] == t'.requested[j - 1];
      }
    }
  }

  /** The loop stops at the last name it requests, and only at an iteration
      that stops. */
  lemma {:induction false} TraceStops<V>(prefix: Name, lo: nat, hi: nat, visit: nat -> Option<seq<Event<V>>>)
    requires !Trace(prefix, lo, hi, visit).completed
    ensures var last := lo + |Trace(prefix, lo, hi, visit).requested| - 1;
      lo <= last <= hi && visit(last).None?
    decreases hi + 1 - lo
  {
    if visit(lo).Some? {
      TraceStops(prefix, lo + 1, hi, visit);
    }
  }

  /** Events come out in sequence order: running lo..hi is running lo..mid
      and then, if that completed, mid+1..hi. */
  lemma {:induction false} TraceSplit<V>(prefix: Name, lo: nat, mid: nat, hi: nat, visit: nat -> Option<seq<Event<V>>>)
    requires lo <= mid <= hi
    ensures var a := Trace(prefix, lo, mid, visit);
      var b := Trace(prefix, mid + 1, hi, visit);
      var t := Trace(prefix, lo, hi, visit);
      && (a.completed ==> t == Outcome(a.requested + b.requested, a.events + b.events, b.completed))
      && (!a.completed ==> t == a)
    decreases mid - lo
  {
    var es := visit(lo);
    if es.Some? {
      var b := Trace(prefix, mid + 1, hi, visit);
      if lo < mid {
        TraceSplit(prefix, lo + 1, mid, hi, visit);
        var a' := Trace(prefix, lo + 1, mid, visit);
        assert [SeqName(prefix, lo)] + (a'.requested + b.requested) == ([SeqName(prefix, lo)] + a'.requested) + b.requested;
        assert es.value + (a'.events + b.events) == (es.value + a'.events) + b.events;
      } else {
        assert Trace(prefix, lo, mid, visit) == Outcome([SeqName(prefix, lo)], es.value, true);
      }
    }
  }

  /** How many peer-candidate events a list holds. */
  function PeerCandidates<V>(es: seq<Event<V>>): nat {
    if es == [] then 0 else (if es[0].PeerCandidate? then 1 else 0) + PeerCandidates(es[1..])
  }

  lemma {:induction false} PeerCandidatesAppend<V>(a: seq<Event<V>>, b: seq<Event<V>>)
    ensures PeerCandidates(a + b) == PeerCandidates(a) + PeerCandidates(b)
    decreases |a|
  {
    if a != [] {
      assert (a + b)[0] == a[0];
      assert (a + b)[1..] == a[1..] + b;
      PeerCandidatesAppend(a[1..], b);
    } else {
      assert a + b == b;
    }
  }

  /** A whole update emits at most one peer candidate, only when it covers
      sequence 1, and every message it emits passed the validity check. */
  lemma {:induction false} TraceEvents<V>(prefix: Name, lo: nat, hi: nat, env: Env<V>)
    ensures var t := Trace(prefix, lo, hi, Steps(prefix, env));
      && PeerCandidates(t.events) <= (if lo <= 1 <= hi then 1 else 0)
      && (forall e :: e in t.events && e.Message? ==> env.isValid(e.message))
    decreases hi + 1 - lo
  {
    if lo <= hi {
      match Visit(prefix, lo, env)
      case None =>
      case Some(es) =>
        TraceEvents(prefix, lo + 1, hi, env);
        var t' := Trace(prefix, lo + 1, hi, Steps(prefix, env));
        PeerCandidatesAppend(es, t'.events);
        assert PeerCandidates(es) == (if lo == 1 then 1 else 0) by {
          if |es| == 1 {
            assert es[1..] == [];
          }
        }
    }
  }

  /** `connect(peerId)` on a fresh adapter stores the peer id's UTF-8 bytes
      at sequence 1, and a receiver that fetches that packet announces the
      same peer id (one without a leading byte-order mark, which the
      decoder strips). */
  lemma ConnectAnnounces<V>(base: Name, store: map<Name, Packet>, peerId: string, signing: Signing,
                            env: Env<V>)
    requires |peerId| == 0 || peerId[0] != ByteOrderMark
    requires var r := Produce(base, ProducerState(0, store), ToUtf8(peerId), signing);
      env.consume(SeqName(base, 1)) == Serve(r.store, SeqName(base, 1))
    ensures Produce(base, ProducerState(0, store), ToUtf8(peerId), signing).seqNum == 1
    ensures Visit(base, 1, env) == Some([PeerCandidate(peerId)])
  {
    FromToUtf8(peerId);
  }

  /** The handler's loop, with `requested` and `done` (the events so far)
      behind it: what remains, from i on, completes the whole outcome. */
  ghost predicate Pending<V>(whole: Outcome<V>, requested: seq<Name>, done: seq<Event<V>>, prefix: Name, i: nat, hi: nat,
                             visit: nat -> Option<seq<Event<V>>>)
  {
    var t := Trace(prefix, i, hi, visit);
    whole == Outcome(requested + t.requested, done + t.events, t.completed)
  }

  lemma PendingStart<V>(prefix: Name, lo: nat, hi: nat, visit: nat -> Option<seq<Event<V>>>)
    ensures Pending(Trace(prefix, lo, hi, visit), [], [], prefix, lo, hi, visit)
  {
    var t := Trace(prefix, lo, hi, visit);
    assert [] + t.requested == t.requested && [] + t.events == t.events;
  }

  lemma PendingStep<V>(whole: Outcome<V>, requested: seq<Name>, done: seq<Event<V>>, prefix: Name, i: nat, hi: nat,
                       visit: nat -> Option<seq<Event<V>>>)
    requires i <= hi && visit(i).Some?
    requires Pending(whole, requested, done, prefix, i, hi, visit)
    ensures Pending(whole, requested + [SeqName(prefix, i)], done + visit(i).value, prefix, i + 1, hi, visit)
  {
    var rest := Trace(prefix, i + 1, hi, visit);
    var es := visit(i).value;
    assert requested + ([SeqName(prefix, i)] + rest.requested) == (requested + [SeqName(prefix, i)]) + rest.requested;
    assert done + (es + rest.events) == (done + es) + rest.events;
  }

  lemma PendingHalt<V>(whole: Outcome<V>, requested: seq<Name>, done: seq<Event<V>>, prefix: Name, i: nat, hi: nat,
                       visit: nat -> Option<seq<Event<V>>>)
    requires i <= hi && visit(i).None?
    requires Pending(whole, requested, done, prefix, i, hi, visit)
    ensures whole == Outcome(requested + [SeqName(prefix, i)], done, false)
  {
    assert done + [] == done;
  }

  lemma PendingEnd<V>(whole: Outcome<V>, requested: seq<Name>, done: seq<Event<V>>, prefix: Name, i: nat, hi: nat,
                      visit: nat -> Option<seq<Event<V>>>)
    requires i > hi
    requires Pending(whole, requested, done, prefix, i, hi, visit)
    ensures whole == Outcome(requested, done, true)
  {
    assert requested + [] == requested && done + [] == done;
  }

  // ---------------------------------------------------------------------
  // The adapter object

  /** One adapter: the node's names, its signer, the sync node's `seqNum`,
      the packet store, the peer id given to `connect`, and the events
      emitted so far. */
  class NdnAdapter<V> {
    const syncPrefix: Name
    const signing: Signing
    const nodeId: Name
    const baseName: Name
    var seqNum: nat
    var pktStorage: map<Name, Packet>
    var peerId: Option<string>
    var events: seq<Event<V>>

    ghost predicate Valid()
      reads this
    {
      && baseName == nodeId + syncPrefix
      && StoreValid(baseName, seqNum, pktStorage)
    }

    /** The node id is the signer's name without its last two components
        (`KEY` and the key id), and the base name is the node id followed
        by the sync prefix. */
    constructor (syncPrefix: Name, keyName: Name, sign: (Name, seq<byte>) -> seq<byte>)
      ensures Valid()
      ensures nodeId == DropLastTwo(keyName) && baseName == nodeId + syncPrefix
      ensures this.syncPrefix == syncPrefix && signing == SignedBy(keyName, sign)
      ensures seqNum == 0 && pktStorage == map[] && peerId == None && events == []
    {
      this.syncPrefix := syncPrefix;
      signing := SignedBy(keyName, sign);
      nodeId := DropLastTwo(keyName);
      baseName := DropLastTwo(keyName) + syncPrefix;
      seqNum := 0;
      pktStorage := map[];
      peerId := None;
      events := [];
    }

    /** `produce(content)`: sign and store the packet for the next sequence
        number, then advance the counter. */
    method Produce(content: seq<byte>)
      requires Valid()
      modifies this
      ensures Valid()
      ensures ProducerState(seqNum, pktStorage) ==
        Ndn.Produce(baseName, ProducerState(old(seqNum), old(pktStorage)), content, signing)
      ensures peerId == old(peerId) && events == old(events)
    {
      ProduceValid(baseName, ProducerState(seqNum, pktStorage), content, signing);
      var k := seqNum + 1;
      var name := SeqName(baseName, k);
      var data := MakePacket(name, content, signing);
      pktStorage := pktStorage[name := data];
      seqNum := k;
    }

    /** `send(message)`: produce its CBOR encoding. */
    method Send(message: V, encode: V -> seq<byte>)
      requires Valid()
      modifies this
      ensures Valid()
      ensures ProducerState(seqNum, pktStorage) ==
        Ndn.Produce(baseName, ProducerState(old(seqNum), old(pktStorage)), encode(message), signing)
      ensures peerId == old(peerId) && events == old(events)
    {
      Produce(encode(message));
    }

    /** `connect(peerId)`: remember the peer id and announce it by
        producing its UTF-8 bytes. */
    method Connect(peer: string)
      requires Valid()
      modifies this
      ensures Valid()
      ensures peerId == Some(peer)
      ensures ProducerState(seqNum, pktStorage) ==
        Ndn.Produce(baseName, ProducerState(old(seqNum), old(pktStorage)), ToUtf8(peer), signing)
      ensures events == old(events)
    {
      peerId := Some(peer);
      Produce(ToUtf8(peer));
    }

    /** `handleSyncUpdate(update)`: fetch `update.id ++ syncPrefix ++
        seq=i` for i = lo..hi and emit events; returns the names fetched.
        The store, the counter and the peer id stay as they were. */
    method HandleSyncUpdate(update: SyncUpdate, env: Env<V>) returns (requested: seq<Name>)
      modifies this`events
      ensures var t := Trace(update.id + syncPrefix, update.loSeqNum, update.hiSeqNum, Steps(update.id + syncPrefix, env));
        requested == t.requested && events == old(events) + t.events
      ensures seqNum == old(seqNum) && pktStorage == old(pktStorage) && peerId == old(peerId)
    {
      var prefix := update.id + syncPrefix;
      ghost var visit := Steps(prefix, env);
      ghost var whole := Trace(prefix, update.loSeqNum, update.hiSeqNum, visit);
      var emitted: seq<Event<V>> := [];
      requested := [];
      var i: nat := update.loSeqNum;
      PendingStart(prefix, update.loSeqNum, update.hiSeqNum, visit);
      while i <= update.hiSeqNum
        invariant i >= update.loSeqNum && events == old(events)
        invariant Pending(whole, requested, emitted, prefix, i, update.hiSeqNum, visit)
        decreases update.hiSeqNum - i
      {
        var name := SeqName(prefix, i);
        var es := Visit(prefix, i, env);
        assert es == visit(i);
        if es.None? {
          PendingHalt(whole, requested, emitted, prefix, i, update.hiSeqNum, visit);
          requested := requested + [name];
          events := events + emitted;
          return;
        }
        PendingStep(whole, requested, emitted, prefix, i, update.hiSeqNum, visit);
        requested := requested + [name];
        emitted := emitted + es.value;
        i := i + 1;
      }
      events := events + emitted;
      PendingEnd(whole, requested, emitted, prefix, i, update.hiSeqNum, visit);
    }
  }
}
