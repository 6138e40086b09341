/** What the two application-level sync-update handlers do with a peer's
    range of sequence numbers: every iteration fetches one packet, a failure
    of any kind skips that sequence number, and each packet obtained has its
    content decoded as text and handed to the patch callback, in sequence
    order. The signed variant also caches a packet once its patch has been
    applied without an exception. The decoding (`fromUtf8`, which is
    `Utf8.FromUtf8` at every use) is a parameter here. */
module Receiving {
  import opened Wrappers
  import opened Bytes
  import opened Ndn

  /** The handlers start at 0 when the update starts at 1, so that the
      packet a producer stores at sequence 0 is fetched too. */
  function FirstSeqNum(lo: nat): (r: nat)
    ensures lo == 1 ==> r == 0
    ensures lo != 1 ==> r == lo
  {
    if lo == 1 then 0 else lo
  }

  /** The packet one iteration obtains, as a list of zero or one. */
  function Obtained<P>(o: Option<P>): (r: seq<P>)
    ensures o.None? ==> r == []
    ensures o.Some? ==> r == [o.value]
  {
    match o
    case None => []
    case Some(p) => [p]
  }

  /** The packets the iterations lo, lo+1, ..., end-1 obtain, in this
      order; `fetch(i)` is None where iteration i fails. */
  function Delivered<P>(lo: nat, end: nat, fetch: nat -> Option<P>): seq<P>
    decreases end - lo
  {
    if lo >= end then [] else Obtained(fetch(lo)) + Delivered(lo + 1, end, fetch)
  }

  /** A packet is delivered exactly when some iteration of the range
      obtains it. */
  lemma {:induction false} DeliveredMembers<P>(lo: nat, end: nat, fetch: nat -> Option<P>, p: P)
    ensures p in Delivered(lo, end, fetch) <==> exists i: nat :: lo <= i < end && fetch(i) == Some(p)
    decreases end - lo
  {
    if lo < end {
      DeliveredMembers(lo + 1, end, fetch, p);
      assert p in Delivered(lo, end, fetch) <==> p in Obtained(fetch(lo)) || p in Delivered(lo + 1, end, fetch);
      if p in Obtained(fetch(lo)) {
        assert fetch(lo) == Some(p);
      }
    }
  }

  /** Packets come out in sequence order: the range lo..end-1 delivers
      what lo..mid-1 delivers, followed by what mid..end-1 delivers. */
  lemma {:induction false} DeliveredSplit<P>(lo: nat, mid: nat, end: nat, fetch: nat -> Option<P>)
    requires lo <= mid <= end
    ensures Delivered(lo, end, fetch) == Delivered(lo, mid, fetch) + Delivered(mid, end, fetch)
    decreases mid - lo
  {
    if lo < mid {
      DeliveredSplit(lo + 1, mid, end, fetch);
      var o := Obtained(fetch(lo));
      assert o + (Delivered(lo + 1, mid, fetch) + Delivered(mid, end, fetch))
          == (o + Delivered(lo + 1, mid, fetch)) + Delivered(mid, end, fetch);
    } else {
      assert [] + Delivered(mid, end, fetch) == Delivered(mid, end, fetch);
    }
  }

  /** A failing iteration does not stop the loop: the range delivers what
      the iterations before it and those after it deliver. */
  lemma {:induction false} DeliveredSkips<P>(lo: nat, i: nat, end: nat, fetch: nat -> Option<P>)
    requires lo <= i < end && fetch(i).None?
    ensures Delivered(lo, end, fetch) == Delivered(lo, i, fetch) + Delivered(i + 1, end, fetch)
  {
    DeliveredSplit(lo, i, end, fetch);
    var rest := Delivered(i + 1, end, fetch);
    var o := Obtained(fetch(i));
    assert Delivered(i, end, fetch) == o + rest;
    assert o == [];
    assert o + rest == rest;
  }

  /** The range delivers at most one packet per sequence number, and
      exactly one per sequence number when no iteration fails. */
  lemma {:induction false} DeliveredCount<P>(lo: nat, end: nat, fetch: nat -> Option<P>)
    ensures |Delivered(lo, end, fetch)| <= (if lo <= end then end - lo else 0)
    ensures (forall i: nat :: lo <= i < end ==> fetch(i).Some?) ==>
      |Delivered(lo, end, fetch)| == (if lo <= end then end - lo else 0)
    decreases end - lo
  {
    if lo < end {
      DeliveredCount(lo + 1, end, fetch);
    }
  }

  /** The patches handed to the callback for a list of packets: the UTF-8
      decoding of each one's content, in order. */
  function Patches(ps: seq<Packet>, decode: seq<byte> -> string): (r: seq<string>)
    ensures |r| == |ps|
  {
    if ps == [] then [] else [decode(ps[0].content)] + Patches(ps[1..], decode)
  }

  /** Patch k is the decoding of packet k's content. */
  lemma {:induction false} PatchesAt(ps: seq<Packet>, decode: seq<byte> -> string, k: nat)
    requires k < |ps|
    ensures Patches(ps, decode)[k] == decode(ps[k].content)
    decreases k
  {
    if k > 0 {
      PatchesAt(ps[1..], decode, k - 1);
      assert Patches(ps, decode)[k] == Patches(ps[1..], decode)[k - 1];
    }
  }

  // ---------------------------------------------------------------------
  // The signed variant: apply, then cache

  /** The state the signed handler changes: the patches handed to the
      callback so far, and the packet store. */
  datatype Inbox = Inbox(applied: seq<string>, store: map<Name, Packet>)

  /** One verified packet: its patch is handed to the callback, and the
      packet is cached under its own name when the callback returns
      normally (`accepts`); an exception from the callback skips the
      caching. */
  function Deliver(st: Inbox, p: Packet, accepts: string -> bool, decode: seq<byte> -> string): Inbox {
    var patch := decode(p.content);
    Inbox(st.applied + [patch], if accepts(patch) then st.store[p.name := p] else st.store)
  }

  function DeliverAll(st: Inbox, ps: seq<Packet>, accepts: string -> bool, decode: seq<byte> -> string): Inbox
    decreases |ps|
  {
    if ps == [] then st else DeliverAll(Deliver(st, ps[0], accepts, decode), ps[1..], accepts, decode)
  }

  /** Every delivered packet's patch reaches the callback once, in order. */
  lemma {:induction false} DeliverAllApplied(st: Inbox, ps: seq<Packet>, accepts: string -> bool, decode: seq<byte> -> string)
    ensures DeliverAll(st, ps, accepts, decode).applied == st.applied + Patches(ps, decode)
    decreases |ps|
  {
    if ps != [] {
      var patch := decode(ps[0].content);
      var st' := Deliver(st, ps[0], accepts, decode);
      DeliverAllApplied(st', ps[1..], accepts, decode);
      assert DeliverAll(st, ps, accepts, decode) == DeliverAll(st', ps[1..], accepts, decode);
      assert Patches(ps, decode) == [patch] + Patches(ps[1..], decode);
      assert (st.applied + [patch]) + Patches(ps[1..], decode) == st.applied + ([patch] + Patches(ps[1..], decode));
    } else {
      assert Patches(ps, decode) == [];
      assert st.applied + [] == st.applied;
    }
  }

  /** Caching removes nothing, and every entry it adds or replaces is a
      delivered packet filed under its own name whose patch the callback
      accepted. */
  lemma {:induction false} DeliverAllCaches(st: Inbox, ps: seq<Packet>, accepts: string -> bool, decode: seq<byte> -> string)
    ensures var r := DeliverAll(st, ps, accepts, decode).store;
      && (forall n :: n in st.store ==> n in r)
      && (forall n :: n in r ==>
            (n in st.store && r[n] == st.store[n]) ||
            (r[n] in ps && r[n].name == n && accepts(decode(r[n].content))))
    decreases |ps|
  {
    if ps != [] {
      var st' := Deliver(st, ps[0], accepts, decode);
      DeliverAllCaches(st', ps[1..], accepts, decode);
      var r := DeliverAll(st, ps, accepts, decode).store;
      forall n | n in r
        ensures (n in st.store && r[n] == st.store[n]) ||
                (r[n] in ps && r[n].name == n && accepts(decode(r[n].content)))
      {
        if r[n] in ps[1..] {
          assert r[n] in ps;
        }
      }
    }
  }

  /** A handler's loop at iteration i of a range ending before `end`:
      delivering the rest of the range to the state so far gives `whole`. */
  ghost predicate Remaining(whole: Inbox, st: Inbox, i: nat, end: nat, fetch: nat -> Option<Packet>,
                            accepts: string -> bool, decode: seq<byte> -> string)
  {
    whole == DeliverAll(st, Delivered(i, end, fetch), accepts, decode)
  }

  /** An iteration that obtains a packet delivers it. */
  lemma RemainingStep(whole: Inbox, st: Inbox, i: nat, end: nat, fetch: nat -> Option<Packet>,
                      accepts: string -> bool, decode: seq<byte> -> string)
    requires i < end && fetch(i).Some?
    requires Remaining(whole, st, i, end, fetch, accepts, decode)
    ensures Remaining(whole, Deliver(st, fetch(i).value, accepts, decode), i + 1, end, fetch, accepts, decode)
  {
    var rest := Delivered(i + 1, end, fetch);
    assert Delivered(i, end, fetch) == [fetch(i).value] + rest;
    assert ([fetch(i).value] + rest)[1..] == rest;
  }

  /** An iteration that fails changes nothing. */
  lemma RemainingSkip(whole: Inbox, st: Inbox, i: nat, end: nat, fetch: nat -> Option<Packet>,
                      accepts: string -> bool, decode: seq<byte> -> string)
    requires i < end && fetch(i).None?
    requires Remaining(whole, st, i, end, fetch, accepts, decode)
    ensures Remaining(whole, st, i + 1, end, fetch, accepts, decode)
  {
    var rest := Delivered(i + 1, end, fetch);
    assert Delivered(i, end, fetch) == [] + rest;
    assert [] + rest == rest;
  }

  /** Past the end of the range the state is the whole outcome. */
  lemma RemainingEnd(whole: Inbox, st: Inbox, i: nat, end: nat, fetch: nat -> Option<Packet>,
                     accepts: string -> bool, decode: seq<byte> -> string)
    requires i >= end
    requires Remaining(whole, st, i, end, fetch, accepts, decode)
    ensures whole == st
  {
  }

  /** The signed handler's loop: for i from lo up to end - 1, fetch and
      check packet i (`fetch`), hand its patch to the callback and cache
      it when the callback returns normally. */
  method DeliverRange(st: Inbox, lo: nat, end: nat, fetch: nat -> Option<Packet>,
                      accepts: string -> bool, decode: seq<byte> -> string) returns (r: Inbox)
    ensures r == DeliverAll(st, Delivered(lo, end, fetch), accepts, decode)
  {
    ghost var whole := DeliverAll(st, Delivered(lo, end, fetch), accepts, decode);
    var patches, store := st.applied, st.store;
    var i := lo;
    while i < end
      invariant i >= lo
      invariant Remaining(whole, Inbox(patches, store), i, end, fetch, accepts, decode)
      decreases end - i
    {
      ghost var before := Inbox(patches, store);
      var got := fetch(i);
      if got.Some? {
        RemainingStep(whole, before, i, end, fetch, accepts, decode);
        var patch := decode(got.value.content);
        patches := patches + [patch];
        if accepts(patch) {
          store := store[got.value.name := got.value];
        }
        assert Inbox(patches, store) == Deliver(before, got.value, accepts, decode);
      } else {
        RemainingSkip(whole, before, i, end, fetch, accepts, decode);
      }
      i := i + 1;
    }
    RemainingEnd(whole, Inbox(patches, store), i, end, fetch, accepts, decode);
    r := Inbox(patches, store);
  }

  /** The same for the unsigned handler, which only hands patches on. */
  lemma PatchesStep(applied: seq<string>, i: nat, end: nat, fetch: nat -> Option<Packet>, decode: seq<byte> -> string)
    requires i < end
    ensures applied + Patches(Delivered(i, end, fetch), decode) ==
      (if fetch(i).Some? then applied + [decode(fetch(i).value.content)] else applied)
        + Patches(Delivered(i + 1, end, fetch), decode)
  {
    var rest := Delivered(i + 1, end, fetch);
    if fetch(i).Some? {
      var ps := [fetch(i).value] + rest;
      assert ps[1..] == rest;
      assert Patches(ps, decode) == [decode(fetch(i).value.content)] + Patches(rest, decode);
    } else {
      assert [] + rest == rest;
    }
  }

  /** The unsigned handler's loop: for i from lo up to end - 1, fetch
      packet i (`fetch`) and hand its patch to the callback; what the
      callback does with it does not matter to the loop. */
  method PatchRange(applied: seq<string>, lo: nat, end: nat, fetch: nat -> Option<Packet>,
                    decode: seq<byte> -> string) returns (r: seq<string>)
    ensures r == applied + Patches(Delivered(lo, end, fetch), decode)
  {
    r := applied;
    var i := lo;
    while i < end
      invariant i >= lo
      invariant r + Patches(Delivered(i, end, fetch), decode) == applied + Patches(Delivered(lo, end, fetch), decode)
      decreases end - i
    {
      PatchesStep(r, i, end, fetch, decode);
      var got := fetch(i);
      if got.Some? {
        r := r + [decode(got.value.content)];
      }
      i := i + 1;
    }
    assert Delivered(i, end, fetch) == [];
    assert r + [] == r;
  }

  /** Two fetches that agree on the range deliver the same packets. */
  lemma {:induction false} SameFetches<P>(lo: nat, end: nat, f: nat -> Option<P>, g: nat -> Option<P>)
    requires forall i: nat :: lo <= i < end ==> f(i) == g(i)
    ensures Delivered(lo, end, f) == Delivered(lo, end, g)
    decreases end - lo
  {
    if lo < end {
      SameFetches(lo + 1, end, f, g);
    }
  }
}
