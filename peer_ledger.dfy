/** The per-peer ledger behind the reconciliation pass: for every non-LAN
    peer with traffic, the bytes transferred since the pass before are
    attributed to the peer's country.

    The three user-data slots the source hangs on a peer object become side
    tables keyed by peer identity: the init snapshot (bytes carried over from
    an earlier connection), the final snapshot (counters frozen when the peer
    was removed) and the ledger record (`PeerDetails`). */
module PeerLedger {
  import opened StatsTypes

  /** Stable identity of a peer object. */
  type PeerId = int

  /** The ledger record of one peer: its resolved country and the cumulative
      counts already attributed to that country. */
  datatype PeerDetails = PeerDetails(cc: string, sent: int, recv: int)

  /** What a pass reads of a live peer: whether it is LAN-local and its
      cumulative data bytes sent and received. */
  datatype PeerStats = PeerStats(lanLocal: bool, sent: int, recv: int)

  /** The ledger records and the per-country deltas of the pass so far. */
  datatype LedgerState = LedgerState(details: map<PeerId, PeerDetails>, updates: map<string, ByteCounts>)

  /** LAN-local peers and peers without traffic take no part in a pass. */
  predicate Counted(st: PeerStats)
  {
    !st.lanLocal && st.sent + st.recv > 0
  }

  /** The counters a pass attributes: the final snapshot if the peer has one,
      otherwise its live counters. */
  function Effective(id: PeerId, st: PeerStats, fin: map<PeerId, ByteCounts>): ByteCounts
  {
    if id in fin then fin[id] else ByteCounts(st.sent, st.recv)
  }

  /** The ledger record the pass works with: the existing one, or a new one
      whose country comes from the lookup and whose baseline is the init
      snapshot (or nothing). */
  function DetailsFor(details: map<PeerId, PeerDetails>, id: PeerId, lookup: seq<string>,
                      init: map<PeerId, ByteCounts>): (d: PeerDetails)
    ensures id in details ==> d == details[id]
    ensures id !in details ==> d.cc == ResolveCountry(lookup)
    ensures id !in details && id in init ==> d.sent == init[id].sent && d.recv == init[id].recv
    ensures id !in details && id !in init ==> d.sent == 0 && d.recv == 0
  {
    if id in details then details[id]
    else
      var cc := ResolveCountry(lookup);
      if id in init then PeerDetails(cc, init[id].sent, init[id].recv) else PeerDetails(cc, 0, 0)
  }

  /** What the accumulated deltas of a country amount to (nothing if absent). */
  function Accrued(updates: map<string, ByteCounts>, cc: string): ByteCounts
  {
    if cc in updates then updates[cc] else ByteCounts(0, 0)
  }

  /** The part of a delta that reaches the per-country map: all of it when
      sent + received is positive, none of it otherwise. */
  function Gate(d: ByteCounts): ByteCounts
  {
    if d.sent + d.recv > 0 then d else ByteCounts(0, 0)
  }

  function Minus(a: ByteCounts, b: ByteCounts): ByteCounts
  {
    ByteCounts(a.sent - b.sent, a.recv - b.recv)
  }

  /** One peer of a pass: a counted peer gets a ledger record, and a
      country once holding a delta keeps one. */
  function ReconcilePeer(s: LedgerState, id: PeerId, st: PeerStats, lookup: seq<string>,
                         init: map<PeerId, ByteCounts>, fin: map<PeerId, ByteCounts>): (r: LedgerState)
    ensures r.details.Keys == s.details.Keys + (if Counted(st) then {id} else {})
    ensures s.updates.Keys <= r.updates.Keys
  {
    if st.lanLocal || st.sent + st.recv <= 0 then s
    else
      var d := DetailsFor(s.details, id, lookup, init);
      var cur := Effective(id, st, fin);
      var diffSent := cur.sent - d.sent;
      var diffRecv := cur.recv - d.recv;
      var updates :=
        if diffSent + diffRecv > 0 then
          if d.cc in s.updates then
            s.updates[d.cc := ByteCounts(s.updates[d.cc].sent + diffSent, s.updates[d.cc].recv + diffRecv)]
          else
            s.updates[d.cc := ByteCounts(diffSent, diffRecv)]
        else s.updates;
      LedgerState(s.details[id := PeerDetails(d.cc, cur.sent, cur.recv)], updates)
  }

  /** What one peer does to the ledger and to the per-country deltas. */
  lemma ReconcilePeerEffect(s: LedgerState, id: PeerId, st: PeerStats, lookup: seq<string>,
                            init: map<PeerId, ByteCounts>, fin: map<PeerId, ByteCounts>)
    // a LAN-local peer or one without traffic contributes nothing and its record is untouched
    ensures !Counted(st) ==> ReconcilePeer(s, id, st, lookup, init, fin) == s
    // the baseline advances to the effective counters; the country is kept; no other record changes
    ensures Counted(st) ==>
      var r, d, cur := ReconcilePeer(s, id, st, lookup, init, fin), DetailsFor(s.details, id, lookup, init), Effective(id, st, fin);
      r.details == s.details[id := PeerDetails(d.cc, cur.sent, cur.recv)]
    // the delta since the baseline goes to the peer's country, and only when sent + received > 0
    ensures Counted(st) ==>
      var r, d := ReconcilePeer(s, id, st, lookup, init, fin), DetailsFor(s.details, id, lookup, init);
      var delta := Minus(Effective(id, st, fin), ByteCounts(d.sent, d.recv));
      && (forall cc :: cc != d.cc ==> Accrued(r.updates, cc) == Accrued(s.updates, cc))
      && Accrued(r.updates, d.cc) == ByteCounts(Accrued(s.updates, d.cc).sent + Gate(delta).sent,
                                                Accrued(s.updates, d.cc).recv + Gate(delta).recv)
      && r.updates.Keys == if delta.sent + delta.recv > 0 then s.updates.Keys + {d.cc} else s.updates.Keys
  {
  }

  /** A whole pass over the peers `ids`, in order: records are only ever
      added, and only for visited peers. */
  function ReconcileAll(s: LedgerState, ids: seq<PeerId>, stats: PeerId -> PeerStats,
                        lookup: PeerId -> seq<string>, init: map<PeerId, ByteCounts>,
                        fin: map<PeerId, ByteCounts>): (r: LedgerState)
    ensures s.details.Keys <= r.details.Keys
    ensures forall id :: id in r.details ==> id in s.details || id in ids
    ensures s.updates.Keys <= r.updates.Keys
    decreases |ids|
  {
    if ids == [] then s
    else
      var id := ids[|ids| - 1];
      ReconcilePeer(ReconcileAll(s, ids[..|ids| - 1], stats, lookup, init, fin), id, stats(id), lookup(id), init, fin)
  }

  /** Peers are visited list by list: the removed peers first, then the
      peers of every download. */
  function Flatten(lists: seq<seq<PeerId>>): seq<PeerId>
    decreases |lists|
  {
    if lists == [] then [] else Flatten(lists[..|lists| - 1]) + lists[|lists| - 1]
  }

  /** A pass visits exactly the peers of its lists. */
  lemma {:induction false} FlattenMembers(lists: seq<seq<PeerId>>)
    ensures forall id :: id in Flatten(lists) <==> exists i :: 0 <= i < |lists| && id in lists[i]
    decreases |lists|
  {
    if lists != [] {
      var front := lists[..|lists| - 1];
      FlattenMembers(front);
      forall id | id in Flatten(lists)
        ensures exists i :: 0 <= i < |lists| && id in lists[i]
      {
        if id in Flatten(front) {
          var i :| 0 <= i < |front| && id in front[i];
          assert lists[i] == front[i];
        }
      }
      forall id | exists i :: 0 <= i < |lists| && id in lists[i]
        ensures id in Flatten(lists)
      {
        var i :| 0 <= i < |lists| && id in lists[i];
        if i < |front| { assert front[i] == lists[i]; }
      }
    }
  }

  /** A peer is settled when its ledger baseline equals its effective counters. */
  ghost predicate Settled(s: LedgerState, id: PeerId, st: PeerStats, fin: map<PeerId, ByteCounts>)
  {
    Counted(st) ==>
      id in s.details && s.details[id].sent == Effective(id, st, fin).sent
      && s.details[id].recv == Effective(id, st, fin).recv
  }

  /** After a pass every counted peer it visited is settled. */
  lemma {:induction false} PassSettlesPeers(s: LedgerState, ids: seq<PeerId>, stats: PeerId -> PeerStats,
                                            lookup: PeerId -> seq<string>, init: map<PeerId, ByteCounts>,
                                            fin: map<PeerId, ByteCounts>)
    ensures forall id :: id in ids ==> Settled(ReconcileAll(s, ids, stats, lookup, init, fin), id, stats(id), fin)
    decreases |ids|
  {
    if ids != [] {
      var front := ids[..|ids| - 1];
      var last := ids[|ids| - 1];
      PassSettlesPeers(s, front, stats, lookup, init, fin);
      assert forall id :: id in ids ==> id in front || id == last;
    }
  }

  /** A pass over settled peers changes nothing. */
  lemma {:induction false} SettledPassIsIdle(s: LedgerState, ids: seq<PeerId>, stats: PeerId -> PeerStats,
                                             lookup: PeerId -> seq<string>, init: map<PeerId, ByteCounts>,
                                             fin: map<PeerId, ByteCounts>)
    requires forall id :: id in ids ==> Settled(s, id, stats(id), fin)
    ensures ReconcileAll(s, ids, stats, lookup, init, fin) == s
    decreases |ids|
  {
    if ids != [] {
      var front := ids[..|ids| - 1];
      var last := ids[|ids| - 1];
      assert forall id :: id in front ==> id in ids;
      SettledPassIsIdle(s, front, stats, lookup, init, fin);
      assert Settled(s, last, stats(last), fin);
      if Counted(stats(last)) {
        assert s.details[last := s.details[last]] == s.details;
      }
    }
  }

  /** A second pass with unchanged counters contributes no delta and leaves
      every ledger record as it was: the baselines telescope. */
  lemma SecondPassContributesNothing(s: LedgerState, ids: seq<PeerId>, stats: PeerId -> PeerStats,
                                     lookup: PeerId -> seq<string>, init: map<PeerId, ByteCounts>,
                                     fin: map<PeerId, ByteCounts>)
    ensures var first := ReconcileAll(s, ids, stats, lookup, init, fin);
            ReconcileAll(LedgerState(first.details, map[]), ids, stats, lookup, init, fin)
              == LedgerState(first.details, map[])
  {
    var first := ReconcileAll(s, ids, stats, lookup, init, fin);
    PassSettlesPeers(s, ids, stats, lookup, init, fin);
    SettledPassIsIdle(LedgerState(first.details, map[]), ids, stats, lookup, init, fin);
  }

  /** A first-seen peer whose init snapshot is (50, 30) and whose counters
      now read (120, 30) contributes (70, 0): the bytes carried over from the
      earlier connection are not attributed again. */
  lemma CarriedOverBytesDiscounted(id: PeerId)
    ensures var r := ReconcilePeer(LedgerState(map[], map[]), id, PeerStats(false, 120, 30), ["FR"],
                                   map[id := ByteCounts(50, 30)], map[]);
            r.updates == map["FR" := ByteCounts(70, 0)] && r.details[id] == PeerDetails("FR", 120, 30)
  {
  }

  /** The deltas attributed to one peer over successive passes, when its
      effective counters read `obs` and its baseline starts at `base`. */
  function Attributed(base: ByteCounts, obs: seq<ByteCounts>): ByteCounts
    decreases |obs|
  {
    if obs == [] then ByteCounts(0, 0)
    else
      var g := Gate(Minus(obs[|obs| - 1], Before(base, obs, |obs| - 1)));
      var before := Attributed(base, obs[..|obs| - 1]);
      ByteCounts(before.sent + g.sent, before.recv + g.recv)
  }

  /** The counters a peer showed before observation `i`. */
  function Before(base: ByteCounts, obs: seq<ByteCounts>, i: int): ByteCounts
    requires 0 <= i <= |obs|
  {
    if i == 0 then base else obs[i - 1]
  }

  /** Counters that never decrease, starting from `base`. */
  ghost predicate NonDecreasing(base: ByteCounts, obs: seq<ByteCounts>)
  {
    forall i :: 0 <= i < |obs| ==> obs[i].sent >= Before(base, obs, i).sent && obs[i].recv >= Before(base, obs, i).recv
  }

  /** With counters that never decrease, nothing is lost to the positivity
      gate: over any number of passes a peer is attributed exactly its
      growth since the baseline. */
  lemma {:induction false} AttributedTelescopes(base: ByteCounts, obs: seq<ByteCounts>)
    requires obs != []
    requires NonDecreasing(base, obs)
    ensures Attributed(base, obs) == Minus(obs[|obs| - 1], base)
    decreases |obs|
  {
    var n := |obs| - 1;
    var front := obs[..n];
    assert obs[n].sent >= Before(base, obs, n).sent && obs[n].recv >= Before(base, obs, n).recv;
    if n > 0 {
      forall i | 0 <= i < |front|
        ensures front[i].sent >= Before(base, front, i).sent && front[i].recv >= Before(base, front, i).recv
      {
        assert front[i] == obs[i] && Before(base, front, i) == Before(base, obs, i);
      }
      AttributedTelescopes(base, front);
    }
  }

  /** Successive passes over one peer whose effective counters read `obs`,
      each pass starting with no deltas: the resulting ledger, and the sum of
      what the passes attributed to the peer's country. */
  function Passes(details: map<PeerId, PeerDetails>, id: PeerId, obs: seq<ByteCounts>,
                  lookup: seq<string>, init: map<PeerId, ByteCounts>): (map<PeerId, PeerDetails>, ByteCounts)
    decreases |obs|
  {
    if obs == [] then (details, ByteCounts(0, 0))
    else
      var prev := Passes(details, id, obs[..|obs| - 1], lookup, init);
      var o := obs[|obs| - 1];
      var r := ReconcilePeer(LedgerState(prev.0, map[]), id, PeerStats(false, o.sent, o.recv), lookup, init, map[]);
      var a := Accrued(r.updates, DetailsFor(prev.0, id, lookup, init).cc);
      (r.details, ByteCounts(prev.1.sent + a.sent, prev.1.recv + a.recv))
  }

  /** Over successive passes a non-LAN peer with traffic keeps the country it
      was first given, its baseline follows its counters, and its country is
      attributed exactly `Attributed` of those counters from the baseline
      the first pass found (its record, its init snapshot, or nothing). */
  lemma {:induction false} PassesAttribute(details: map<PeerId, PeerDetails>, id: PeerId, obs: seq<ByteCounts>,
                                           lookup: seq<string>, init: map<PeerId, ByteCounts>)
    requires forall i :: 0 <= i < |obs| ==> obs[i].sent + obs[i].recv > 0
    ensures var d0 := DetailsFor(details, id, lookup, init);
            var p := Passes(details, id, obs, lookup, init);
            && p.1 == Attributed(ByteCounts(d0.sent, d0.recv), obs)
            && (obs != [] ==> id in p.0 && p.0[id] == PeerDetails(d0.cc, obs[|obs| - 1].sent, obs[|obs| - 1].recv))
    decreases |obs|
  {
    if obs != [] {
      var d0 := DetailsFor(details, id, lookup, init);
      var base := ByteCounts(d0.sent, d0.recv);
      var n := |obs| - 1;
      var front := obs[..n];
      PassesAttribute(details, id, front, lookup, init);
      var prev := Passes(details, id, front, lookup, init);
      var df := DetailsFor(prev.0, id, lookup, init);
      assert df.cc == d0.cc && ByteCounts(df.sent, df.recv) == Before(base, obs, n) by {
        if n > 0 { assert front[n - 1] == obs[n - 1]; }
      }
      PassStep(details, id, obs, lookup, init);
      AttributedStep(base, obs);
    }
  }

  /** The last of the passes, in terms of the ones before it. */
  lemma PassStep(details: map<PeerId, PeerDetails>, id: PeerId, obs: seq<ByteCounts>,
                 lookup: seq<string>, init: map<PeerId, ByteCounts>)
    requires obs != [] && obs[|obs| - 1].sent + obs[|obs| - 1].recv > 0
    ensures var prev := Passes(details, id, obs[..|obs| - 1], lookup, init);
            var df := DetailsFor(prev.0, id, lookup, init);
            var o := obs[|obs| - 1];
            var g := Gate(Minus(o, ByteCounts(df.sent, df.recv)));
            Passes(details, id, obs, lookup, init)
              == (prev.0[id := PeerDetails(df.cc, o.sent, o.recv)], ByteCounts(prev.1.sent + g.sent, prev.1.recv + g.recv))
  {
    var prev := Passes(details, id, obs[..|obs| - 1], lookup, init);
    OnePass(prev.0, id, obs[|obs| - 1], lookup, init);
  }

  /** One of those passes: the baseline moves to the counters, and the
      country's delta is the gated growth since the old baseline. */
  lemma OnePass(details: map<PeerId, PeerDetails>, id: PeerId, o: ByteCounts,
                lookup: seq<string>, init: map<PeerId, ByteCounts>)
    requires o.sent + o.recv > 0
    ensures var r := ReconcilePeer(LedgerState(details, map[]), id, PeerStats(false, o.sent, o.recv), lookup, init, map[]);
            var df := DetailsFor(details, id, lookup, init);
            && r.details == details[id := PeerDetails(df.cc, o.sent, o.recv)]
            && Accrued(r.updates, df.cc) == Gate(Minus(o, ByteCounts(df.sent, df.recv)))
  {
    ReconcilePeerEffect(LedgerState(details, map[]), id, PeerStats(false, o.sent, o.recv), lookup, init, map[]);
  }

  lemma AttributedStep(base: ByteCounts, obs: seq<ByteCounts>)
    requires obs != []
    ensures var g := Gate(Minus(obs[|obs| - 1], Before(base, obs, |obs| - 1)));
            Attributed(base, obs)
              == ByteCounts(Attributed(base, obs[..|obs| - 1]).sent + g.sent, Attributed(base, obs[..|obs| - 1]).recv + g.recv)
  {
  }

  /** With counters that never decrease, successive passes attribute to the
      peer's country exactly the growth of its counters since the baseline. */
  lemma PassesAttributeGrowth(details: map<PeerId, PeerDetails>, id: PeerId, obs: seq<ByteCounts>,
                              lookup: seq<string>, init: map<PeerId, ByteCounts>)
    requires obs != []
    requires forall i :: 0 <= i < |obs| ==> obs[i].sent + obs[i].recv > 0
    requires var d0 := DetailsFor(details, id, lookup, init); NonDecreasing(ByteCounts(d0.sent, d0.recv), obs)
    ensures var d0 := DetailsFor(details, id, lookup, init);
            Passes(details, id, obs, lookup, init).1 == Minus(obs[|obs| - 1], ByteCounts(d0.sent, d0.recv))
  {
    var d0 := DetailsFor(details, id, lookup, init);
    PassesAttribute(details, id, obs, lookup, init);
    AttributedTelescopes(ByteCounts(d0.sent, d0.recv), obs);
  }
}
