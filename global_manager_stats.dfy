/** The global transfer statistics of the client: cumulative byte counters
    and their rate averages, the smoothed rate snapshot taken on timer ticks,
    the per-peer ledger reconciled into per-country traffic records, and the
    aggregate of the per-country statistics reported by remote peers.

    Each moving average is modelled by the log of the samples it has been
    fed. The country lookup, a peer's live counters and the clock are
    parameters of the methods that use them. */
module GlobalStats {
  import opened StatsTypes
  import opened MapSums
  import opened PeerLedger
  import opened CountryAggregation
  import opened RemoteStatsAggregation

  /** A country traffic record, updated in place by the reconciliation pass. */
  class CountryDetails {
    const cc: string
    var totalSent: int
    var totalRecv: int
    var lastSent: int
    var lastRecv: int
    var sentAverage: seq<int>
    var recvAverage: seq<int>

    /** The record's current value. */
    function View(): CountryRecord
      reads this
    {
      CountryRecord(cc, totalSent, totalRecv, lastSent, lastRecv, sentAverage, recvAverage)
    }

    constructor (cc: string)
      ensures View() == NewRecord(cc)
    {
      this.cc := cc;
      totalSent, totalRecv, lastSent, lastRecv := 0, 0, 0, 0;
      sentAverage, recvAverage := [], [];
    }

    /** The country had a delta in this pass. */
    method ApplyDelta(diffSent: int, diffRecv: int)
      modifies this
      ensures View() == RecordDelta(old(View()), ByteCounts(diffSent, diffRecv))
    {
      if diffSent > 0 {
        lastSent := diffSent;
        totalSent := totalSent + diffSent;
        sentAverage := sentAverage + [diffSent];
      } else {
        lastSent := 0;
        sentAverage := sentAverage + [diffSent];
      }
      if diffRecv > 0 {
        lastRecv := diffRecv;
        totalRecv := totalRecv + diffRecv;
        recvAverage := recvAverage + [diffRecv];
      } else {
        lastRecv := 0;
        recvAverage := recvAverage + [diffRecv];
      }
    }

    /** The synthetic all-countries record at the end of a pass. */
    method ApplyTotal(totalDiffSent: int, totalDiffRecv: int)
      modifies this
      ensures View() == RecordTotal(old(View()), totalDiffSent, totalDiffRecv)
    {
      if totalDiffSent > 0 {
        lastSent := totalDiffSent;
        totalSent := totalSent + totalDiffSent;
        sentAverage := sentAverage + [totalDiffSent];
      } else {
        lastSent := 0;
        sentAverage := sentAverage + [0];
      }
      if totalDiffRecv > 0 {
        lastRecv := totalDiffRecv;
        totalRecv := totalRecv + totalDiffRecv;
        recvAverage := recvAverage + [totalDiffRecv];
      } else {
        lastRecv := 0;
        recvAverage := recvAverage + [0];
      }
    }

    /** A record the pass did not touch. */
    method DecayLatest()
      modifies this
      ensures View() == Decay(old(View()))
    {
      lastRecv := 0;
      lastSent := 0;
      recvAverage := recvAverage + [0];
      sentAverage := sentAverage + [0];
    }
  }

  /** The admission loop of `addRemoteStats`: each positive average of the
      sample is added to its target in the originator's map. */
  method AddSample(m: map<string, int>, stats: seq<CountryStat>) returns (m': map<string, int>)
    ensures m' == AddStats(m, stats)
  {
    m' := m;
    assert stats[0..] == stats;
    for i := 0 to |stats|
      invariant AddStats(m', stats[i..]) == AddStats(m, stats)
    {
      assert stats[i..][1..] == stats[i + 1..];
      var rc := stats[i];
      if rc.averageSent > 0 {
        if rc.cc !in m' {
          m' := m'[rc.cc := rc.averageSent];
        } else {
          m' := m'[rc.cc := m'[rc.cc] + rc.averageSent];
        }
      }
    }
  }

  /** The eviction loop of `addRemoteStats` for one entry: each positive
      average is taken off its target; a missing target or a result below 0
      is an inconsistency that is only reported, and a result of 0 removes
      the target. */
  method SubtractSample(m: map<string, int>, stats: seq<CountryStat>) returns (m': map<string, int>)
    ensures m' == SubtractStats(m, stats)
  {
    m' := m;
    assert stats[0..] == stats;
    for i := 0 to |stats|
      invariant SubtractStats(m', stats[i..]) == SubtractStats(m, stats)
    {
      assert stats[i..][1..] == stats[i + 1..];
      var rc := stats[i];
      if rc.averageSent > 0 && rc.cc in m' {
        var temp := m'[rc.cc] - rc.averageSent;
        if temp == 0 {
          m' := m' - {rc.cc};
        } else if temp > 0 {
          m' := m'[rc.cc := temp];
        }
      }
    }
  }

  /** Whether remote samples waiting to be flushed have times that are
      pairwise distinct and not yet in the history. */
  ghost predicate FreshTimes(pending: map<Address, RemoteStats>, h: seq<HistoryEntry>)
  {
    && (forall a, b :: a in pending && b in pending && a != b ==> pending[a].monoTime != pending[b].monoTime)
    && (forall a :: a in pending ==> pending[a].monoTime !in Times(h))
  }

  /** The history and aggregate after adding the waiting samples of the
      addresses in `order`, left to right, the i-th addition at `clock(i)`. */
  ghost function FlushAll(h: seq<HistoryEntry>, agg: AggregateMap, order: seq<Address>,
                          pending: map<Address, RemoteStats>, lookup: Address -> seq<string>,
                          clock: nat -> int): (seq<HistoryEntry>, AggregateMap)
    requires forall a :: a in order ==> a in pending
    decreases |order|
  {
    if order == [] then (h, agg)
    else
      var prev := FlushAll(h, agg, order[..|order| - 1], pending, lookup, clock);
      var s := pending[order[|order| - 1]];
      var w := AddRemote(prev.0, prev.1, EntryFor(s, lookup(s.address)), clock(|order| - 1));
      (w.history, w.aggregate)
  }

  /** One more address of a flush: `FlushAll` over `order + [a]` adds the
      sample of `a` after those of `order`, at `clock(|order|)`. */
  lemma FlushAllStep(h: seq<HistoryEntry>, agg: AggregateMap, order: seq<Address>, a: Address,
                     pending: map<Address, RemoteStats>, lookup: Address -> seq<string>,
                     clock: nat -> int)
    requires forall b :: b in order ==> b in pending
    requires a in pending
    ensures forall b :: b in order + [a] ==> b in pending
    ensures var prev := FlushAll(h, agg, order, pending, lookup, clock);
            var w := AddRemote(prev.0, prev.1, EntryFor(pending[a], lookup(pending[a].address)), clock(|order|));
            FlushAll(h, agg, order + [a], pending, lookup, clock) == (w.history, w.aggregate)
  {
    assert (order + [a])[..|order|] == order;
  }

  /** Part way through a flush: `order` lists, without repetition, the
      addresses already taken out, and the waiting samples are the original
      ones of the remaining addresses. */
  ghost predicate FlushProgress(order: seq<Address>, pending: map<Address, RemoteStats>,
                                orig: map<Address, RemoteStats>)
  {
    && (forall i, j :: 0 <= i < j < |order| ==> order[i] != order[j])
    && (set b | b in order) + pending.Keys == orig.Keys
    && (forall b :: b in order ==> b !in pending)
    && (forall b :: b in pending ==> pending[b] == orig[b])
  }

  /** Moving one address from the waiting samples to the flush order keeps
      the flush in progress. */
  lemma FlushOrderStep(order: seq<Address>, a: Address, pending: map<Address, RemoteStats>,
                       orig: map<Address, RemoteStats>)
    requires FlushProgress(order, pending, orig)
    requires a in pending
    ensures FlushProgress(order + [a], pending - {a}, orig)
    ensures forall b :: b in order + [a] ==> b in orig
    ensures pending[a] == orig[a]
  {
    assert (set b | b in order + [a]) == (set b | b in order) + {a};
  }

  /** A flush with nothing left waiting has taken out every original
      address exactly once. */
  lemma FlushOrderDone(order: seq<Address>, pending: map<Address, RemoteStats>, orig: map<Address, RemoteStats>)
    requires FlushProgress(order, pending, orig) && pending == map[]
    ensures (set a | a in order) == orig.Keys
    ensures forall i, j :: 0 <= i < j < |order| ==> order[i] != order[j]
  {
    assert pending.Keys == {};
  }

  /** Adding one waiting sample, whose time is the only one the history can
      gain, leaves the rest fresh. */
  lemma FreshTimesStep(pending: map<Address, RemoteStats>, a: Address, h: seq<HistoryEntry>, h': seq<HistoryEntry>)
    requires FreshTimes(pending, h)
    requires a in pending
    requires Times(h') <= Times(h) + {pending[a].monoTime}
    ensures FreshTimes(pending - {a}, h')
  {
    forall b | b in pending - {a}
      ensures (pending - {a})[b].monoTime !in Times(h')
    {
      assert pending[b].monoTime != pending[a].monoTime;
    }
  }

  class GlobalManagerStats {
    // cumulative byte counters
    var totalDataBytesReceived: int
    var totalProtocolBytesReceived: int
    var totalDiscarded: int
    var totalDataBytesSent: int
    var totalProtocolBytesSent: int

    // rate averages, as the samples fed to them
    var dataReceiveSpeed: seq<int>
    var protocolReceiveSpeed: seq<int>
    var dataReceiveSpeedNoLan: seq<int>
    var protocolReceiveSpeedNoLan: seq<int>
    var dataSendSpeed: seq<int>
    var protocolSendSpeed: seq<int>
    var dataSendSpeedNoLan: seq<int>
    var protocolSendSpeedNoLan: seq<int>

    // the smoothed rate
    var smoothLastSent: int
    var smoothLastReceived: int
    var currentSmoothingWindow: int
    var currentSmoothingInterval: int
    var smoothedSendRate: seq<int>
    var smoothedReceiveRate: seq<int>
    /** The combined totals when the smoothed averages were last created. */
    ghost var smoothSendBase: int
    ghost var smoothReceiveBase: int

    // the per-peer user data: init snapshots, final snapshots, ledger records
    var peerInit: map<PeerId, ByteCounts>
    var peerFinal: map<PeerId, ByteCounts>
    var peerDetails: map<PeerId, PeerDetails>
    /** Peers removed since the last reconciliation pass. */
    var removedPeers: seq<PeerId>

    // the per-country records; the synthetic one is filed under the empty code
    var countryDetails: map<string, CountryDetails>
    var countryTotal: CountryDetails

    // remote statistics
    var pendingStats: map<Address, RemoteStats>
    var aggregateStats: AggregateMap
    var statsHistory: seq<HistoryEntry>

    /** The smoothing interval can divide a tick count, and each smoothed
        average adds up to the growth of its combined total since the
        average was created. */
    ghost predicate SmoothingValid()
      reads this`currentSmoothingInterval, this`smoothedSendRate, this`smoothedReceiveRate,
            this`smoothLastSent, this`smoothLastReceived, this`smoothSendBase, this`smoothReceiveBase
    {
      currentSmoothingInterval != 0 && SendSmoothingValid() && ReceiveSmoothingValid()
    }

    ghost predicate SendSmoothingValid()
      reads this`smoothedSendRate, this`smoothLastSent, this`smoothSendBase
    {
      Sum(smoothedSendRate) == smoothLastSent - smoothSendBase
    }

    ghost predicate ReceiveSmoothingValid()
      reads this`smoothedReceiveRate, this`smoothLastReceived, this`smoothReceiveBase
    {
      Sum(smoothedReceiveRate) == smoothLastReceived - smoothReceiveBase
    }

    /** Each record is filed under its own code, and the synthetic record
        under the empty code. */
    ghost predicate CountriesValid()
      reads this`countryDetails, this`countryTotal
    {
      && TotalCC in countryDetails && countryDetails[TotalCC] == countryTotal
      && (forall cc :: cc in countryDetails ==> countryDetails[cc].cc == cc)
    }

    /** The history is ordered by time and holds at most 100 entries, and
        every stored running sum is positive. */
    ghost predicate RemoteValid()
      reads this`statsHistory, this`aggregateStats
    {
      Sorted(statsHistory) && |statsHistory| <= MaxHistory && StoredPositive(aggregateStats)
    }

    /** The values of all country records. */
    ghost function Countries(): map<string, CountryRecord>
      reads this`countryDetails, countryDetails.Values
    {
      map cc | cc in countryDetails :: countryDetails[cc].View()
    }

    constructor (smoothingWindow: int, smoothingInterval: int)
      requires smoothingInterval != 0
      ensures SmoothingValid() && CountriesValid() && RemoteValid()
      ensures totalDataBytesReceived == 0 && totalProtocolBytesReceived == 0 && totalDiscarded == 0
      ensures totalDataBytesSent == 0 && totalProtocolBytesSent == 0
      ensures smoothLastSent == 0 && smoothLastReceived == 0
      ensures currentSmoothingWindow == smoothingWindow && currentSmoothingInterval == smoothingInterval
      ensures smoothedSendRate == [] && smoothedReceiveRate == []
      ensures dataReceiveSpeed == [] && protocolReceiveSpeed == [] && dataReceiveSpeedNoLan == [] && protocolReceiveSpeedNoLan == []
      ensures dataSendSpeed == [] && protocolSendSpeed == [] && dataSendSpeedNoLan == [] && protocolSendSpeedNoLan == []
      ensures peerInit == map[] && peerFinal == map[] && peerDetails == map[] && removedPeers == []
      ensures Countries() == map[TotalCC := NewRecord(TotalCC)]
      ensures pendingStats == map[] && aggregateStats == map[] && statsHistory == []
    {
      var total := new CountryDetails(TotalCC);
      countryTotal := total;
      totalDataBytesReceived, totalProtocolBytesReceived, totalDiscarded := 0, 0, 0;
      totalDataBytesSent, totalProtocolBytesSent := 0, 0;
      dataReceiveSpeed, protocolReceiveSpeed, dataReceiveSpeedNoLan, protocolReceiveSpeedNoLan := [], [], [], [];
      dataSendSpeed, protocolSendSpeed, dataSendSpeedNoLan, protocolSendSpeedNoLan := [], [], [], [];
      smoothLastSent, smoothLastReceived := 0, 0;
      currentSmoothingWindow, currentSmoothingInterval := smoothingWindow, smoothingInterval;
      smoothedSendRate, smoothedReceiveRate := [], [];
      smoothSendBase, smoothReceiveBase := 0, 0;
      peerInit, peerFinal, peerDetails, removedPeers := map[], map[], map[], [];
      countryDetails := map[TotalCC := total];
      pendingStats, aggregateStats, statsHistory := map[], map[], [];
    }

    // ----- byte counters -----

    method Discarded(length: int)
      modifies this`totalDiscarded
      ensures totalDiscarded == old(totalDiscarded) + length
    {
      totalDiscarded := totalDiscarded + length;
    }

    method DataBytesReceived(length: int, lan: bool)
      modifies this`totalDataBytesReceived, this`dataReceiveSpeed, this`dataReceiveSpeedNoLan
      ensures totalDataBytesReceived == old(totalDataBytesReceived) + length
      ensures dataReceiveSpeed == old(dataReceiveSpeed) + [length]
      ensures dataReceiveSpeedNoLan == if lan then old(dataReceiveSpeedNoLan) else old(dataReceiveSpeedNoLan) + [length]
    {
      totalDataBytesReceived := totalDataBytesReceived + length;
      if !lan {
        dataReceiveSpeedNoLan := dataReceiveSpeedNoLan + [length];
      }
      dataReceiveSpeed := dataReceiveSpeed + [length];
    }

    method ProtocolBytesReceived(length: int, lan: bool)
      modifies this`totalProtocolBytesReceived, this`protocolReceiveSpeed, this`protocolReceiveSpeedNoLan
      ensures totalProtocolBytesReceived == old(totalProtocolBytesReceived) + length
      ensures protocolReceiveSpeed == old(protocolReceiveSpeed) + [length]
      ensures protocolReceiveSpeedNoLan == if lan then old(protocolReceiveSpeedNoLan) else old(protocolReceiveSpeedNoLan) + [length]
    {
      totalProtocolBytesReceived := totalProtocolBytesReceived + length;
      if !lan {
        protocolReceiveSpeedNoLan := protocolReceiveSpeedNoLan + [length];
      }
      protocolReceiveSpeed := protocolReceiveSpeed + [length];
    }

    method DataBytesSent(length: int, lan: bool)
      modifies this`totalDataBytesSent, this`dataSendSpeed, this`dataSendSpeedNoLan
      ensures totalDataBytesSent == old(totalDataBytesSent) + length
      ensures dataSendSpeed == old(dataSendSpeed) + [length]
      ensures dataSendSpeedNoLan == if lan then old(dataSendSpeedNoLan) else old(dataSendSpeedNoLan) + [length]
    {
      totalDataBytesSent := totalDataBytesSent + length;
      if !lan {
        dataSendSpeedNoLan := dataSendSpeedNoLan + [length];
      }
      dataSendSpeed := dataSendSpeed + [length];
    }

    method ProtocolBytesSent(length: int, lan: bool)
      modifies this`totalProtocolBytesSent, this`protocolSendSpeed, this`protocolSendSpeedNoLan
      ensures totalProtocolBytesSent == old(totalProtocolBytesSent) + length
      ensures protocolSendSpeed == old(protocolSendSpeed) + [length]
      ensures protocolSendSpeedNoLan == if lan then old(protocolSendSpeedNoLan) else old(protocolSendSpeedNoLan) + [length]
    {
      totalProtocolBytesSent := totalProtocolBytesSent + length;
      if !lan {
        protocolSendSpeedNoLan := protocolSendSpeedNoLan + [length];
      }
      protocolSendSpeed := protocolSendSpeed + [length];
    }

    // ----- the timer tick -----

    /** One timer tick with the configured smoothing window and interval.
        On a smoothing tick a changed window replaces both smoothed averages
        (and adopts the configured interval), then the growth of the combined
        totals since the last snapshot is fed to them and the snapshot
        advances. Returns whether the reconciliation pass (every 60 ticks)
        and the remote flush (every 10 ticks) are due. Divisibility does not
        depend on the sign convention of the remainder. */
    method Tick(tickCount: int, configWindow: int, configInterval: int) returns (reconcileDue: bool, flushDue: bool)
      requires SmoothingValid()
      // the configured interval is adopted only when the window changes
      requires tickCount % currentSmoothingInterval == 0 && currentSmoothingWindow != configWindow ==> configInterval != 0
      modifies this`currentSmoothingWindow, this`currentSmoothingInterval, this`smoothedSendRate,
               this`smoothedReceiveRate, this`smoothLastSent, this`smoothLastReceived,
               this`smoothSendBase, this`smoothReceiveBase
      ensures SmoothingValid()
      ensures tickCount % old(currentSmoothingInterval) != 0 ==>
        && currentSmoothingWindow == old(currentSmoothingWindow) && currentSmoothingInterval == old(currentSmoothingInterval)
        && smoothedSendRate == old(smoothedSendRate) && smoothedReceiveRate == old(smoothedReceiveRate)
        && smoothLastSent == old(smoothLastSent) && smoothLastReceived == old(smoothLastReceived)
      ensures tickCount % old(currentSmoothingInterval) == 0 ==>
        var reset := old(currentSmoothingWindow) != configWindow;
        && currentSmoothingWindow == configWindow
        && currentSmoothingInterval == (if reset then configInterval else old(currentSmoothingInterval))
        && smoothLastSent == totalDataBytesSent + totalProtocolBytesSent
        && smoothLastReceived == totalDataBytesReceived + totalProtocolBytesReceived
        && smoothedSendRate == (if reset then [] else old(smoothedSendRate)) + [smoothLastSent - old(smoothLastSent)]
        && smoothedReceiveRate == (if reset then [] else old(smoothedReceiveRate)) + [smoothLastReceived - old(smoothLastReceived)]
      ensures reconcileDue == (tickCount % 60 == 0) && flushDue == (tickCount % 10 == 0)
    {
      if tickCount % currentSmoothingInterval == 0 {
        if currentSmoothingWindow != configWindow {
          ResetSmoothing(configWindow, configInterval);
        }
        FeedSmoothing();
      }
      reconcileDue := tickCount % 60 == 0;
      flushDue := tickCount % 10 == 0;
    }

    /** A changed smoothing window replaces both smoothed averages with
        empty ones and adopts the configured interval. */
    method ResetSmoothing(configWindow: int, configInterval: int)
      requires configInterval != 0
      modifies this`currentSmoothingWindow, this`currentSmoothingInterval, this`smoothedSendRate,
               this`smoothedReceiveRate, this`smoothSendBase, this`smoothReceiveBase
      ensures SmoothingValid()
      ensures currentSmoothingWindow == configWindow && currentSmoothingInterval == configInterval
      ensures smoothedSendRate == [] && smoothedReceiveRate == []
    {
      currentSmoothingWindow := configWindow;
      currentSmoothingInterval := configInterval;
      smoothedReceiveRate := [];
      smoothedSendRate := [];
      smoothSendBase := smoothLastSent;
      smoothReceiveBase := smoothLastReceived;
    }

    /** The growth of the combined totals since the last snapshot goes to the
        smoothed averages, and the snapshot advances. */
    method FeedSmoothing()
      requires SmoothingValid()
      modifies this`smoothedSendRate, this`smoothedReceiveRate, this`smoothLastSent, this`smoothLastReceived
      ensures SmoothingValid()
      ensures smoothLastSent == totalDataBytesSent + totalProtocolBytesSent
      ensures smoothLastReceived == totalDataBytesReceived + totalProtocolBytesReceived
      ensures smoothedSendRate == old(smoothedSendRate) + [smoothLastSent - old(smoothLastSent)]
      ensures smoothedReceiveRate == old(smoothedReceiveRate) + [smoothLastReceived - old(smoothLastReceived)]
    {
      var up := totalDataBytesSent + totalProtocolBytesSent;
      var down := totalDataBytesReceived + totalProtocolBytesReceived;
      FeedSend(up);
      FeedReceive(down);
    }

    /** The send half of `FeedSmoothing`. */
    method FeedSend(up: int)
      requires SendSmoothingValid()
      modifies this`smoothedSendRate, this`smoothLastSent
      ensures SendSmoothingValid()
      ensures smoothLastSent == up && smoothedSendRate == old(smoothedSendRate) + [up - old(smoothLastSent)]
    {
      SumAppend(smoothedSendRate, up - smoothLastSent);
      smoothedSendRate := smoothedSendRate + [up - smoothLastSent];
      smoothLastSent := up;
    }

    /** The receive half of `FeedSmoothing`. */
    method FeedReceive(down: int)
      requires ReceiveSmoothingValid()
      modifies this`smoothedReceiveRate, this`smoothLastReceived
      ensures ReceiveSmoothingValid()
      ensures smoothLastReceived == down && smoothedReceiveRate == old(smoothedReceiveRate) + [down - old(smoothLastReceived)]
    {
      SumAppend(smoothedReceiveRate, down - smoothLastReceived);
      smoothedReceiveRate := smoothedReceiveRate + [down - smoothLastReceived];
      smoothLastReceived := down;
    }

    // ----- peer listener callbacks -----

    /** A peer starts transferring: counters it carries over from an earlier
        connection are remembered, when there are any. */
    method SaveInitialStats(id: PeerId, sent: int, recv: int)
      modifies this`peerInit
      ensures peerInit == if sent + recv > 0 then old(peerInit)[id := ByteCounts(sent, recv)] else old(peerInit)
    {
      if sent + recv > 0 {
        peerInit := peerInit[id := ByteCounts(sent, recv)];
      }
    }

    /** A peer is removed: when it has traffic its counters are frozen and it
        is queued for the next reconciliation pass. */
    method PeerRemoved(id: PeerId, sent: int, recv: int)
      modifies this`peerFinal, this`removedPeers
      ensures peerFinal == if sent + recv > 0 then old(peerFinal)[id := ByteCounts(sent, recv)] else old(peerFinal)
      ensures removedPeers == if sent + recv > 0 then old(removedPeers) + [id] else old(removedPeers)
    {
      if sent + recv > 0 {
        peerFinal := peerFinal[id := ByteCounts(sent, recv)];
        removedPeers := removedPeers + [id];
      }
    }

    // ----- the reconciliation pass -----

    /** The reconciliation pass dispatched every 60 ticks. `downloads` holds
        the peer list of every download that has a peer manager; `stats`
        gives a live peer's LAN flag and counters, `lookup` its country
        details. */
    method Reconcile(downloads: seq<seq<PeerId>>, stats: PeerId -> PeerStats, lookup: PeerId -> seq<string>)
      requires CountriesValid()
      modifies this`peerDetails, this`removedPeers, this`countryDetails, countryDetails.Values
      ensures CountriesValid()
      ensures removedPeers == []
      ensures var pass := ReconcileAll(LedgerState(old(peerDetails), map[]), Flatten([old(removedPeers)] + downloads),
                                       stats, lookup, peerInit, peerFinal);
              && peerDetails == pass.details
              && Countries() == Aggregate(old(Countries()), pass.updates)
    {
      ghost var before := Countries();
      var updates := ReconcilePeers(downloads, stats, lookup);
      assert Countries() == before;
      ApplyCountryUpdates(updates);
    }

    /** The peer half of the pass: hands over the removed peers, visits them
        and then every download's peers, and returns the per-country deltas. */
    method ReconcilePeers(downloads: seq<seq<PeerId>>, stats: PeerId -> PeerStats, lookup: PeerId -> seq<string>)
      returns (updates: map<string, ByteCounts>)
      modifies this`peerDetails, this`removedPeers
      ensures removedPeers == []
      ensures var pass := ReconcileAll(LedgerState(old(peerDetails), map[]), Flatten([old(removedPeers)] + downloads),
                                       stats, lookup, peerInit, peerFinal);
              peerDetails == pass.details && updates == pass.updates
    {
      ghost var start := LedgerState(peerDetails, map[]);
      var peerLists := CollectPeerLists(downloads);
      updates := map[];
      for i := 0 to |peerLists|
        invariant removedPeers == []
        invariant LedgerState(peerDetails, updates) == ReconcileAll(start, Flatten(peerLists[..i]), stats, lookup, peerInit, peerFinal)
      {
        assert peerLists[..i + 1][..i] == peerLists[..i];
        updates := VisitPeers(updates, peerLists[i], stats, lookup, start, Flatten(peerLists[..i]));
      }
      assert peerLists[..|peerLists|] == peerLists;
    }

    /** The lists of peers a pass visits: the removed peers, handed over and
        cleared, then the peers of every download; empty lists are skipped. */
    method CollectPeerLists(downloads: seq<seq<PeerId>>) returns (peerLists: seq<seq<PeerId>>)
      modifies this`removedPeers
      ensures removedPeers == []
      ensures Flatten(peerLists) == Flatten([old(removedPeers)] + downloads)
    {
      ghost var all := [removedPeers] + downloads;
      peerLists := [];
      if removedPeers != [] {
        peerLists := [removedPeers];
        removedPeers := [];
      }
      assert Flatten(peerLists) == Flatten(all[..1]);
      for k := 0 to |downloads|
        invariant Flatten(peerLists) == Flatten(all[..k + 1])
      {
        assert all[..k + 2][..k + 1] == all[..k + 1];
        if downloads[k] != [] {
          ghost var prev := peerLists;
          peerLists := peerLists + [downloads[k]];
          assert peerLists[..|peerLists| - 1] == prev;
        }
      }
      assert all[..|downloads| + 1] == all;
    }

    /** The peers of one list, in order, after the peers `visited` so far. */
    method VisitPeers(updates: map<string, ByteCounts>, peers: seq<PeerId>, stats: PeerId -> PeerStats,
                      lookup: PeerId -> seq<string>, ghost start: LedgerState, ghost visited: seq<PeerId>)
      returns (updates': map<string, ByteCounts>)
      requires LedgerState(peerDetails, updates) == ReconcileAll(start, visited, stats, lookup, peerInit, peerFinal)
      modifies this`peerDetails
      ensures LedgerState(peerDetails, updates') == ReconcileAll(start, visited + peers, stats, lookup, peerInit, peerFinal)
    {
      updates' := updates;
      assert visited + peers[..0] == visited;
      for j := 0 to |peers|
        invariant LedgerState(peerDetails, updates') == ReconcileAll(start, visited + peers[..j], stats, lookup, peerInit, peerFinal)
      {
        assert (visited + peers[..j + 1])[..|visited| + j] == visited + peers[..j];
        assert ReconcileAll(start, visited + peers[..j + 1], stats, lookup, peerInit, peerFinal)
            == ReconcilePeer(ReconcileAll(start, visited + peers[..j], stats, lookup, peerInit, peerFinal),
                             peers[j], stats(peers[j]), lookup(peers[j]), peerInit, peerFinal);
        updates' := VisitPeer(updates', peers[j], stats(peers[j]), lookup(peers[j]));
      }
      assert peers[..|peers|] == peers;
    }

    /** One peer of the pass. */
    method VisitPeer(updates: map<string, ByteCounts>, id: PeerId, st: PeerStats, dets: seq<string>)
      returns (updates': map<string, ByteCounts>)
      modifies this`peerDetails
      ensures LedgerState(peerDetails, updates') == ReconcilePeer(LedgerState(old(peerDetails), updates), id, st, dets, peerInit, peerFinal)
    {
      updates' := updates;
      if st.lanLocal {
        return;
      }
      var sent := st.sent;
      var recv := st.recv;
      if sent + recv > 0 {
        var details: PeerDetails;
        if id in peerDetails {
          details := peerDetails[id];
        } else {
          details := PeerDetails(if |dets| < 1 then UnknownCountry else dets[0], 0, 0);
          if id in peerInit {
            details := details.(sent := peerInit[id].sent, recv := peerInit[id].recv);
          }
          peerDetails := peerDetails[id := details];
        }
        if id in peerFinal {
          sent := peerFinal[id].sent;
          recv := peerFinal[id].recv;
        }
        var diffSent := sent - details.sent;
        var diffRecv := recv - details.recv;
        if diffSent + diffRecv > 0 {
          var cc := details.cc;
          if cc !in updates' {
            updates' := updates'[cc := ByteCounts(diffSent, diffRecv)];
          } else {
            updates' := updates'[cc := ByteCounts(updates'[cc].sent + diffSent, updates'[cc].recv + diffRecv)];
          }
        }
        peerDetails := peerDetails[id := details.(sent := sent, recv := recv)];
      }
    }

    /** The country half of the pass: the deltas go to their records (created
        when missing), their positive parts to the synthetic record, and every
        record the pass did not touch decays. */
    method ApplyCountryUpdates(updates: map<string, ByteCounts>)
      requires CountriesValid()
      modifies this`countryDetails, countryDetails.Values
      ensures CountriesValid()
      ensures Countries() == Aggregate(old(Countries()), updates)
    {
      var totalDiffSent, totalDiffRecv := ApplyDeltasToRecords(updates);
      UpdateTotal(totalDiffSent, totalDiffRecv);
      DecayRecords(updates.Keys + {TotalCC});
    }

    /** Applies each country's delta to its record, creating missing records,
        and returns the sums of the positive deltas. */
    method ApplyDeltasToRecords(updates: map<string, ByteCounts>) returns (totalDiffSent: int, totalDiffRecv: int)
      requires CountriesValid()
      modifies this`countryDetails, countryDetails.Values
      ensures CountriesValid()
      ensures forall o :: o in countryDetails.Values ==> o in old(countryDetails.Values) || fresh(o)
      ensures Countries() == ApplyDeltas(old(Countries()), updates, updates.Keys)
      ensures totalDiffSent == PassSent(updates) && totalDiffRecv == PassRecv(updates)
    {
      ghost var before := Countries();
      totalDiffSent, totalDiffRecv := 0, 0;
      var todo := updates.Keys;
      ghost var done: set<string> := {};
      while todo != {}
        invariant todo !! done && todo + done == updates.Keys
        invariant CountriesValid()
        invariant forall o :: o in countryDetails.Values ==> o in old(countryDetails.Values) || fresh(o)
        invariant Countries() == ApplyDeltas(before, updates, done)
        invariant totalDiffSent == PartialSent(updates, done) && totalDiffRecv == PartialRecv(updates, done)
        decreases todo
      {
        var cc :| cc in todo;
        totalDiffSent, totalDiffRecv := ApplyOneDelta(updates, before, done, cc, totalDiffSent, totalDiffRecv);
        done := done + {cc};
        todo := todo - {cc};
      }
      assert done == updates.Keys;
    }

    /** The loop body of `ApplyDeltasToRecords`: one more country's delta
        goes to its record and its positive parts to the running sums. */
    method ApplyOneDelta(updates: map<string, ByteCounts>, ghost before: map<string, CountryRecord>, ghost done: set<string>,
                         cc: string, totalDiffSent: int, totalDiffRecv: int)
      returns (totalDiffSent': int, totalDiffRecv': int)
      requires CountriesValid() && done <= updates.Keys && cc in updates && cc !in done
      requires Countries() == ApplyDeltas(before, updates, done)
      requires totalDiffSent == PartialSent(updates, done) && totalDiffRecv == PartialRecv(updates, done)
      modifies this`countryDetails, countryDetails.Values
      ensures CountriesValid()
      ensures forall o :: o in countryDetails.Values ==> o in old(countryDetails.Values) || fresh(o)
      ensures Countries() == ApplyDeltas(before, updates, done + {cc})
      ensures totalDiffSent' == PartialSent(updates, done + {cc}) && totalDiffRecv' == PartialRecv(updates, done + {cc})
    {
      var diffSent, diffRecv := updates[cc].sent, updates[cc].recv;
      UpdateCountry(cc, diffSent, diffRecv);
      ApplyDeltasStep(before, updates, done, cc);
      totalDiffSent', totalDiffRecv' := totalDiffSent, totalDiffRecv;
      if diffSent > 0 {
        totalDiffSent' := totalDiffSent' + diffSent;
      }
      if diffRecv > 0 {
        totalDiffRecv' := totalDiffRecv' + diffRecv;
      }
      PartialStep(updates, done, cc);
    }

    /** One country of the pass: its record, created when missing, takes the
        delta. */
    method UpdateCountry(cc: string, diffSent: int, diffRecv: int)
      requires CountriesValid()
      modifies this`countryDetails, countryDetails.Values
      ensures CountriesValid()
      ensures forall o :: o in countryDetails.Values ==> o in old(countryDetails.Values) || fresh(o)
      ensures Countries() == old(Countries())[cc := RecordDelta(RecordOrNew(old(Countries()), cc), ByteCounts(diffSent, diffRecv))]
    {
      ghost var before := Countries();
      ghost var target := before[cc := RecordDelta(RecordOrNew(before, cc), ByteCounts(diffSent, diffRecv))];
      var cd := RecordFor(cc);
      ghost var mid := Countries();
      assert mid[cc] == RecordOrNew(before, cc);
      cd.ApplyDelta(diffSent, diffRecv);
      forall k | k in countryDetails
        ensures Countries()[k] == target[k]
      {
        if k != cc {
          assert countryDetails[k].cc == k;
          assert countryDetails[k].View() == mid[k] == before[k];
        }
      }
      assert Countries().Keys == target.Keys;
      assert Countries() == target;
    }

    /** The record filed under `cc`, created and filed when missing. */
    method RecordFor(cc: string) returns (cd: CountryDetails)
      requires CountriesValid()
      modifies this`countryDetails
      ensures CountriesValid()
      ensures countryDetails == old(countryDetails)[cc := cd]
      ensures cc in old(countryDetails) ==> cd == old(countryDetails[cc])
      ensures cc !in old(countryDetails) ==> fresh(cd)
      ensures forall o :: o in countryDetails.Values ==> o in old(countryDetails.Values) || fresh(o)
      ensures Countries() == old(Countries())[cc := RecordOrNew(old(Countries()), cc)]
    {
      if cc in countryDetails {
        cd := countryDetails[cc];
        assert countryDetails == countryDetails[cc := cd];
      } else {
        cd := new CountryDetails(cc);
        countryDetails := countryDetails[cc := cd];
      }
    }

    /** The synthetic record takes the sums of the positive deltas. */
    method UpdateTotal(totalDiffSent: int, totalDiffRecv: int)
      requires CountriesValid()
      modifies countryTotal
      ensures Countries() == old(Countries())[TotalCC := RecordTotal(old(Countries())[TotalCC], totalDiffSent, totalDiffRecv)]
    {
      countryTotal.ApplyTotal(totalDiffSent, totalDiffRecv);
      forall k | k in countryDetails && k != TotalCC
        ensures countryDetails[k].View() == old(countryDetails[k].View())
      {
        assert countryDetails[k].cc == k;
      }
    }

    /** Every record whose code is not in `updated` decays. */
    method DecayRecords(updated: set<string>)
      requires CountriesValid()
      modifies countryDetails.Values
      ensures Countries() == DecayUntouched(old(Countries()), updated, old(Countries()).Keys)
    {
      ghost var before := Countries();
      var rest := countryDetails.Keys;
      ghost var decayed: set<string> := {};
      while rest != {}
        invariant rest !! decayed && rest + decayed == countryDetails.Keys
        invariant Countries() == DecayUntouched(before, updated, decayed)
        decreases rest
      {
        var cc :| cc in rest;
        DecayOne(cc, updated, before, decayed);
        decayed := decayed + {cc};
        rest := rest - {cc};
      }
    }

    /** The loop body of `DecayRecords`. */
    method DecayOne(cc: string, updated: set<string>, ghost before: map<string, CountryRecord>, ghost decayed: set<string>)
      requires CountriesValid() && cc in countryDetails && cc !in decayed
      requires Countries() == DecayUntouched(before, updated, decayed)
      modifies countryDetails[cc]
      ensures Countries() == DecayUntouched(before, updated, decayed + {cc})
    {
      ghost var mid := Countries();
      if cc !in updated {
        countryDetails[cc].DecayLatest();
      }
      ghost var target := DecayUntouched(before, updated, decayed + {cc});
      forall k | k in countryDetails
        ensures Countries()[k] == target[k]
      {
        if k != cc {
          assert countryDetails[k].cc == k;
          assert countryDetails[k].View() == mid[k];
        }
      }
      assert Countries().Keys == target.Keys;
    }

    // ----- remote statistics -----

    /** A sample from a remote peer waits for the next flush; a newer sample
        from the same address replaces an older one. */
    method ReceiveRemoteStats(sample: RemoteStats)
      modifies this`pendingStats
      ensures pendingStats == old(pendingStats)[sample.address := sample]
    {
      pendingStats := pendingStats[sample.address := sample];
    }

    /** The flush dispatched every 10 ticks: every waiting sample is taken
        out and added, in an unspecified order `order` of their addresses,
        each addition reading the monotonic clock afresh (the k-th addition
        of the flush sees `clock(k)`). When the samples' times are distinct
        and new, the aggregate stays the sum of the retained entries
        whatever the order. */
    method FlushPendingStats(lookup: Address -> seq<string>, clock: nat -> int) returns (ghost order: seq<Address>)
      requires RemoteValid()
      modifies this`pendingStats, this`statsHistory, this`aggregateStats
      ensures pendingStats == map[]
      ensures (set a | a in order) == old(pendingStats).Keys
      ensures forall i, j :: 0 <= i < j < |order| ==> order[i] != order[j]
      ensures (statsHistory, aggregateStats) ==
              FlushAll(old(statsHistory), old(aggregateStats), order, old(pendingStats), lookup, clock)
      ensures RemoteValid()
      ensures Consistent(old(statsHistory), old(aggregateStats)) && FreshTimes(old(pendingStats), old(statsHistory)) ==>
              Consistent(statsHistory, aggregateStats)
    {
      ghost var ok := Consistent(statsHistory, aggregateStats) && FreshTimes(pendingStats, statsHistory);
      order := [];
      var k: nat := 0;
      while pendingStats != map[]
        invariant k == |order|
        invariant FlushProgress(order, pendingStats, old(pendingStats))
        invariant (statsHistory, aggregateStats) ==
                  FlushAll(old(statsHistory), old(aggregateStats), order, old(pendingStats), lookup, clock)
        invariant RemoteValid()
        invariant ok ==> Consistent(statsHistory, aggregateStats) && FreshTimes(pendingStats, statsHistory)
        decreases |pendingStats|
      {
        var a :| a in pendingStats;
        FlushOne(a, lookup, clock, k, order, old(pendingStats), old(statsHistory), old(aggregateStats), ok);
        order := order + [a];
        k := k + 1;
      }
      FlushOrderDone(order, pendingStats, old(pendingStats));
    }

    /** One addition of a flush: the waiting sample of `a` is taken out and
        added at `clock(k)`, `k` being the number of samples added before
        it. */
    method FlushOne(a: Address, lookup: Address -> seq<string>, clock: nat -> int, k: nat,
                    ghost order: seq<Address>, ghost orig: map<Address, RemoteStats>,
                    ghost h0: seq<HistoryEntry>, ghost agg0: AggregateMap, ghost ok: bool)
      requires a in pendingStats && k == |order|
      requires FlushProgress(order, pendingStats, orig)
      requires (statsHistory, aggregateStats) == FlushAll(h0, agg0, order, orig, lookup, clock)
      requires RemoteValid()
      requires ok ==> Consistent(statsHistory, aggregateStats) && FreshTimes(pendingStats, statsHistory)
      modifies this`pendingStats, this`statsHistory, this`aggregateStats
      ensures pendingStats == old(pendingStats) - {a}
      ensures FlushProgress(order + [a], pendingStats, orig)
      ensures (statsHistory, aggregateStats) == FlushAll(h0, agg0, order + [a], orig, lookup, clock)
      ensures RemoteValid()
      ensures ok ==> Consistent(statsHistory, aggregateStats) && FreshTimes(pendingStats, statsHistory)
    {
      var sample := pendingStats[a];
      FlushOrderStep(order, a, pendingStats, orig);
      FlushAllStep(h0, agg0, order, a, orig, lookup, clock);
      ghost var waiting, before := pendingStats, statsHistory;
      pendingStats := pendingStats - {a};
      AddRemoteStats(sample, lookup(sample.address), clock(k));
      if ok {
        FreshTimesStep(waiting, a, before, statsHistory);
      }
    }

    /** `addRemoteStats`: the sample's entry is admitted into the ordered
        history and its averages into its originator's map, then entries are
        evicted oldest first while the history is over 100 entries or the
        oldest is more than ten minutes old. An evicted entry whose
        originator has no map ends the eviction. */
    method AddRemoteStats(sample: RemoteStats, lookup: seq<string>, now: int)
      requires RemoteValid()
      modifies this`statsHistory, this`aggregateStats
      ensures RemoteValid()
      ensures var w := AddRemote(old(statsHistory), old(aggregateStats), EntryFor(sample, lookup), now);
              statsHistory == w.history && aggregateStats == w.aggregate
      ensures Times(statsHistory) <= Times(old(statsHistory)) + {sample.monoTime}
      ensures Consistent(old(statsHistory), old(aggregateStats)) && sample.monoTime !in Times(old(statsHistory)) ==>
              Consistent(statsHistory, aggregateStats)
    {
      var e := EntryFor(sample, lookup);
      AddRemoteBounded(statsHistory, aggregateStats, e, now);
      AddRemotePositive(statsHistory, aggregateStats, e, now);
      if Consistent(statsHistory, aggregateStats) && sample.monoTime !in Times(statsHistory) {
        TimesHasTime(statsHistory, sample.monoTime);
        AddRemoteConsistent(statsHistory, aggregateStats, e, now);
      }
      // admission
      statsHistory := Insert(statsHistory, e);
      var m := if e.cc in aggregateStats then aggregateStats[e.cc] else map[];
      m := AddSample(m, e.stats);
      aggregateStats := aggregateStats[e.cc := m];
      // eviction
      ghost var h0, agg0 := statsHistory, aggregateStats;
      while statsHistory != [] && Expired(statsHistory, now)
        invariant Evict(statsHistory, aggregateStats, now) == Evict(h0, agg0, now)
        decreases |statsHistory|
      {
        var entry := statsHistory[0];
        statsHistory := statsHistory[1..];
        if entry.cc !in aggregateStats {
          return;
        }
        var rest := SubtractSample(aggregateStats[entry.cc], entry.stats);
        if rest == map[] {
          aggregateStats := aggregateStats - {entry.cc};
        } else {
          aggregateStats := aggregateStats[entry.cc := rest];
        }
      }
    }

    /** The aggregate as published: every stored running sum is positive. */
    function AggregateRemoteStats(): (r: AggregateMap)
      requires RemoteValid()
      reads this`statsHistory, this`aggregateStats
      ensures forall o, t :: o in r && t in r[o] ==> r[o][t] > 0
    {
      aggregateStats
    }
  }
}
