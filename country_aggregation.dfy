/** The per-country aggregate: one record per country code, created the
    first time the country has traffic and never removed, plus a synthetic
    record under the empty code that sums all countries. Each reconciliation
    pass applies that pass's per-country deltas; records the pass does not
    touch decay (their latest values drop to 0 and their averages are fed 0). */
module CountryAggregation {
  import opened StatsTypes
  import opened MapSums

  /** The code of the synthetic all-countries record. */
  const TotalCC: string := ""

  /** The value of a country record. Each moving average is modelled by the
      log of the samples it has been fed. */
  datatype CountryRecord = CountryRecord(cc: string, totalSent: int, totalRecv: int,
                                         lastSent: int, lastRecv: int,
                                         sentSamples: seq<int>, recvSamples: seq<int>)

  /** A freshly created record. */
  function NewRecord(cc: string): CountryRecord
  {
    CountryRecord(cc, 0, 0, 0, 0, [], [])
  }

  function Positive(x: int): (p: int)
    ensures p >= 0 && p >= x
  {
    if x > 0 then x else 0
  }

  /** A country with a delta in this pass. A positive side becomes the
      latest value and is added to the total; a non-positive side sets the
      latest value to 0 and leaves the total alone. Either way the delta
      itself, even a negative one, is the sample fed to the average. */
  function RecordDelta(r: CountryRecord, d: ByteCounts): (n: CountryRecord)
    ensures n.cc == r.cc
    ensures n.lastSent >= 0 && n.totalSent == r.totalSent + n.lastSent
    ensures n.lastSent == (if d.sent > 0 then d.sent else 0)
    ensures n.lastRecv >= 0 && n.totalRecv == r.totalRecv + n.lastRecv
    ensures n.lastRecv == (if d.recv > 0 then d.recv else 0)
    ensures n.sentSamples == r.sentSamples + [d.sent] && n.recvSamples == r.recvSamples + [d.recv]
  {
    r.(lastSent := Positive(d.sent), totalSent := r.totalSent + Positive(d.sent), sentSamples := r.sentSamples + [d.sent],
       lastRecv := Positive(d.recv), totalRecv := r.totalRecv + Positive(d.recv), recvSamples := r.recvSamples + [d.recv])
  }

  /** The synthetic record at the end of a pass, given the sums of the
      positive deltas; a sum that is not positive feeds 0. */
  function RecordTotal(r: CountryRecord, sent: int, recv: int): (n: CountryRecord)
    ensures n.cc == r.cc
    ensures n.lastSent >= 0 && n.totalSent == r.totalSent + n.lastSent
    ensures n.lastSent == (if sent > 0 then sent else 0)
    ensures n.lastRecv >= 0 && n.totalRecv == r.totalRecv + n.lastRecv
    ensures n.lastRecv == (if recv > 0 then recv else 0)
    ensures n.sentSamples == r.sentSamples + [n.lastSent] && n.recvSamples == r.recvSamples + [n.lastRecv]
  {
    r.(lastSent := Positive(sent), totalSent := r.totalSent + Positive(sent), sentSamples := r.sentSamples + [Positive(sent)],
       lastRecv := Positive(recv), totalRecv := r.totalRecv + Positive(recv), recvSamples := r.recvSamples + [Positive(recv)])
  }

  /** A record the pass did not touch. */
  function Decay(r: CountryRecord): (n: CountryRecord)
    ensures n.cc == r.cc && n.totalSent == r.totalSent && n.totalRecv == r.totalRecv
    ensures n.lastSent == 0 && n.lastRecv == 0
    ensures n.sentSamples == r.sentSamples + [0] && n.recvSamples == r.recvSamples + [0]
  {
    r.(lastSent := 0, lastRecv := 0, sentSamples := r.sentSamples + [0], recvSamples := r.recvSamples + [0])
  }

  function RecordOrNew(m: map<string, CountryRecord>, cc: string): CountryRecord
  {
    if cc in m then m[cc] else NewRecord(cc)
  }

  /** The records after the countries in `done` have had their deltas applied. */
  function ApplyDeltas(before: map<string, CountryRecord>, updates: map<string, ByteCounts>, done: set<string>): map<string, CountryRecord>
    requires done <= updates.Keys
  {
    map cc | cc in before.Keys + done :: if cc in done then RecordDelta(RecordOrNew(before, cc), updates[cc]) else before[cc]
  }

  /** Applying one more country's delta. */
  lemma ApplyDeltasStep(before: map<string, CountryRecord>, updates: map<string, ByteCounts>, done: set<string>, cc: string)
    requires done <= updates.Keys && cc in updates && cc !in done
    ensures ApplyDeltas(before, updates, done + {cc})
         == ApplyDeltas(before, updates, done)[cc := RecordDelta(RecordOrNew(before, cc), updates[cc])]
    ensures RecordOrNew(ApplyDeltas(before, updates, done), cc) == RecordOrNew(before, cc)
  {
  }

  /** The records after those in `done` that are not in `updated` have decayed. */
  function DecayUntouched(m: map<string, CountryRecord>, updated: set<string>, done: set<string>): map<string, CountryRecord>
  {
    map cc | cc in m :: if cc in done && cc !in updated then Decay(m[cc]) else m[cc]
  }

  function PositiveSent(updates: map<string, ByteCounts>): map<string, int>
  {
    map cc | cc in updates :: Positive(updates[cc].sent)
  }

  function PositiveRecv(updates: map<string, ByteCounts>): map<string, int>
  {
    map cc | cc in updates :: Positive(updates[cc].recv)
  }

  /** The sums of the positive per-country deltas of a pass. */
  ghost function PassSent(updates: map<string, ByteCounts>): (total: int)
    ensures total >= 0
  {
    SumOverNonNegative(PositiveSent(updates), updates.Keys);
    SumOver(PositiveSent(updates), updates.Keys)
  }

  ghost function PassRecv(updates: map<string, ByteCounts>): (total: int)
    ensures total >= 0
  {
    SumOverNonNegative(PositiveRecv(updates), updates.Keys);
    SumOver(PositiveRecv(updates), updates.Keys)
  }

  /** The sums of the positive deltas of the countries in `done`. */
  ghost function PartialSent(updates: map<string, ByteCounts>, done: set<string>): int
  {
    SumOver(PositiveSent(updates), done)
  }

  ghost function PartialRecv(updates: map<string, ByteCounts>, done: set<string>): int
  {
    SumOver(PositiveRecv(updates), done)
  }

  /** Adding one more country's positive deltas to the partial sums; once
      every country is in, the partial sums are the pass sums. */
  lemma PartialStep(updates: map<string, ByteCounts>, done: set<string>, cc: string)
    requires cc in updates && cc !in done
    ensures PartialSent(updates, done + {cc}) == PartialSent(updates, done) + Positive(updates[cc].sent)
    ensures PartialRecv(updates, done + {cc}) == PartialRecv(updates, done) + Positive(updates[cc].recv)
  {
    SumOverAdd(PositiveSent(updates), done, cc);
    SumOverAdd(PositiveRecv(updates), done, cc);
  }

  /** One pass of the aggregator over the per-country deltas `updates`. */
  ghost function Aggregate(before: map<string, CountryRecord>, updates: map<string, ByteCounts>): (after: map<string, CountryRecord>)
    requires TotalCC in before
    // records are created lazily and never removed
    ensures after.Keys == before.Keys + updates.Keys
  {
    var applied := ApplyDeltas(before, updates, updates.Keys);
    var withTotal := applied[TotalCC := RecordTotal(applied[TotalCC], PassSent(updates), PassRecv(updates))];
    DecayUntouched(withTotal, updates.Keys + {TotalCC}, withTotal.Keys)
  }

  /** A real country with a delta: a positive side becomes the latest value
      and grows the total, a non-positive one gives latest 0 and leaves the
      total; the raw delta is the sample. A missing record starts from zero. */
  lemma AggregateCountry(before: map<string, CountryRecord>, updates: map<string, ByteCounts>, cc: string)
    requires TotalCC in before && cc in updates && cc != TotalCC
    ensures var after, r, d := Aggregate(before, updates), RecordOrNew(before, cc), updates[cc];
      && after[cc].cc == r.cc
      && after[cc].lastSent == Positive(d.sent) && after[cc].totalSent == r.totalSent + Positive(d.sent)
      && after[cc].lastRecv == Positive(d.recv) && after[cc].totalRecv == r.totalRecv + Positive(d.recv)
      && after[cc].sentSamples == r.sentSamples + [d.sent] && after[cc].recvSamples == r.recvSamples + [d.recv]
  {
  }

  /** A record the pass did not touch: latest values zeroed, totals
      unchanged, a 0 sample fed to both averages. */
  lemma AggregateUntouched(before: map<string, CountryRecord>, updates: map<string, ByteCounts>, cc: string)
    requires TotalCC in before && cc in before && cc !in updates && cc != TotalCC
    ensures var after, r := Aggregate(before, updates), before[cc];
      && after[cc].cc == r.cc
      && after[cc].lastSent == 0 && after[cc].lastRecv == 0
      && after[cc].totalSent == r.totalSent && after[cc].totalRecv == r.totalRecv
      && after[cc].sentSamples == r.sentSamples + [0] && after[cc].recvSamples == r.recvSamples + [0]
  {
  }

  /** The synthetic record: its latest values are the sums of the positive
      per-country deltas (0 when there are none), and its totals grow by them. */
  lemma AggregateSynthetic(before: map<string, CountryRecord>, updates: map<string, ByteCounts>)
    requires TotalCC in before && TotalCC !in updates
    ensures var after, r := Aggregate(before, updates), before[TotalCC];
      && after[TotalCC].cc == r.cc
      && after[TotalCC].lastSent == PassSent(updates) && after[TotalCC].lastRecv == PassRecv(updates)
      && after[TotalCC].totalSent == r.totalSent + PassSent(updates)
      && after[TotalCC].totalRecv == r.totalRecv + PassRecv(updates)
      && after[TotalCC].sentSamples == r.sentSamples + [PassSent(updates)]
      && after[TotalCC].recvSamples == r.recvSamples + [PassRecv(updates)]
  {
  }

  /** When a country lookup yields the empty code, that country's delta lands
      on the synthetic record, which the end of the pass then updates again:
      its positive part is added to the synthetic totals twice. */
  lemma EmptyCodeCountedTwice(before: map<string, CountryRecord>, updates: map<string, ByteCounts>)
    requires TotalCC in before && TotalCC in updates
    ensures var after, r, d := Aggregate(before, updates), before[TotalCC], updates[TotalCC];
      && after[TotalCC].totalSent == r.totalSent + Positive(d.sent) + PassSent(updates)
      && after[TotalCC].totalRecv == r.totalRecv + Positive(d.recv) + PassRecv(updates)
      && after[TotalCC].sentSamples == r.sentSamples + [d.sent, PassSent(updates)]
      && after[TotalCC].recvSamples == r.recvSamples + [d.recv, PassRecv(updates)]
  {
  }

  function LatestSent(m: map<string, CountryRecord>): map<string, int>
  {
    map cc | cc in m :: m[cc].lastSent
  }

  function LatestRecv(m: map<string, CountryRecord>): map<string, int>
  {
    map cc | cc in m :: m[cc].lastRecv
  }

  function TotalsSent(m: map<string, CountryRecord>): map<string, int>
  {
    map cc | cc in m :: m[cc].totalSent
  }

  function TotalsRecv(m: map<string, CountryRecord>): map<string, int>
  {
    map cc | cc in m :: m[cc].totalRecv
  }

  /** After a pass the synthetic record's latest value equals the sum of the
      latest values of all real country records (when no country resolves to
      the empty code). */
  lemma SyntheticLatestIsSumOfCountries(before: map<string, CountryRecord>, updates: map<string, ByteCounts>)
    requires TotalCC in before && TotalCC !in updates
    ensures var after := Aggregate(before, updates);
            && after[TotalCC].lastSent == SumOver(LatestSent(after), after.Keys - {TotalCC})
            && after[TotalCC].lastRecv == SumOver(LatestRecv(after), after.Keys - {TotalCC})
  {
    var after := Aggregate(before, updates);
    var untouched := after.Keys - {TotalCC} - updates.Keys;
    assert after.Keys - {TotalCC} == updates.Keys + untouched;
    SumOverAgree(PositiveSent(updates), LatestSent(after), updates.Keys);
    SumOverZeros(LatestSent(after), updates.Keys, untouched);
    SumOverAgree(PositiveRecv(updates), LatestRecv(after), updates.Keys);
    SumOverZeros(LatestRecv(after), updates.Keys, untouched);
  }

  /** The synthetic record's totals stay equal to the sum of the real
      countries' totals from pass to pass (when no country resolves to the
      empty code). */
  lemma SyntheticTotalsTrackCountries(before: map<string, CountryRecord>, updates: map<string, ByteCounts>)
    requires TotalCC in before && TotalCC !in updates
    requires before[TotalCC].totalSent == SumOver(TotalsSent(before), before.Keys - {TotalCC})
    requires before[TotalCC].totalRecv == SumOver(TotalsRecv(before), before.Keys - {TotalCC})
    ensures var after := Aggregate(before, updates);
            && after[TotalCC].totalSent == SumOver(TotalsSent(after), after.Keys - {TotalCC})
            && after[TotalCC].totalRecv == SumOver(TotalsRecv(after), after.Keys - {TotalCC})
  {
    SyntheticSentTracksCountries(before, updates);
    SyntheticRecvTracksCountries(before, updates);
  }

  /** The real countries after a pass: the old ones plus the new ones, or
      those with a delta plus the untouched ones. */
  lemma CountrySets(b: set<string>, u: set<string>)
    requires TotalCC in b && TotalCC !in u
    ensures (b + u) - {TotalCC} == (b - {TotalCC}) + ((b + u) - {TotalCC} - b)
    ensures u + (((b + u) - {TotalCC}) - u) == (b + u) - {TotalCC}
  {
  }

  /** Key by key, a real country's new total is its old total (0 for a new
      record) plus its positive delta (0 for an untouched record). */
  lemma TotalsGrowPointwise(before: map<string, CountryRecord>, updates: map<string, ByteCounts>)
    requires TotalCC in before && TotalCC !in updates
    ensures var after := Aggregate(before, updates);
            forall k :: k in after.Keys - {TotalCC} ==>
              && Get(TotalsSent(after), k) == Get(TotalsSent(before), k) + Get(PositiveSent(updates), k)
              && Get(TotalsRecv(after), k) == Get(TotalsRecv(before), k) + Get(PositiveRecv(updates), k)
  {
    var after := Aggregate(before, updates);
    forall k | k in after.Keys - {TotalCC}
      ensures Get(TotalsSent(after), k) == Get(TotalsSent(before), k) + Get(PositiveSent(updates), k)
      ensures Get(TotalsRecv(after), k) == Get(TotalsRecv(before), k) + Get(PositiveRecv(updates), k)
    {
      if k in updates {
        AggregateCountry(before, updates, k);
      } else {
        AggregateUntouched(before, updates, k);
      }
    }
  }

  lemma SyntheticSentTracksCountries(before: map<string, CountryRecord>, updates: map<string, ByteCounts>)
    requires TotalCC in before && TotalCC !in updates
    requires before[TotalCC].totalSent == SumOver(TotalsSent(before), before.Keys - {TotalCC})
    ensures var after := Aggregate(before, updates);
            after[TotalCC].totalSent == SumOver(TotalsSent(after), after.Keys - {TotalCC})
  {
    var after := Aggregate(before, updates);
    var countries := after.Keys - {TotalCC};
    CountrySets(before.Keys, updates.Keys);
    AggregateSynthetic(before, updates);
    // the new totals are the old totals plus the positive deltas, key by key
    TotalsGrowPointwise(before, updates);
    SumOverPointwise(TotalsSent(before), PositiveSent(updates), TotalsSent(after), countries);
    SumOverZeros(TotalsSent(before), before.Keys - {TotalCC}, countries - before.Keys);
    SumOverZeros(PositiveSent(updates), updates.Keys, countries - updates.Keys);
  }


  lemma SyntheticRecvTracksCountries(before: map<string, CountryRecord>, updates: map<string, ByteCounts>)
    requires TotalCC in before && TotalCC !in updates
    requires before[TotalCC].totalRecv == SumOver(TotalsRecv(before), before.Keys - {TotalCC})
    ensures var after := Aggregate(before, updates);
            after[TotalCC].totalRecv == SumOver(TotalsRecv(after), after.Keys - {TotalCC})
  {
    var after := Aggregate(before, updates);
    var countries := after.Keys - {TotalCC};
    CountrySets(before.Keys, updates.Keys);
    AggregateSynthetic(before, updates);
    // the new totals are the old totals plus the positive deltas, key by key
    TotalsGrowPointwise(before, updates);
    SumOverPointwise(TotalsRecv(before), PositiveRecv(updates), TotalsRecv(after), countries);
    SumOverZeros(TotalsRecv(before), before.Keys - {TotalCC}, countries - before.Keys);
    SumOverZeros(PositiveRecv(updates), updates.Keys, countries - updates.Keys);
  }

}
