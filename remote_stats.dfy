/** The remote-stats aggregator: samples reported by remote peers are kept
    in a history ordered by arrival time, and a nested map
    originator country -> target country -> running sum of the positive
    average-sent values of the retained samples is kept up to date on every
    admission and every eviction. Eviction drops the oldest entries while
    the history holds more than 100 of them or the oldest is more than ten
    minutes old. */
module RemoteStatsAggregation {
  import opened StatsTypes

  /** The network address a sample came from. */
  type Address = string

  /** One (target country, average sent) pair of a remote sample. */
  datatype CountryStat = CountryStat(cc: string, averageSent: int)

  /** A sample as received from a remote peer. */
  datatype RemoteStats = RemoteStats(address: Address, monoTime: int, stats: seq<CountryStat>)

  /** A retained sample: its originator country, arrival time and pairs. */
  datatype HistoryEntry = HistoryEntry(cc: string, time: int, stats: seq<CountryStat>)

  /** originator country -> target country -> running sum */
  type AggregateMap = map<string, map<string, int>>

  /** The history, the aggregate, and whether the last eviction ran to its
      end (false when it gave up on an originator missing from the aggregate). */
  datatype Window = Window(history: seq<HistoryEntry>, aggregate: AggregateMap, completed: bool)

  const MaxHistory: int := 100
  const MaxAgeMillis: int := 10 * 60 * 1000

  /** The history is ordered by strictly increasing time (a set ordered by a
      comparator on time alone never holds two entries with the same time). */
  ghost predicate Sorted(h: seq<HistoryEntry>)
  {
    forall i, j :: 0 <= i < j < |h| ==> h[i].time < h[j].time
  }

  ghost predicate HasTime(h: seq<HistoryEntry>, t: int)
  {
    exists i :: 0 <= i < |h| && h[i].time == t
  }

  ghost function Times(h: seq<HistoryEntry>): set<int>
  {
    set i | 0 <= i < |h| :: h[i].time
  }

  lemma TimesHasTime(h: seq<HistoryEntry>, t: int)
    ensures HasTime(h, t) <==> t in Times(h)
  {
    if HasTime(h, t) {
      var i :| 0 <= i < |h| && h[i].time == t;
      assert h[i].time in Times(h);
    }
  }

  /** The entry recorded for a sample; its originator comes from the
      country lookup of the sample's address. */
  function EntryFor(sample: RemoteStats, lookup: seq<string>): (e: HistoryEntry)
    ensures |lookup| == 0 ==> e.cc == UnknownCountry
    ensures |lookup| > 0 ==> e.cc == lookup[0]
    ensures e.time == sample.monoTime && e.stats == sample.stats
  {
    HistoryEntry(ResolveCountry(lookup), sample.monoTime, sample.stats)
  }

  // ----- the ordered history -----

  /** Where an entry with time `t` belongs: after every earlier entry. */
  function Position(h: seq<HistoryEntry>, t: int): (k: nat)
    ensures k <= |h|
    ensures forall i :: 0 <= i < k ==> h[i].time < t
    ensures k < |h| ==> h[k].time >= t
    decreases |h|
  {
    if h == [] || h[0].time >= t then 0 else 1 + Position(h[1..], t)
  }

  /** Adding to the ordered set: an entry whose time is already present is
      not added. */
  function Insert(h: seq<HistoryEntry>, e: HistoryEntry): (r: seq<HistoryEntry>)
    ensures r == h || multiset(r) == multiset(h) + multiset{e}
  {
    var k := Position(h, e.time);
    if k < |h| && h[k].time == e.time then h
    else
      assert h[..k] + h[k..] == h;
      h[..k] + [e] + h[k..]
  }

  /** A time already present leaves the history as it is. */
  lemma InsertPresent(h: seq<HistoryEntry>, e: HistoryEntry)
    requires Sorted(h) && HasTime(h, e.time)
    ensures Insert(h, e) == h
  {
    var k := Position(h, e.time);
    var i :| 0 <= i < |h| && h[i].time == e.time;
    assert k <= i;
    assert h[k].time <= h[i].time;
  }

  /** A new time is placed after every earlier entry and before every later one. */
  lemma InsertAbsent(h: seq<HistoryEntry>, e: HistoryEntry)
    requires Sorted(h) && !HasTime(h, e.time)
    ensures Insert(h, e) == h[..Position(h, e.time)] + [e] + h[Position(h, e.time)..]
    ensures Sorted(Insert(h, e))
    ensures Times(Insert(h, e)) <= Times(h) + {e.time}
  {
    var k := Position(h, e.time);
    assert Insert(h, e) == h[..k] + [e] + h[k..];
    InsertAbsentSorted(h, e, k);
    InsertAbsentTimes(h, e, k);
  }

  lemma InsertAbsentSorted(h: seq<HistoryEntry>, e: HistoryEntry, k: nat)
    requires Sorted(h) && k <= |h|
    requires forall i :: 0 <= i < k ==> h[i].time < e.time
    requires k < |h| ==> h[k].time > e.time
    ensures Sorted(h[..k] + [e] + h[k..])
  {
    var r := h[..k] + [e] + h[k..];
    forall i, j | 0 <= i < j < |r| ensures r[i].time < r[j].time {
      assert r[i].time == if i < k then h[i].time else if i == k then e.time else h[i - 1].time;
      assert r[j].time == if j < k then h[j].time else if j == k then e.time else h[j - 1].time;
      if k < j - 1 { assert h[k].time < h[j - 1].time; }
    }
  }

  lemma InsertAbsentTimes(h: seq<HistoryEntry>, e: HistoryEntry, k: nat)
    requires k <= |h|
    ensures Times(h[..k] + [e] + h[k..]) <= Times(h) + {e.time}
  {
    var r := h[..k] + [e] + h[k..];
    forall x | x in Times(r) ensures x in Times(h) + {e.time} {
      var i :| 0 <= i < |r| && r[i].time == x;
      if i < k { assert r[i] == h[i]; } else if i > k { assert r[i] == h[i - 1]; }
    }
  }

  /** A time later than every entry goes at the end. */
  lemma PositionAfterAll(h: seq<HistoryEntry>, t: int)
    requires Sorted(h) && h != [] && h[|h| - 1].time < t
    ensures Position(h, t) == |h|
  {
    forall i | 0 <= i < |h| ensures h[i].time < t {
      if i < |h| - 1 { assert h[i].time < h[|h| - 1].time; }
    }
  }

  lemma InsertSorted(h: seq<HistoryEntry>, e: HistoryEntry)
    requires Sorted(h)
    ensures Sorted(Insert(h, e))
    ensures Times(Insert(h, e)) <= Times(h) + {e.time}
  {
    if HasTime(h, e.time) { InsertPresent(h, e); } else { InsertAbsent(h, e); }
  }

  // ----- contributions and the aggregate invariant -----

  /** What a sample's pairs contribute to one target: the sum of its positive
      averages for that target. */
  function Contribution(stats: seq<CountryStat>, target: string): (c: int)
    ensures c >= 0
    decreases |stats|
  {
    if stats == [] then 0
    else (if stats[0].cc == target && stats[0].averageSent > 0 then stats[0].averageSent else 0)
         + Contribution(stats[1..], target)
  }

  /** What the retained entries of an originator contribute to one target. */
  function PairSum(h: seq<HistoryEntry>, originator: string, target: string): (c: int)
    ensures c >= 0
    decreases |h|
  {
    if h == [] then 0
    else (if h[0].cc == originator then Contribution(h[0].stats, target) else 0)
         + PairSum(h[1..], originator, target)
  }

  function OriginatorMap(agg: AggregateMap, originator: string): map<string, int>
  {
    if originator in agg then agg[originator] else map[]
  }

  /** The stored running sum of a pair, 0 when the pair is absent. */
  function Lookup(agg: AggregateMap, originator: string, target: string): int
  {
    Get(OriginatorMap(agg, originator), target)
  }

  ghost predicate AllPositive(m: map<string, int>)
  {
    forall k :: k in m ==> m[k] > 0
  }

  /** Every stored running sum is positive: a pair whose sum reaches 0 is
      removed. */
  ghost predicate StoredPositive(agg: AggregateMap)
  {
    forall o :: o in agg ==> AllPositive(agg[o])
  }

  /** The aggregate invariant: every stored value is positive, and every
      pair's stored value is the sum of the contributions of the retained
      entries. */
  ghost predicate Consistent(h: seq<HistoryEntry>, agg: AggregateMap)
  {
    && StoredPositive(agg)
    && (forall o, t :: Lookup(agg, o, t) == PairSum(h, o, t))
  }

  lemma {:induction false} PairSumConcat(a: seq<HistoryEntry>, b: seq<HistoryEntry>, o: string, t: string)
    ensures PairSum(a + b, o, t) == PairSum(a, o, t) + PairSum(b, o, t)
    decreases |a|
  {
    if a == [] {
      assert a + b == b;
    } else {
      assert (a + b)[0] == a[0];
      assert (a + b)[1..] == a[1..] + b;
      PairSumConcat(a[1..], b, o, t);
    }
  }

  // ----- admission -----

  /** Adds one pair's average to its target when the average is positive. */
  function AddStat(m: map<string, int>, c: CountryStat): map<string, int>
  {
    if c.averageSent > 0 then m[c.cc := Get(m, c.cc) + c.averageSent] else m
  }

  function AddStats(m: map<string, int>, stats: seq<CountryStat>): map<string, int>
    decreases |stats|
  {
    if stats == [] then m else AddStats(AddStat(m, stats[0]), stats[1..])
  }

  /** Adding a sample's pairs raises each target by exactly its contribution. */
  lemma {:induction false} AddStatsAdds(m: map<string, int>, stats: seq<CountryStat>)
    ensures forall t :: Get(AddStats(m, stats), t) == Get(m, t) + Contribution(stats, t)
    ensures AllPositive(m) ==> AllPositive(AddStats(m, stats))
    decreases |stats|
  {
    if stats != [] {
      AddStatsAdds(AddStat(m, stats[0]), stats[1..]);
    }
  }

  /** Admission: the entry goes into the ordered history and its positive
      averages into the originator's map, which is created if missing. */
  function Admit(h: seq<HistoryEntry>, agg: AggregateMap, e: HistoryEntry): (w: Window)
    ensures w.aggregate.Keys == agg.Keys + {e.cc}
    ensures forall o :: o in agg && o != e.cc ==> w.aggregate[o] == agg[o]
  {
    Window(Insert(h, e), agg[e.cc := AddStats(OriginatorMap(agg, e.cc), e.stats)], true)
  }

  /** With a time not yet in the history, admission keeps the aggregate
      invariant. */
  lemma AdmitConsistent(h: seq<HistoryEntry>, agg: AggregateMap, e: HistoryEntry)
    requires Sorted(h) && Consistent(h, agg) && !HasTime(h, e.time)
    ensures Consistent(Admit(h, agg, e).history, Admit(h, agg, e).aggregate)
  {
    var w := Admit(h, agg, e);
    var k := Position(h, e.time);
    InsertAbsent(h, e);
    AddStatsAdds(OriginatorMap(agg, e.cc), e.stats);
    assert h == h[..k] + h[k..];
    forall o, t ensures Lookup(w.aggregate, o, t) == PairSum(w.history, o, t) {
      PairSumConcat(h[..k] + [e], h[k..], o, t);
      PairSumConcat(h[..k], [e], o, t);
      PairSumConcat(h[..k], h[k..], o, t);
    }
  }

  /** The source's ordered set compares times only: a sample whose time is
      already in the history is not retained, yet its averages are still
      added to the aggregate, which then exceeds the retained sum for good. */
  lemma DuplicateTimeBreaksConsistency(h: seq<HistoryEntry>, agg: AggregateMap, e: HistoryEntry, t: string)
    requires Sorted(h) && Consistent(h, agg) && HasTime(h, e.time) && Contribution(e.stats, t) > 0
    ensures Admit(h, agg, e).history == h
    ensures Lookup(Admit(h, agg, e).aggregate, e.cc, t) == PairSum(h, e.cc, t) + Contribution(e.stats, t)
    ensures !Consistent(Admit(h, agg, e).history, Admit(h, agg, e).aggregate)
  {
    InsertPresent(h, e);
    AddStatsAdds(OriginatorMap(agg, e.cc), e.stats);
  }

  // ----- eviction -----

  /** Takes one pair's positive average off its target. A missing target or a
      result below 0 is an inconsistency the source only logs, leaving the
      map as it is; a result of exactly 0 removes the target. */
  function SubtractStat(m: map<string, int>, c: CountryStat): map<string, int>
  {
    if c.averageSent <= 0 || c.cc !in m then m
    else
      var rest := m[c.cc] - c.averageSent;
      if rest < 0 then m else if rest == 0 then m - {c.cc} else m[c.cc := rest]
  }

  function SubtractStats(m: map<string, int>, stats: seq<CountryStat>): map<string, int>
    decreases |stats|
  {
    if stats == [] then m else SubtractStats(SubtractStat(m, stats[0]), stats[1..])
  }

  /** When every target holds at least what the sample contributed, taking the
      sample off lowers each target by exactly its contribution and leaves
      no explicit zero behind. */
  lemma {:induction false} SubtractStatsRemoves(m: map<string, int>, stats: seq<CountryStat>)
    requires AllPositive(m)
    requires forall t :: Get(m, t) >= Contribution(stats, t)
    ensures AllPositive(SubtractStats(m, stats))
    ensures forall t :: Get(SubtractStats(m, stats), t) == Get(m, t) - Contribution(stats, t)
    decreases |stats|
  {
    if stats != [] {
      var c := stats[0];
      var m1 := SubtractStat(m, c);
      assert forall t :: Contribution(stats, t) == (if c.cc == t && c.averageSent > 0 then c.averageSent else 0) + Contribution(stats[1..], t);
      assert forall t :: Get(m1, t) == Get(m, t) - (if c.cc == t && c.averageSent > 0 then c.averageSent else 0);
      SubtractStatsRemoves(m1, stats[1..]);
    }
  }

  /** Taking a sample off never leaves a value that is not positive, whatever
      the map held: a result below 0 is refused and a result of 0 removed. */
  lemma {:induction false} SubtractStatsPositive(m: map<string, int>, stats: seq<CountryStat>)
    requires AllPositive(m)
    ensures AllPositive(SubtractStats(m, stats))
    decreases |stats|
  {
    if stats != [] {
      SubtractStatsPositive(SubtractStat(m, stats[0]), stats[1..]);
    }
  }

  /** The oldest entry has to go: the history is over count or it is too old. */
  predicate Expired(h: seq<HistoryEntry>, now: int)
    requires h != []
  {
    |h| > MaxHistory || now - h[0].time > MaxAgeMillis
  }

  /** Eviction, oldest first, stopping at the first entry that may stay. An
      entry whose originator has no map ends the eviction early. */
  function Evict(h: seq<HistoryEntry>, agg: AggregateMap, now: int): (w: Window)
    ensures |w.history| <= |h|
    ensures w.aggregate.Keys <= agg.Keys
    decreases |h|
  {
    if h == [] || !Expired(h, now) then Window(h, agg, true)
    else
      var e := h[0];
      if e.cc !in agg then Window(h[1..], agg, false)
      else
        var m := SubtractStats(agg[e.cc], e.stats);
        Evict(h[1..], if m == map[] then agg - {e.cc} else agg[e.cc := m], now)
  }

  /** Eviction drops a prefix of the history. When it runs to its end, at
      most 100 entries remain and none is older than ten minutes; it always
      removes the oldest entry of a history over count. */
  lemma {:induction false} EvictBounds(h: seq<HistoryEntry>, agg: AggregateMap, now: int)
    requires Sorted(h)
    ensures var w := Evict(h, agg, now);
      && |w.history| <= |h| && w.history == h[|h| - |w.history|..]
      && Sorted(w.history)
      && (|h| > MaxHistory ==> |w.history| < |h|)
      && (w.completed ==> w.history == [] || !Expired(w.history, now))
      && (w.completed ==> |w.history| <= MaxHistory)
      && (w.completed ==> forall i :: 0 <= i < |w.history| ==> now - w.history[i].time <= MaxAgeMillis)
    decreases |h|
  {
    var w := Evict(h, agg, now);
    if h == [] || !Expired(h, now) {
      if h != [] {
        forall i | 0 <= i < |h| ensures now - h[i].time <= MaxAgeMillis {
          if i > 0 { assert h[0].time < h[i].time; }
        }
      }
    } else if h[0].cc in agg {
      var m := SubtractStats(agg[h[0].cc], h[0].stats);
      EvictBounds(h[1..], if m == map[] then agg - {h[0].cc} else agg[h[0].cc := m], now);
    }
  }

  /** Eviction removes only entries that had to go: at every dropped
      position the history from there on was over count or began with an
      entry more than ten minutes old. */
  lemma {:induction false} EvictDropsOnlyExpired(h: seq<HistoryEntry>, agg: AggregateMap, now: int)
    ensures forall k :: 0 <= k < |h| - |Evict(h, agg, now).history| ==> Expired(h[k..], now)
    decreases |h|
  {
    if h != [] && Expired(h, now) {
      assert h[0..] == h;
      if h[0].cc in agg {
        var m := SubtractStats(agg[h[0].cc], h[0].stats);
        var agg' := if m == map[] then agg - {h[0].cc} else agg[h[0].cc := m];
        EvictDropsOnlyExpired(h[1..], agg', now);
        forall k | 0 < k < |h| - |Evict(h, agg, now).history| ensures Expired(h[k..], now) {
          assert h[k..] == h[1..][k - 1..];
        }
      }
    }
  }

  /** An empty map that eviction leaves behind was already there and empty:
      a map that eviction empties is removed. */
  lemma {:induction false} EvictOriginators(h: seq<HistoryEntry>, agg: AggregateMap, now: int)
    ensures forall o :: o in Evict(h, agg, now).aggregate && Evict(h, agg, now).aggregate[o] == map[] ==>
              o in agg && agg[o] == map[]
    decreases |h|
  {
    if h != [] && Expired(h, now) && h[0].cc in agg {
      var m := SubtractStats(agg[h[0].cc], h[0].stats);
      EvictOriginators(h[1..], if m == map[] then agg - {h[0].cc} else agg[h[0].cc := m], now);
    }
  }

  /** Eviction keeps every stored value positive. */
  lemma {:induction false} EvictPositive(h: seq<HistoryEntry>, agg: AggregateMap, now: int)
    requires StoredPositive(agg)
    ensures StoredPositive(Evict(h, agg, now).aggregate)
    decreases |h|
  {
    if h != [] && Expired(h, now) && h[0].cc in agg {
      var m := SubtractStats(agg[h[0].cc], h[0].stats);
      SubtractStatsPositive(agg[h[0].cc], h[0].stats);
      EvictPositive(h[1..], if m == map[] then agg - {h[0].cc} else agg[h[0].cc := m], now);
    }
  }

  /** Eviction keeps the aggregate invariant, also when it ends early. */
  lemma {:induction false} EvictConsistent(h: seq<HistoryEntry>, agg: AggregateMap, now: int)
    requires Consistent(h, agg)
    ensures Consistent(Evict(h, agg, now).history, Evict(h, agg, now).aggregate)
    decreases |h|
  {
    if h != [] && Expired(h, now) {
      var e := h[0];
      assert forall o, t :: PairSum(h, o, t) == (if e.cc == o then Contribution(e.stats, t) else 0) + PairSum(h[1..], o, t);
      if e.cc in agg {
        var m := SubtractStats(agg[e.cc], e.stats);
        forall t ensures Get(agg[e.cc], t) >= Contribution(e.stats, t) {
          assert Lookup(agg, e.cc, t) == PairSum(h, e.cc, t);
        }
        SubtractStatsRemoves(agg[e.cc], e.stats);
        var agg' := if m == map[] then agg - {e.cc} else agg[e.cc := m];
        assert forall t :: Lookup(agg', e.cc, t) == Get(m, t);
        EvictConsistent(h[1..], agg', now);
      } else {
        // nothing of this originator is stored, so the entry contributed nothing
        assert forall t :: Contribution(e.stats, t) == 0 by {
          forall t ensures Contribution(e.stats, t) == 0 {
            assert Lookup(agg, e.cc, t) == 0;
          }
        }
      }
    }
  }

  // ----- one admission followed by eviction -----

  /** `addRemoteStats`: admission, then eviction at time `now`. */
  function AddRemote(h: seq<HistoryEntry>, agg: AggregateMap, e: HistoryEntry, now: int): (w: Window)
    ensures |w.history| <= |h| + 1
    ensures w.aggregate.Keys <= agg.Keys + {e.cc}
  {
    var a := Admit(h, agg, e);
    Evict(a.history, a.aggregate, now)
  }

  /** The history never grows past 100 entries, even when an eviction ends
      early, because the over-count entry is removed before that can happen. */
  lemma AddRemoteBounded(h: seq<HistoryEntry>, agg: AggregateMap, e: HistoryEntry, now: int)
    requires Sorted(h) && |h| <= MaxHistory
    ensures Sorted(AddRemote(h, agg, e, now).history)
    ensures |AddRemote(h, agg, e, now).history| <= MaxHistory
    ensures Times(AddRemote(h, agg, e, now).history) <= Times(h) + {e.time}
  {
    var a := Admit(h, agg, e);
    InsertSorted(h, e);
    EvictBounds(a.history, a.aggregate, now);
    var r := AddRemote(h, agg, e, now).history;
    forall x | x in Times(r) ensures x in Times(a.history) {
      var i :| 0 <= i < |r| && r[i].time == x;
      assert r[i] == a.history[|a.history| - |r| + i];
    }
  }

  /** Every stored value stays positive across `addRemoteStats`, duplicate
      times or not. */
  lemma AddRemotePositive(h: seq<HistoryEntry>, agg: AggregateMap, e: HistoryEntry, now: int)
    requires StoredPositive(agg)
    ensures StoredPositive(AddRemote(h, agg, e, now).aggregate)
  {
    AddStatsAdds(OriginatorMap(agg, e.cc), e.stats);
    EvictPositive(Admit(h, agg, e).history, Admit(h, agg, e).aggregate, now);
  }

  /** With a time not yet in the history, the aggregate invariant survives a
      whole `addRemoteStats`. */
  lemma AddRemoteConsistent(h: seq<HistoryEntry>, agg: AggregateMap, e: HistoryEntry, now: int)
    requires Sorted(h) && Consistent(h, agg) && !HasTime(h, e.time)
    ensures Consistent(AddRemote(h, agg, e, now).history, AddRemote(h, agg, e, now).aggregate)
  {
    AdmitConsistent(h, agg, e);
    EvictConsistent(Admit(h, agg, e).history, Admit(h, agg, e).aggregate, now);
  }

  /** Admission creates the originator's map even when none of the sample's
      averages is positive, so the aggregate can hold an empty map: here a
      single sample with a 0 average from originator "X". */
  lemma ZeroSampleLeavesEmptyMap()
    ensures AddRemote([], map[], HistoryEntry("X", 0, [CountryStat("US", 0)]), 0).aggregate == map["X" := map[]]
  {
    var e := HistoryEntry("X", 0, [CountryStat("US", 0)]);
    assert Insert([], e) == [e];
    assert AddStats(map[], e.stats) == map[];
    assert !Expired([e], 0);
  }

  /** Three samples from "X" at times 0, 1 and 2, of which only the first
      sends anything (5 to "US"), and their running sums. */
  lemma ThreeSamplesConsistent(h: seq<HistoryEntry>, agg: AggregateMap)
    requires h == [HistoryEntry("X", 0, [CountryStat("US", 5)]), HistoryEntry("X", 1, [CountryStat("US", 0)]),
                   HistoryEntry("X", 2, [CountryStat("US", 0)])]
    requires agg == map["X" := map["US" := 5]]
    ensures Sorted(h) && Consistent(h, agg)
  {
    forall o, t ensures Lookup(agg, o, t) == PairSum(h, o, t) {
      assert h[1..] == [h[1], h[2]] && h[1..][1..] == [h[2]] && h[1..][1..][1..] == [];
      assert h[0].stats[1..] == [] && h[1].stats[1..] == [] && h[2].stats[1..] == [];
      assert PairSum([h[2]], o, t) == 0;
      assert PairSum([h[1], h[2]], o, t) == 0;
      assert Contribution(h[0].stats, t) == if t == "US" then 5 else 0;
    }
  }

  /** An eviction that meets an originator without a map stops there, and
      the entries behind it stay whatever their age. From the three samples
      of `ThreeSamplesConsistent`, a sample from "Y" twenty minutes later
      evicts the first (emptying and dropping the map of "X"), stops at the
      second and keeps the third, although it is long expired. */
  lemma EarlyReturnKeepsStaleEntry()
    ensures var h := [HistoryEntry("X", 0, [CountryStat("US", 5)]), HistoryEntry("X", 1, [CountryStat("US", 0)]),
                      HistoryEntry("X", 2, [CountryStat("US", 0)])];
            var agg := map["X" := map["US" := 5]];
            var e := HistoryEntry("Y", 1200000, []);
            var w := AddRemote(h, agg, e, 1200000);
            && Sorted(h) && Consistent(h, agg)
            && !w.completed && w.history == [h[2], e]
            && 1200000 - h[2].time > MaxAgeMillis
  {
    var e1, e2, e3 := HistoryEntry("X", 0, [CountryStat("US", 5)]), HistoryEntry("X", 1, [CountryStat("US", 0)]),
                      HistoryEntry("X", 2, [CountryStat("US", 0)]);
    var h := [e1, e2, e3];
    var agg := map["X" := map["US" := 5]];
    var e := HistoryEntry("Y", 1200000, []);
    ThreeSamplesConsistent(h, agg);
    AdmitAfterThree(h, agg, e);
    assert h + [e] == [e1, e2, e3, e];
    EvictFirstOfThree(e1, e2, e3, e);
  }

  /** The admission of the example: the new entry goes last and "Y" gets an
      empty map. */
  lemma AdmitAfterThree(h: seq<HistoryEntry>, agg: AggregateMap, e: HistoryEntry)
    requires Sorted(h) && |h| == 3 && h[2].time < 1200000
    requires agg == map["X" := map["US" := 5]]
    requires e == HistoryEntry("Y", 1200000, [])
    ensures Admit(h, agg, e) == Window(h + [e], map["X" := map["US" := 5], "Y" := map[]], true)
  {
    PositionAfterAll(h, e.time);
    assert OriginatorMap(agg, e.cc) == map[];
  }

  /** The eviction of the example: the first entry goes and empties the map
      of "X", and the second, finding no map, ends it. */
  lemma EvictFirstOfThree(e1: HistoryEntry, e2: HistoryEntry, e3: HistoryEntry, e: HistoryEntry)
    requires e1 == HistoryEntry("X", 0, [CountryStat("US", 5)]) && e2 == HistoryEntry("X", 1, [CountryStat("US", 0)])
    requires e == HistoryEntry("Y", 1200000, [])
    ensures Evict([e1, e2, e3, e], map["X" := map["US" := 5], "Y" := map[]], 1200000) ==
            Window([e3, e], map["Y" := map[]], false)
  {
    assert SubtractStats(map["US" := 5], e1.stats) == map[] by {
      assert e1.stats[1..] == [];
    }
    assert map["X" := map["US" := 5], "Y" := map[]] - {"X"} == map["Y" := map[]];
    assert [e1, e2, e3, e][1..] == [e2, e3, e] && [e2, e3, e][1..] == [e3, e];
  }

  /** A full window of recent samples slides by one: a newer sample pushes
      out exactly the oldest entry. */
  lemma SlidingWindow(h: seq<HistoryEntry>, agg: AggregateMap, e: HistoryEntry, now: int)
    requires Sorted(h) && |h| == MaxHistory
    requires h[|h| - 1].time < e.time
    requires now - h[1].time <= MaxAgeMillis
    ensures AddRemote(h, agg, e, now).history == h[1..] + [e]
  {
    var a := Admit(h, agg, e);
    PositionAfterAll(h, e.time);
    var h1 := h + [e];
    assert a.history == h1;
    assert h1[1..] == h[1..] + [e] && h1[1..][0] == h[1];
    if h[0].cc in a.aggregate {
      var m := SubtractStats(a.aggregate[h[0].cc], h[0].stats);
      var agg' := if m == map[] then a.aggregate - {h[0].cc} else a.aggregate[h[0].cc := m];
      assert !Expired(h1[1..], now);
      assert Evict(h1, a.aggregate, now) == Evict(h1[1..], agg', now);
    }
  }

  // ----- a run of samples -----

  /** `addRemoteStats` applied to each sample in turn, starting from an
      empty history and aggregate, with every call made at time `now`. */
  function AddAll(es: seq<HistoryEntry>, now: int): Window
    decreases |es|
  {
    if es == [] then Window([], map[], true)
    else
      var w := AddAll(es[..|es| - 1], now);
      AddRemote(w.history, w.aggregate, es[|es| - 1], now)
  }

  /** Where the last 100 of `n` samples begin. */
  function WindowStart(n: nat): nat
  {
    if n > MaxHistory then n - MaxHistory else 0
  }

  /** A history short of 100 entries takes a newer recent sample at its end
      and loses nothing. */
  lemma WindowGrows(h: seq<HistoryEntry>, agg: AggregateMap, e: HistoryEntry, now: int)
    requires Sorted(h) && |h| < MaxHistory
    requires h != [] ==> h[|h| - 1].time < e.time
    requires now - (h + [e])[0].time <= MaxAgeMillis
    ensures AddRemote(h, agg, e, now).history == h + [e]
  {
    if h == [] {
      assert Insert(h, e) == [e];
    } else {
      PositionAfterAll(h, e.time);
      assert h[..|h|] + [e] + h[|h|..] == h + [e];
    }
    assert !Expired(h + [e], now);
  }

  lemma SortedPrefix(s: seq<HistoryEntry>, b: nat)
    requires Sorted(s) && b <= |s|
    ensures Sorted(s[..b])
  {
    forall i, j | 0 <= i < j < b ensures s[..b][i].time < s[..b][j].time {
      assert s[..b][i] == s[i] && s[..b][j] == s[j];
    }
  }

  /** The retained suffix of a run, as seen by its next sample. */
  lemma SuffixBefore(es: seq<HistoryEntry>, a: nat, h: seq<HistoryEntry>)
    requires Sorted(es) && es != [] && a <= |es| - 1 && h == es[a..|es| - 1]
    ensures Sorted(h)
    ensures !HasTime(h, es[|es| - 1].time)
    ensures h != [] ==> h[|h| - 1].time < es[|es| - 1].time
    ensures forall i :: 0 <= i < |h| ==> h[i] == es[a + i]
    ensures h + [es[|es| - 1]] == es[a..]
    ensures h != [] ==> h[1..] + [es[|es| - 1]] == es[a + 1..]
  {
    forall i | 0 <= i < |h| ensures h[i] == es[a + i] { }
    assert h + [es[|es| - 1]] == es[a..];
    if h != [] {
      assert h[1..] + [es[|es| - 1]] == es[a + 1..];
    }
  }

  /** One more recent sample on top of the window of a run. */
  lemma NextHistory(es: seq<HistoryEntry>, h: seq<HistoryEntry>, agg: AggregateMap, now: int)
    requires Sorted(es) && es != []
    requires forall i :: 0 <= i < |es| ==> now - es[i].time <= MaxAgeMillis
    requires h == es[WindowStart(|es| - 1)..|es| - 1]
    ensures AddRemote(h, agg, es[|es| - 1], now).history == es[WindowStart(|es|)..]
  {
    var a := WindowStart(|es| - 1);
    SuffixBefore(es, a, h);
    if |es| - 1 >= MaxHistory {
      SlidingWindow(h, agg, es[|es| - 1], now);
    } else {
      WindowGrows(h, agg, es[|es| - 1], now);
    }
  }

  /** Samples with increasing times, all within ten minutes of `now`: after
      them the history is exactly the last 100 of them, or all of them when
      there are fewer. */
  lemma {:induction false} RecentSamplesHistory(es: seq<HistoryEntry>, now: int)
    requires Sorted(es)
    requires forall i :: 0 <= i < |es| ==> now - es[i].time <= MaxAgeMillis
    ensures AddAll(es, now).history == es[WindowStart(|es|)..]
    decreases |es|
  {
    if es != [] {
      var n := |es|;
      SortedPrefix(es, n - 1);
      RecentSamplesHistory(es[..n - 1], now);
      var w := AddAll(es[..n - 1], now);
      assert w.history == es[WindowStart(n - 1)..n - 1];
      NextHistory(es, w.history, w.aggregate, now);
    }
  }

  /** Over such a run the aggregate invariant holds throughout, so every
      stored pair is the sum of the positive averages of the last 100
      samples. */
  lemma {:induction false} RecentSamplesFillWindow(es: seq<HistoryEntry>, now: int)
    requires Sorted(es)
    requires forall i :: 0 <= i < |es| ==> now - es[i].time <= MaxAgeMillis
    ensures Consistent(AddAll(es, now).history, AddAll(es, now).aggregate)
    ensures forall o, t :: Lookup(AddAll(es, now).aggregate, o, t) == PairSum(es[WindowStart(|es|)..], o, t)
    decreases |es|
  {
    RecentSamplesHistory(es, now);
    if es == [] {
      assert forall o, t :: Lookup(map[], o, t) == 0;
    } else {
      var n := |es|;
      SortedPrefix(es, n - 1);
      RecentSamplesFillWindow(es[..n - 1], now);
      RecentSamplesHistory(es[..n - 1], now);
      var w := AddAll(es[..n - 1], now);
      var a := WindowStart(n - 1);
      assert w.history == es[a..n - 1];
      SuffixBefore(es, a, w.history);
      AddRemoteConsistent(w.history, w.aggregate, es[n - 1], now);
    }
  }
}
