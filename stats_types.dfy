/** Values shared by the components of the global traffic statistics. */
module StatsTypes {

  /** A pair of byte counts: cumulative totals, a snapshot of them, or a delta. */
  datatype ByteCounts = ByteCounts(sent: int, recv: int)

  /** Country code used when the country lookup gives no answer. */
  const UnknownCountry: string := "??"

  /** The country code chosen from a lookup result: the first element, or
      `UnknownCountry` when the lookup answered nothing (null or empty). */
  function ResolveCountry(details: seq<string>): (cc: string)
    ensures |details| == 0 ==> cc == UnknownCountry
    ensures |details| > 0 ==> cc == details[0]
  {
    if |details| < 1 then UnknownCountry else details[0]
  }

  /** Looks a key up in a map of integers, reading a missing key as 0. */
  function Get(m: map<string, int>, k: string): int
  {
    if k in m then m[k] else 0
  }

  /** Sum of a sequence of samples. */
  function Sum(s: seq<int>): int
  {
    if s == [] then 0 else Sum(s[..|s| - 1]) + s[|s| - 1]
  }

  lemma SumAppend(s: seq<int>, x: int)
    ensures Sum(s + [x]) == Sum(s) + x
  {
    assert (s + [x])[..|s|] == s;
  }
}
