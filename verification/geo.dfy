/**
  Geographic keys derived from a tract GEOID, and the Python string slicing
  that both the keys and the filename-derived reporting period rely on.

  A GEOID is hierarchical: its first 2 characters name the state, its first
  5 characters name the county, and the whole string names the tract.
 */
module Geo {

  /** Width of the state prefix of a GEOID (`GEOID[0:2]`). */
  const StateWidth: nat := 2
  /** Width of the county prefix of a GEOID (`GEOID[0:5]`). */
  const CountyWidth: nat := 5
  /** The invented GEOID carried by every national row. */
  const NationalId: string := "01"

  /** Python's normalisation of one slice bound for a sequence of length n:
      a negative bound counts back from the end, and the result is clamped
      into [0, n]. */
  function SliceBound(n: nat, i: int): (b: nat)
    ensures b <= n
  {
    if i < 0 then (if n + i < 0 then 0 else n + i)
    else if i > n then n
    else i
  }

  /** Python's `s[i:j]` on a string: out-of-range bounds are clamped and an
      empty range yields the empty string, never an error. */
  function Slice(s: string, i: int, j: int): (r: string)
    ensures |r| <= |s|
  {
    var a := SliceBound(|s|, i);
    var b := SliceBound(|s|, j);
    if a < b then s[a..b] else []
  }

  /** The first w characters of s, or all of s when it is shorter. */
  function Prefix(s: string, w: nat): string {
    if |s| < w then s else s[..w]
  }

  /** Prefix is Python's `s[0:w]`: a prefix of s of length min(w, |s|). */
  lemma PrefixIsSlice(s: string, w: nat)
    ensures Prefix(s, w) == Slice(s, 0, w)
    ensures Prefix(s, w) <= s
    ensures |Prefix(s, w)| == if |s| < w then |s| else w
  {
  }

  /** The state key of a GEOID. */
  function StateOf(geoId: string): string {
    Prefix(geoId, StateWidth)
  }

  /** The county key of a GEOID. */
  function CountyOf(geoId: string): string {
    Prefix(geoId, CountyWidth)
  }

  /** A shorter prefix of a prefix is the shorter prefix of the original. */
  lemma PrefixOfPrefix(s: string, w1: nat, w2: nat)
    requires w1 <= w2
    ensures Prefix(Prefix(s, w2), w1) == Prefix(s, w1)
  {
    var p := Prefix(s, w2);
    PrefixIsSlice(s, w2);
    PrefixIsSlice(p, w1);
    PrefixIsSlice(s, w1);
  }

  /** Two GEOIDs that agree on a wide prefix agree on every narrower one. */
  lemma WidePrefixDeterminesNarrow(g: string, h: string, w1: nat, w2: nat)
    requires w1 <= w2
    requires Prefix(g, w2) == Prefix(h, w2)
    ensures Prefix(g, w1) == Prefix(h, w1)
  {
    PrefixOfPrefix(g, w1, w2);
    PrefixOfPrefix(h, w1, w2);
  }

  /** Records in the same county are in the same state; contrapositively,
      a change of state prefix is always also a change of county prefix. */
  lemma SameCountySameState(g: string, h: string)
    requires CountyOf(g) == CountyOf(h)
    ensures StateOf(g) == StateOf(h)
  {
    WidePrefixDeterminesNarrow(g, h, StateWidth, CountyWidth);
  }

  /** The reporting period read from an input file name: characters -21..-19
      hold the month and characters -26..-22 hold the year. */
  function FileNamePeriod(name: string): string {
    Slice(name, -21, -19) + "/" + Slice(name, -26, -22)
  }

  /** A file name laid out as `<head><yyyy><c><mm><19 trailing characters>`
      yields the period `mm/yyyy`. */
  lemma FileNamePeriodOfLayout(head: string, year: string, sep: char, month: string, tail: string)
    requires |year| == 4 && |month| == 2 && |tail| == 19
    ensures FileNamePeriod(head + year + [sep] + month + tail) == month + "/" + year
  {
    var name := head + year + [sep] + month + tail;
    var n := |name|;
    assert n == |head| + 26;
    assert Slice(name, -21, -19) == name[n - 21..n - 19];
    assert name[n - 21..n - 19] == month;
    assert Slice(name, -26, -22) == name[n - 26..n - 22];
    assert name[n - 26..n - 22] == year;
  }

  /** The slices themselves never fail: a name of at most 19 characters has
      empty month and year slices, so its period is the bare separator.
      Neither script reaches this case: before the period is sliced, the
      column-casing test parses `myFile[-26:-22]` as an integer
      (ProcessHUDfilesForVizWithFnV6Py36.py:226,
      ProcessHUDfilesForVizWithFnV2.py:235), which raises on an empty
      slice. */
  lemma ShortFileNamePeriod(name: string)
    requires |name| <= 19
    ensures FileNamePeriod(name) == "/"
  {
  }
}
