/** Track selection (`set_next_file_marker`): a function-local static index
    cycles over the three embedded assets, points the marker at the asset it
    names and resets the cursor. The static index and the marker together
    are the value `Selector`. */
module TrackSelect {
  import opened TrackStream

  /** The three embedded assets, by sample-rate tier. */
  datatype Rate = LowRate | MediumRate | HighRate

  /** The bytes of each asset, compiled into the image and never changed. */
  datatype Assets = Assets(low: Bytes, medium: Bytes, high: Bytes)

  function Track(assets: Assets, rate: Rate): Bytes {
    match rate
    case LowRate => assets.low
    case MediumRate => assets.medium
    case HighRate => assets.high
  }

  /** The asset the switch associates with each index it knows. */
  function RateAt(idx: int): Rate
    requires 0 <= idx <= 2
  {
    if idx == 0 then LowRate else if idx == 1 then MediumRate else HighRate
  }

  /** The order in which selection visits the tiers. */
  function Following(rate: Rate): Rate {
    match rate
    case LowRate => MediumRate
    case MediumRate => HighRate
    case HighRate => LowRate
  }

  /** `idx` is the static index (the asset the next call selects);
      `marker` is the file-scope marker. */
  datatype Selector = Selector(idx: int, marker: Marker)

  /** Power-on state: the static index is 0 and the marker is zeroed. */
  const Boot: Selector := Selector(0, Unset)

  predicate InRange(idx: int) {
    0 <= idx <= 2
  }

  /** One call of `set_next_file_marker`. An index outside the switch's cases
      leaves start/end where they were, as the default branch does. */
  function SelectNext(assets: Assets, s: Selector): (s': Selector)
    ensures s'.marker.pos == 0
    ensures InRange(s.idx) ==> s'.marker.data == Track(assets, RateAt(s.idx))
    ensures !InRange(s.idx) ==> s'.marker.data == s.marker.data
    ensures InRange(s.idx) ==> InRange(s'.idx) && RateAt(s'.idx) == Following(RateAt(s.idx))
    ensures 2 <= s.idx ==> s'.idx == 0
    ensures s.idx < 0 ==> s'.idx == s.idx + 1
  {
    var data :=
      if s.idx == 0 then assets.low
      else if s.idx == 1 then assets.medium
      else if s.idx == 2 then assets.high
      else s.marker.data;
    var idx := if s.idx + 1 > 2 then 0 else s.idx + 1;
    Selector(idx, Marker(data, 0))
  }

  /** `n` successive calls. */
  function SelectTimes(assets: Assets, s: Selector, n: nat): Selector
    decreases n
  {
    if n == 0 then s else SelectTimes(assets, SelectNext(assets, s), n - 1)
  }

  /** The tier the `n`-th call (counting from 1) after power-on selects. */
  function NthRate(n: nat): Rate
    requires 1 <= n
  {
    RateAt((n - 1) % 3)
  }

  /** Every call leaves the marker at the start of its asset, and the
      index inside the switch's cases. */
  lemma {:induction false} SelectionKeepsInvariant(assets: Assets, s: Selector, n: nat)
    requires InRange(s.idx)
    ensures InRange(SelectTimes(assets, s, n).idx)
    ensures 1 <= n ==> SelectTimes(assets, s, n).marker.pos == 0
    decreases n
  {
    if n > 0 {
      SelectionKeepsInvariant(assets, SelectNext(assets, s), n - 1);
    }
  }

  /** Reachable from power-on, the index is always one the switch handles,
      so the default (error) branch never runs. */
  lemma DefaultUnreachable(assets: Assets, n: nat)
    ensures InRange(SelectTimes(assets, Boot, n).idx)
  {
    SelectionKeepsInvariant(assets, Boot, n);
  }

  /** After `n` calls from power-on the index is `n mod 3`, and (when at least
      one call was made) the marker is at the start of the low, medium, high,
      low, ... asset. */
  lemma {:induction false} SelectionFromBoot(assets: Assets, n: nat)
    ensures SelectTimes(assets, Boot, n).idx == n % 3
    ensures 1 <= n ==> SelectTimes(assets, Boot, n).marker == Marker(Track(assets, NthRate(n)), 0)
    decreases n
  {
    if n > 0 {
      SelectionFromBoot(assets, n - 1);
      SelectTimesLast(assets, Boot, n - 1);
    }
  }

  lemma {:induction false} SelectTimesLast(assets: Assets, s: Selector, n: nat)
    ensures SelectTimes(assets, s, n + 1) == SelectNext(assets, SelectTimes(assets, s, n))
    decreases n
  {
    if n > 0 {
      SelectTimesLast(assets, SelectNext(assets, s), n - 1);
    }
  }

  /** The first call after power-on picks the low-rate asset. */
  lemma FirstSelectionIsLow(assets: Assets)
    ensures SelectNext(assets, Boot).marker == Marker(assets.low, 0)
    ensures SelectNext(assets, Boot).idx == 1
  {
  }

  /** Three calls bring the index back, and after a call three more calls
      select the same asset again. */
  lemma ThreeCallsCycle(assets: Assets, s: Selector)
    requires InRange(s.idx)
    ensures SelectTimes(assets, s, 3).idx == s.idx
    ensures SelectTimes(assets, SelectNext(assets, s), 3).marker == SelectNext(assets, s).marker
  {
    var s1 := SelectNext(assets, s);
    var s2 := SelectNext(assets, s1);
    var s3 := SelectNext(assets, s2);
    var s4 := SelectNext(assets, s3);
    assert SelectTimes(assets, s, 3) == s3;
    assert SelectTimes(assets, s1, 3) == s4;
  }
}
