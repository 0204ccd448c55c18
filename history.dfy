/**
 * `getHistoricalPosition` of `src/model.ts`: where a player was roughly
 * `reactionTime` seconds ago, read off its most-recent-first history.
 */
module History {
  import opened Geometry
  import opened Players

  /** The walk of `getHistoricalPosition`'s loop from some entry on: stop when
      the history runs out or the accumulated time reaches `limitMillis`,
      otherwise take the next entry's position and add its elapsed time. */
  function Walk(h: seq<HistoryEntry>, pos: Position, timeInPast: real, limitMillis: real): Position
    decreases |h|
  {
    if h == [] || timeInPast >= limitMillis then pos
    else Walk(h[1..], h[0].1, timeInPast + h[0].0, limitMillis)
  }

  /** `getHistoricalPosition(player, reactionTimeSeconds)`. */
  function HistoricalPosition(r: PlayerRec, reactionTimeSeconds: real): Position {
    Walk(r.history, r.position, 0.0, reactionTimeSeconds * 1000.0)
  }

  /** The elapsed times of the newest `k` entries, summed. */
  function Elapsed(h: seq<HistoryEntry>, k: nat): real
    requires k <= |h|
  {
    if k == 0 then 0.0 else Elapsed(h, k - 1) + h[k - 1].0
  }

  /** The walk from entry `i` on stops at the first entry `k >= i` whose running
      sum reaches the limit, or at the oldest entry. */
  lemma {:induction false} WalkFrom(h: seq<HistoryEntry>, i: nat, limitMillis: real) returns (k: nat)
    requires 1 <= i <= |h|
    requires forall j :: 1 <= j < i ==> Elapsed(h, j) < limitMillis
    ensures i <= k <= |h|
    ensures Walk(h[i..], h[i - 1].1, Elapsed(h, i), limitMillis) == h[k - 1].1
    ensures forall j :: 1 <= j < k ==> Elapsed(h, j) < limitMillis
    ensures Elapsed(h, k) >= limitMillis || k == |h|
    decreases |h| - i
  {
    if i == |h| || Elapsed(h, i) >= limitMillis {
      k := i;
    } else {
      assert h[i..][0] == h[i] && h[i..][1..] == h[i + 1..];
      k := WalkFrom(h, i + 1, limitMillis);
    }
  }

  /** What `getHistoricalPosition` returns: the current position when the
      history is empty or the reaction time is not positive; otherwise the
      position of the first entry at which the running sum of elapsed times
      reaches `reactionTime * 1000`, or of the oldest entry when the sum never
      gets there. `k` is the number of entries walked. */
  lemma HistoricalPositionIsFirstReach(r: PlayerRec, reactionTimeSeconds: real) returns (k: nat)
    ensures var h := r.history;
            var limit := reactionTimeSeconds * 1000.0;
            && (h == [] || limit <= 0.0 ==> k == 0 && HistoricalPosition(r, reactionTimeSeconds) == r.position)
            && (h != [] && limit > 0.0 ==>
                  && 1 <= k <= |h|
                  && HistoricalPosition(r, reactionTimeSeconds) == h[k - 1].1
                  && (forall j :: 1 <= j < k ==> Elapsed(h, j) < limit)
                  && (Elapsed(h, k) >= limit || k == |h|))
  {
    var h := r.history;
    var limit := reactionTimeSeconds * 1000.0;
    if h == [] || limit <= 0.0 {
      k := 0;
    } else {
      assert Elapsed(h, 1) == 0.0 + h[0].0;
      k := WalkFrom(h, 1, limit);
    }
  }
}
