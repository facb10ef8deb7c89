/** The search pattern both nearest-point loops of the placement code share:

      best := null; bestDist := limit;
      foreach x in xs: if ok(x) && dist(x) < bestDist { best := x; bestDist := dist(x) }

    Because the comparison is a strict `<`, the scan keeps the FIRST element of minimal key
    among the accepted ones. `Scan` is that loop, element by element; `IsFirstMin` is the
    independent description of its answer. */
module FirstMin {
  import opened Wrappers

  /** `xs[j]` passes the filter and is strictly inside the limit. */
  ghost predicate Accepted<T>(xs: seq<T>, key: T -> real, ok: T -> bool, limit: real, j: int) {
    0 <= j < |xs| && ok(xs[j]) && key(xs[j]) < limit
  }

  /** `xs[k]` is accepted, no accepted element has a smaller key, and every accepted element
      before it has a strictly larger key. */
  ghost predicate IsFirstMin<T>(xs: seq<T>, key: T -> real, ok: T -> bool, limit: real, k: int) {
    && Accepted(xs, key, ok, limit, k)
    && (forall j :: 0 <= j < |xs| && ok(xs[j]) ==> key(xs[k]) <= key(xs[j]))
    && (forall j :: 0 <= j < k && ok(xs[j]) ==> key(xs[k]) < key(xs[j]))
  }

  /** No element is accepted. */
  ghost predicate NoneAccepted<T>(xs: seq<T>, key: T -> real, ok: T -> bool, limit: real) {
    forall j :: 0 <= j < |xs| && ok(xs[j]) ==> limit <= key(xs[j])
  }

  /** What holds of the loop state after `xs[..i]` has been scanned. */
  ghost predicate ScanState<T>(xs: seq<T>, key: T -> real, ok: T -> bool, limit: real,
                               i: int, best: Option<nat>, bestKey: real) {
    && 0 <= i <= |xs|
    && (best.None? ==>
          && bestKey == limit
          && forall j :: 0 <= j < i && ok(xs[j]) ==> limit <= key(xs[j]))
    && (best.Some? ==>
          && best.value < i
          && Accepted(xs, key, ok, limit, best.value)
          && bestKey == key(xs[best.value])
          && (forall j :: 0 <= j < i && ok(xs[j]) ==> bestKey <= key(xs[j]))
          && (forall j :: 0 <= j < best.value && ok(xs[j]) ==> bestKey < key(xs[j])))
  }

  /** The loop from position `i` on, with the best index and key found so far. */
  function ScanFrom<T>(xs: seq<T>, key: T -> real, ok: T -> bool,
                       i: nat, best: Option<nat>, bestKey: real): Option<nat>
    requires i <= |xs|
    decreases |xs| - i
  {
    if i == |xs| then best
    else if ok(xs[i]) && key(xs[i]) < bestKey then ScanFrom(xs, key, ok, i + 1, Some(i), key(xs[i]))
    else ScanFrom(xs, key, ok, i + 1, best, bestKey)
  }

  /** One step of the loop keeps `ScanState`, so the finished loop answers as described. */
  lemma {:induction false} ScanFromCorrect<T>(xs: seq<T>, key: T -> real, ok: T -> bool, limit: real,
                                              i: nat, best: Option<nat>, bestKey: real)
    requires i <= |xs|
    requires ScanState(xs, key, ok, limit, i, best, bestKey)
    ensures ScanFrom(xs, key, ok, i, best, bestKey).None? <==> NoneAccepted(xs, key, ok, limit)
    ensures ScanFrom(xs, key, ok, i, best, bestKey).Some? ==>
              IsFirstMin(xs, key, ok, limit, ScanFrom(xs, key, ok, i, best, bestKey).value)
    decreases |xs| - i
  {
    if i == |xs| {
      if best.Some? {
        assert !NoneAccepted(xs, key, ok, limit) by {
          assert ok(xs[best.value]) && key(xs[best.value]) < limit;
        }
      }
    } else if ok(xs[i]) && key(xs[i]) < bestKey {
      assert ScanState(xs, key, ok, limit, i + 1, Some(i), key(xs[i]));
      ScanFromCorrect(xs, key, ok, limit, i + 1, Some(i), key(xs[i]));
    } else {
      assert ScanState(xs, key, ok, limit, i + 1, best, bestKey);
      ScanFromCorrect(xs, key, ok, limit, i + 1, best, bestKey);
    }
  }

  /** The whole loop, started with no best element and `limit` as the distance to beat. */
  function Scan<T>(xs: seq<T>, key: T -> real, ok: T -> bool, limit: real): (r: Option<nat>)
    ensures r.None? <==> NoneAccepted(xs, key, ok, limit)
    ensures r.Some? ==> IsFirstMin(xs, key, ok, limit, r.value)
  {
    ScanFromCorrect(xs, key, ok, limit, 0, None, limit);
    ScanFrom(xs, key, ok, 0, None, limit)
  }

  /** At most one index meets the description, so it determines the scan's answer. */
  lemma FirstMinUnique<T>(xs: seq<T>, key: T -> real, ok: T -> bool, limit: real, k1: int, k2: int)
    requires IsFirstMin(xs, key, ok, limit, k1) && IsFirstMin(xs, key, ok, limit, k2)
    ensures k1 == k2
  {
  }

  /** The scan's answer is exactly the index the description names. */
  lemma ScanIsFirstMin<T>(xs: seq<T>, key: T -> real, ok: T -> bool, limit: real, k: int)
    ensures Scan(xs, key, ok, limit) == Some(k) <==> IsFirstMin(xs, key, ok, limit, k)
  {
    var r := Scan(xs, key, ok, limit);
    if IsFirstMin(xs, key, ok, limit, k) {
      assert !NoneAccepted(xs, key, ok, limit) by {
        assert ok(xs[k]) && key(xs[k]) < limit;
      }
      FirstMinUnique(xs, key, ok, limit, r.value, k);
    }
  }
}
