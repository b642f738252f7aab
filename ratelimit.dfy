/**
 * The request gate that wraps every API call: at most `Quota` calls are
 * admitted per wall-clock minute. The clock is abstracted to the sequence of
 * minute stamps (`"%Y-%m-%dT%H:%M"`) that the waiting loop reads; sleeping
 * until the next minute is the step from one reading to the next.
 */
module RateLimit {
  import opened Wrappers

  /** A minute stamp, the key of the per-minute counter. */
  type Bucket = string

  const Quota: nat := 60

  /** The counter of a bucket; a `defaultdict(int)` reads a missing bucket as 0. */
  function Count(counts: map<Bucket, nat>, b: Bucket): nat
  {
    if b in counts then counts[b] else 0
  }

  /** No bucket has admitted more than `Quota` calls. */
  ghost predicate WithinQuota(counts: map<Bucket, nat>)
  {
    forall b :: b in counts ==> counts[b] <= Quota
  }

  /** A call is admitted in `b` exactly when `b`'s counter is below the quota. */
  predicate Open(counts: map<Bucket, nat>, b: Bucket)
  {
    Count(counts, b) < Quota
  }

  /** Admission in `b`: `b`'s counter goes up by one. */
  function Charge(counts: map<Bucket, nat>, b: Bucket): map<Bucket, nat>
  {
    counts[b := Count(counts, b) + 1]
  }

  /** Index of the first clock reading whose bucket is open, if any. */
  function FirstOpen(counts: map<Bucket, nat>, readings: seq<Bucket>): (r: Option<nat>)
    ensures r.Some? ==> r.value < |readings| && Open(counts, readings[r.value])
    ensures r.Some? ==> forall j :: 0 <= j < r.value ==> !Open(counts, readings[j])
    ensures r.None? ==> forall j :: 0 <= j < |readings| ==> !Open(counts, readings[j])
  {
    if readings == [] then None
    else if Open(counts, readings[0]) then Some(0)
    else match FirstOpen(counts, readings[1..])
      case None => None
      case Some(i) => Some(i + 1)
  }

  /** Admitting in an open bucket raises its counter by one, keeps every other and keeps the quota. */
  lemma ChargeKeepsQuota(counts: map<Bucket, nat>, b: Bucket)
    requires WithinQuota(counts) && Open(counts, b)
    ensures WithinQuota(Charge(counts, b))
    ensures Count(Charge(counts, b), b) == Count(counts, b) + 1
    ensures forall b' :: b' != b ==> Count(Charge(counts, b), b') == Count(counts, b')
  {
  }

  /** `n` admissions in one bucket, starting from `counts`. */
  function ChargeTimes(counts: map<Bucket, nat>, b: Bucket, n: nat): map<Bucket, nat>
  {
    if n == 0 then counts else Charge(ChargeTimes(counts, b, n - 1), b)
  }

  /**
   * After `Quota` admissions in a fresh bucket, every further reading of that
   * same bucket is refused: the next call waits for a later bucket.
   */
  lemma {:induction false} FullBucketWaits(counts: map<Bucket, nat>, b: Bucket, readings: seq<Bucket>)
    requires Count(counts, b) == 0
    requires forall j :: 0 <= j < |readings| ==> readings[j] == b
    ensures Count(ChargeTimes(counts, b, Quota), b) == Quota
    ensures FirstOpen(ChargeTimes(counts, b, Quota), readings) == None
  {
    ChargeTimesCount(counts, b, Quota);
  }

  lemma {:induction false} ChargeTimesCount(counts: map<Bucket, nat>, b: Bucket, n: nat)
    ensures Count(ChargeTimes(counts, b, n), b) == Count(counts, b) + n
  {
    if n > 0 {
      ChargeTimesCount(counts, b, n - 1);
    }
  }

  /** The process-wide counter `REQUESTS_MADE_THIS_MINUTE`. */
  class RateLimiter {
    var counts: map<Bucket, nat>

    ghost predicate Valid()
      reads this
    {
      WithinQuota(counts)
    }

    constructor ()
      ensures Valid() && counts == map[]
    {
      counts := map[];
    }

    /**
     * The gate in front of one call: wait while the current bucket is full,
     * then count the call in the bucket that let it through. `readings` are
     * the clock readings the waiting loop takes; when they run out before an
     * open bucket is read, the call is still waiting (`admitted` is false).
     */
    method Admit(readings: seq<Bucket>) returns (admitted: bool, bucket: Bucket)
      requires Valid()
      modifies this
      ensures Valid()
      ensures admitted <==> FirstOpen(old(counts), readings).Some?
      ensures admitted ==> bucket == readings[FirstOpen(old(counts), readings).value]
      ensures admitted ==> counts == Charge(old(counts), bucket)
      ensures !admitted ==> counts == old(counts)
    {
      var i := 0;
      while i < |readings| && !Open(counts, readings[i])
        invariant 0 <= i <= |readings|
        invariant forall j :: 0 <= j < i ==> !Open(counts, readings[j])
      {
        i := i + 1;
      }
      if i == |readings| {
        admitted, bucket := false, "";
        return;
      }
      bucket := readings[i];
      ChargeKeepsQuota(counts, bucket);
      counts := Charge(counts, bucket);
      admitted := true;
    }
  }
}
