/** Normalising the requested size.  Sizes are unbounded here; NoOverflow says when that is exact for int64. */
module Capacity {
  import opened Wrappers
  import opened Text

  const GIB := 0x4000_0000
  const MINIMUM := 10 * GIB       // utils.MinimumVolumeSizeInBytes
  const RFS_MINIMUM := GIB        // MinimumRFSVolumeSizeInBytes
  const RFS := "rfs"
  const DP2 := "dp2"

  /** csi.CapacityRange; zero or less means not set. */
  datatype CapacityRange = CapacityRange(required: int, limit: int)

  /** utils.RoundUpBytes: up to the next whole GiB. */
  function RoundUpBytes(n: nat): nat {
    (n + GIB - 1) / GIB * GIB
  }

  /** utils.BytesToGiB. */
  function BytesToGiB(n: int): int {
    n / GIB
  }

  /** getRequestedCapacity. */
  function RequestedCapacity(range: Option<CapacityRange>, profile: string): Result<int> {
    match range
    case None => Ok(if profile == RFS then RFS_MINIMUM else MINIMUM)
    case Some(c) =>
      if c.limit > 0 && c.required > 0 && c.limit < c.required then Err("limit is less than required")
      else if c.limit > 0 && c.limit < MINIMUM then Err("limit is less than the minimum volume size")
      else
        var rounded := RoundUpBytes(if c.required > 0 then c.required else 0);
        Ok(if rounded < MINIMUM && profile != RFS then MINIMUM else rounded)
  }

  function Max(a: int, b: int): int {
    if a < b then b else a
  }

  function ProfileMinimum(profile: string): int {
    if profile == RFS then RFS_MINIMUM else MINIMUM
  }

  /** The rounding is the least whole number of GiB that is not smaller. */
  lemma RoundUpIsLeast(n: nat, k: int)
    ensures RoundUpBytes(n) % GIB == 0 && n <= RoundUpBytes(n) < n + GIB
    ensures n <= k && k % GIB == 0 ==> RoundUpBytes(n) <= k
  {
    var q := (n + GIB - 1) / GIB;
    assert q * GIB % GIB == 0;
    if n <= k && k % GIB == 0 {
      assert k == k / GIB * GIB;
      assert q <= k / GIB;
    }
  }

  /** Rejected exactly when the limit is below the request or below the minimum. */
  lemma RejectedExactly(c: CapacityRange, profile: string)
    ensures RequestedCapacity(Some(c), profile).Err? <==>
            c.limit > 0 && ((c.required > 0 && c.limit < c.required) || c.limit < MINIMUM)
  {
  }

  /**
   A positive request: a whole number of GiB, enough, less than one GiB too much, and the same after bytes -> GiB ->
   bytes.
   */
  lemma CapacityFits(c: CapacityRange, profile: string)
    requires c.required > 0 && RequestedCapacity(Some(c), profile).Ok?
    ensures var cap := RequestedCapacity(Some(c), profile).value;
            && cap % GIB == 0 && BytesToGiB(cap) * GIB == cap
            && c.required <= cap < Max(c.required, ProfileMinimum(profile)) + GIB
            && ProfileMinimum(profile) <= cap
  {
    RoundUpIsLeast(c.required, GIB);
    var cap := RequestedCapacity(Some(c), profile).value;
    assert cap % GIB == 0;
    WholeGiB(cap);
  }

  lemma WholeGiB(n: int)
    requires n % GIB == 0
    ensures n / GIB * GIB == n
  {
  }

  /** Every accepted size is a whole number of GiB, so the trip into the provider's unit and back loses nothing. */
  lemma WholeCapacity(range: Option<CapacityRange>, profile: string)
    requires RequestedCapacity(range, profile).Ok?
    ensures BytesToGiB(RequestedCapacity(range, profile).value) * GIB == RequestedCapacity(range, profile).value
  {
    if range.Some? {
      RoundUpIsLeast(if range.value.required > 0 then range.value.required else 0, 0);
    }
    WholeGiB(RequestedCapacity(range, profile).value);
  }

  /**
   Without a required size a share that is not rfs gets 10 GiB, with or without a range, and an rfs share without a
   range 1 GiB.
   */
  lemma MinimumWithoutRequest(c: CapacityRange, profile: string)
    requires c.required <= 0 && (c.limit <= 0 || c.limit >= 10737418240)
    ensures profile != "rfs" ==>
              RequestedCapacity(Some(c), profile) == Ok(10737418240)
              && RequestedCapacity(None, profile) == Ok(10737418240)
    ensures RequestedCapacity(None, "rfs") == Ok(1073741824)
  {
  }

  /**
   A positive request in numbers: the least multiple of 2 to the 30th, but 10 of them at least unless the share is
   rfs.
   */
  lemma SizeInBytes(c: CapacityRange, profile: string, k: int)
    requires c.required > 0 && RequestedCapacity(Some(c), profile).Ok?
    ensures var cap := RequestedCapacity(Some(c), profile).value;
            && cap >= c.required && cap % 1073741824 == 0 && (profile != "rfs" ==> cap >= 10737418240)
            && (k % 1073741824 == 0 && k >= c.required && (profile != "rfs" ==> k >= 10737418240) ==> cap <= k)
  {
    RoundUpIsLeast(c.required, k);
  }

  /**
   The limit is respected exactly when a whole number of GiB lies between request and limit; any limit in whole GiB
   is.
   */
  lemma LimitRespectedExactly(c: CapacityRange, profile: string)
    requires c.required > 0 && c.limit > 0 && RequestedCapacity(Some(c), profile).Ok?
    ensures RequestedCapacity(Some(c), profile).value <= c.limit <==> exists k :: c.required <= k * GIB <= c.limit
    ensures c.limit % GIB == 0 ==> RequestedCapacity(Some(c), profile).value <= c.limit
  {
    var cap := RequestedCapacity(Some(c), profile).value;
    assert cap == if RoundUpBytes(c.required) < MINIMUM && profile != RFS then MINIMUM else RoundUpBytes(c.required);
    assert cap <= c.limit <==> RoundUpBytes(c.required) <= c.limit;
    RoundUpIsLeast(c.required, c.limit);
    MultipleBetween(c.required, c.limit);
  }

  /** The rounded size is within the limit exactly when some whole number of GiB is. */
  lemma MultipleBetween(n: nat, limit: int)
    ensures RoundUpBytes(n) <= limit <==> exists k :: n <= k * GIB <= limit
  {
    if exists k :: n <= k * GIB <= limit {
      var k :| n <= k * GIB <= limit;
      assert k * GIB % GIB == 0;
      RoundUpIsLeast(n, k * GIB);
    }
    if RoundUpBytes(n) <= limit {
      RoundUpIsLeast(n, limit);
      WholeGiB(RoundUpBytes(n));
      assert n <= RoundUpBytes(n) / GIB * GIB <= limit;
    }
  }

  /** A limit that is not whole: one byte over ten GiB, request and limit alike, is accepted and exceeded. */
  lemma LimitCanBeExceeded(profile: string)
    ensures RequestedCapacity(Some(CapacityRange(MINIMUM + 1, MINIMUM + 1)), profile) == Ok(11 * GIB)
  {
  }

  /**
   A range without a required size gives an rfs share whatever the rounding makes of 0, which is smaller than without a
   range if it makes 0 of it, as RoundUpBytes does here.
   */
  lemma RfsRangeWithoutRequest(c: CapacityRange)
    requires c.required <= 0 && (c.limit <= 0 || c.limit >= MINIMUM)
    ensures RequestedCapacity(Some(c), RFS) == Ok(RoundUpBytes(0)) && RequestedCapacity(None, RFS) == Ok(RFS_MINIMUM)
  {
  }

  /** Nothing overflows int64 as long as the request stays one GiB below its end. */
  lemma NoOverflow(c: CapacityRange, profile: string)
    requires c.required <= MAX_INT64 - GIB + 1 && RequestedCapacity(Some(c), profile).Ok?
    ensures 0 <= RequestedCapacity(Some(c), profile).value <= MAX_INT64
    ensures c.required > 0 ==> c.required + GIB - 1 <= MAX_INT64
  {
    RoundUpIsLeast(if c.required > 0 then c.required else 0, 0);
  }
}
