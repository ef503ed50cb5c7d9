/** The size arithmetic of CreateVolume: extractStorage (driver/utils.go). */
module Capacity {
  import opened Wrappers

  const GIB: int := 0x4000_0000
  const MINIMUM_BYTES: int := GIB
  const MAXIMUM_BYTES: int := 128 * GIB
  const DEFAULT_BYTES: int := 16 * GIB

  /** The capacity range of a request; a field that is not positive counts as not set. */
  datatype CapacityRange = CapacityRange(requiredBytes: int, limitBytes: int)

  datatype RangeError =
    | LimitBelowRequired
    | RequiredBelowMinimum
    | LimitBelowMinimum
    | LimitNotMultiple
    | RequiredAboveMaximum
    | RequiredNotMultiple
    | LimitAboveMaximum

  /** Go's remainder truncates toward zero; the sign of the dividend is kept. */
  function Rem(a: int, b: int): int
    requires b > 0
  {
    if a < 0 then -(-a % b) else a % b
  }

  /** A size the driver can provision. */
  predicate IsVolumeSize(bytes: int) {
    MINIMUM_BYTES <= bytes <= MAXIMUM_BYTES && bytes % GIB == 0
  }

  /** What the caller asked for: each bound that is set is respected. */
  predicate WithinRange(bytes: int, range: CapacityRange) {
    && (0 < range.requiredBytes ==> range.requiredBytes <= bytes)
    && (0 < range.limitBytes ==> bytes <= range.limitBytes)
  }

  /**
   The size to provision, or why the range is refused. The contract gives the
   exact condition for acceptance: every bound that is set is a multiple of
   1 GiB, the bounds are in order, and the one that decides the size is a size
   the driver supports (the limit itself may exceed the maximum when a
   requirement is set). An accepted size is one the driver supports, inside the
   range, the least such when a requirement is set and the greatest when only a
   limit is, and counting it in GiB, as CreateVolume does, loses nothing.
   */
  function ExtractStorage(range: Option<CapacityRange>): (r: Result<int, RangeError>)
    ensures r.Success? ==> IsVolumeSize(r.value) && r.value / GIB * GIB == r.value && 1 <= r.value / GIB <= 128
    ensures range.Some? && r.Success? ==> WithinRange(r.value, range.value)
    ensures range.Some? && r.Success? && 0 < range.value.requiredBytes ==>
              forall t | WithinRange(t, range.value) :: r.value <= t
    ensures range.Some? && r.Success? && range.value.requiredBytes <= 0 < range.value.limitBytes ==>
              forall t | WithinRange(t, range.value) :: t <= r.value
    ensures range.None? || (range.value.requiredBytes <= 0 && range.value.limitBytes <= 0) ==>
              r == Success(DEFAULT_BYTES)
    ensures range.Some? ==> (r.Success? <==>
              var required, limit := range.value.requiredBytes, range.value.limitBytes;
              && (0 < required ==> IsVolumeSize(required))
              && (0 < limit ==> limit % GIB == 0 && required <= limit)
              && (required <= 0 < limit ==> IsVolumeSize(limit)))
  {
    if range.None? then Success(DEFAULT_BYTES)
    else
      var required, limit := range.value.requiredBytes, range.value.limitBytes;
      var requiredSet, limitSet := 0 < required, 0 < limit;
      if !requiredSet && !limitSet then Success(DEFAULT_BYTES)
      else if requiredSet && limitSet && limit < required then Failure(LimitBelowRequired)
      else if requiredSet && !limitSet && required < MINIMUM_BYTES then Failure(RequiredBelowMinimum)
      else if limitSet && limit < MINIMUM_BYTES then Failure(LimitBelowMinimum)
      else if limitSet && Rem(limit, GIB) != 0 then Failure(LimitNotMultiple)
      else if requiredSet && required > MAXIMUM_BYTES then Failure(RequiredAboveMaximum)
      else if requiredSet && Rem(required, GIB) != 0 then Failure(RequiredNotMultiple)
      else if !requiredSet && limitSet && limit > MAXIMUM_BYTES then Failure(LimitAboveMaximum)
      else if requiredSet && limitSet && required == limit then Success(required)
      else if requiredSet then Success(required)
      else if limitSet then Success(limit)
      else Success(DEFAULT_BYTES)
  }

  /**
   With a usable limit set, a requirement under 1 GiB passes the check for the
   minimum size, and only the check for a multiple of 1 GiB turns it away.
   */
  lemma SmallRequirementWithLimit(range: CapacityRange)
    requires 0 < range.requiredBytes < MINIMUM_BYTES
    ensures ExtractStorage(Some(range)) == Failure(RequiredNotMultiple)
            <==> MINIMUM_BYTES <= range.limitBytes && range.limitBytes % GIB == 0
    ensures ExtractStorage(Some(range)) == Failure(RequiredBelowMinimum) <==> range.limitBytes <= 0
  {
  }

  lemma SizesInBytes()
    ensures GIB == 1_073_741_824 && MINIMUM_BYTES == 1_073_741_824
    ensures MAXIMUM_BYTES == 137_438_953_472 && DEFAULT_BYTES == 17_179_869_184
  {
  }

  /** A set bound has no fraction of 1 GiB. */
  ghost predicate WholeGiB(bytes: int) {
    exists gib :: bytes == gib * 1_073_741_824
  }

  /** The reason for a refusal is the first one, in this order, that is true of the range. */
  lemma RefusalIsFirstReason(range: CapacityRange)
    requires ExtractStorage(Some(range)).Failure?
    ensures var required, limit := range.requiredBytes, range.limitBytes;
            var limitUsable := limit <= 0 || (1_073_741_824 <= limit && required <= limit && WholeGiB(limit));
            match ExtractStorage(Some(range)).error
            case LimitBelowRequired => 0 < limit < required
            case RequiredBelowMinimum => limit <= 0 && 0 < required < 1_073_741_824
            case LimitBelowMinimum => 0 < limit < 1_073_741_824 && required <= limit
            case LimitNotMultiple => 1_073_741_824 <= limit && required <= limit && !WholeGiB(limit)
            case RequiredAboveMaximum => limitUsable && 137_438_953_472 < required
            case RequiredNotMultiple =>
              limitUsable && 0 < required <= 137_438_953_472 && (limit <= 0 ==> 1_073_741_824 <= required)
              && !WholeGiB(required)
            case LimitAboveMaximum => limitUsable && required <= 0 && 137_438_953_472 < limit
  {
    forall bytes | WholeGiB(bytes)
      ensures bytes % GIB == 0
    {
      var gib :| bytes == gib * 1_073_741_824;
    }
    var limit := range.limitBytes;
    if 0 < limit && limit % GIB == 0 {
      assert limit == limit / GIB * 1_073_741_824;
    }
  }
}
