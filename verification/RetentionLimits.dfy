/** The limits of one maintenance run. */
module RetentionLimits {
  import opened Prelude

  /** A number given for a limit: left out, an integer, or anything else. */
  datatype Setting = Default | Integer(value: int) | NotInteger

  datatype RawLimits = RawLimits(maxBackfill: Setting, maxReconcile: Setting, maxInventory: Setting, maxPrune: Setting,
                                 maxReceiptRetire: Setting, maxTerminalRetire: Setting, deadlineMs: Setting)

  datatype Limits = Limits(maxBackfill: nat, maxReconcile: nat, maxInventory: nat, maxPrune: nat,
                           maxReceiptRetire: nat, maxTerminalRetire: nat, deadlineMs: nat)

  const LIMIT_INVALID := "MONITOR_PILOT_RETENTION_LIMIT_INVALID"
  const DEADLINE_INVALID := "MONITOR_PILOT_RETENTION_DEADLINE_INVALID"
  const DEFAULTS := Limits(500, 500, 5000, 250, 250, 250, 30000)
  const MAXIMUM := 5000

  function Given(setting: Setting, default: nat): Setting {
    if setting.Default? then Integer(default) else setting
  }

  predicate Within(setting: Setting, minimum: int, maximum: int) {
    setting.Integer? && minimum <= setting.value <= maximum
  }

  predicate LimitsInRange(raw: RawLimits) {
    && Within(Given(raw.maxBackfill, DEFAULTS.maxBackfill), 0, MAXIMUM)
    && Within(Given(raw.maxReconcile, DEFAULTS.maxReconcile), 0, MAXIMUM)
    && Within(Given(raw.maxInventory, DEFAULTS.maxInventory), 1, MAXIMUM)
    && Within(Given(raw.maxPrune, DEFAULTS.maxPrune), 0, MAXIMUM)
    && Within(Given(raw.maxReceiptRetire, DEFAULTS.maxReceiptRetire), 0, MAXIMUM)
    && Within(Given(raw.maxTerminalRetire, DEFAULTS.maxTerminalRetire), 0, MAXIMUM)
  }

  predicate DeadlineInRange(raw: RawLimits) {
    Within(Given(raw.deadlineMs, DEFAULTS.deadlineMs), 1000, 300000)
  }

  /** `resolveLimits`: the integer limits are checked in the order of their table, then the deadline. */
  method ResolveLimits(raw: RawLimits) returns (r: Result<Limits>)
    ensures r.Ok? <==> LimitsInRange(raw) && DeadlineInRange(raw)
    ensures r.Ok? ==> r.value.maxInventory >= 1 && Meant(raw, r.value)
    ensures r.Err? ==> r.code == if LimitsInRange(raw) then DEADLINE_INVALID else LIMIT_INVALID
  {
    var order := [(Given(raw.maxBackfill, 500), 0), (Given(raw.maxReconcile, 500), 0), (Given(raw.maxInventory, 5000), 1),
                  (Given(raw.maxPrune, 250), 0), (Given(raw.maxReceiptRetire, 250), 0),
                  (Given(raw.maxTerminalRetire, 250), 0)];
    for i := 0 to |order|
      invariant forall k | 0 <= k < i :: Within(order[k].0, order[k].1, MAXIMUM)
    {
      if !Within(order[i].0, order[i].1, MAXIMUM) {
        return Err(LIMIT_INVALID);
      }
    }
    assert forall k | 0 <= k < 6 :: Within(order[k].0, order[k].1, MAXIMUM);
    assert Within(order[0].0, 0, MAXIMUM) && Within(order[1].0, 0, MAXIMUM) && Within(order[2].0, 1, MAXIMUM);
    assert Within(order[3].0, 0, MAXIMUM) && Within(order[4].0, 0, MAXIMUM) && Within(order[5].0, 0, MAXIMUM);
    var deadline := Given(raw.deadlineMs, 30000);
    if !Within(deadline, 1000, 300000) {
      return Err(DEADLINE_INVALID);
    }
    return Ok(Limits(order[0].0.value, order[1].0.value, order[2].0.value, order[3].0.value,
                     order[4].0.value, order[5].0.value, deadline.value));
  }

  predicate Kept(setting: Setting, value: nat, default: nat) {
    Given(setting, default) == Integer(value)
  }

  /** Every limit is the one that was given, or its default. */
  predicate Meant(raw: RawLimits, l: Limits) {
    && Kept(raw.maxBackfill, l.maxBackfill, DEFAULTS.maxBackfill)
    && Kept(raw.maxReconcile, l.maxReconcile, DEFAULTS.maxReconcile)
    && Kept(raw.maxInventory, l.maxInventory, DEFAULTS.maxInventory)
    && Kept(raw.maxPrune, l.maxPrune, DEFAULTS.maxPrune)
    && Kept(raw.maxReceiptRetire, l.maxReceiptRetire, DEFAULTS.maxReceiptRetire)
    && Kept(raw.maxTerminalRetire, l.maxTerminalRetire, DEFAULTS.maxTerminalRetire)
    && Kept(raw.deadlineMs, l.deadlineMs, DEFAULTS.deadlineMs)
  }
}
