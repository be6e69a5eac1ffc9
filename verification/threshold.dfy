/**
 * The mute threshold: its value at load time, taken from the persisted
 * setting, and how an edit through the settings prompt changes it.
 */
module Threshold {
  import opened Wrappers

  /** Threshold used when no usable value is stored. */
  const DefaultThreshold: real := 3.5

  /**
   * The threshold at load time from the stored setting as parsed (None when
   * the entry is absent or does not parse as a number). A parsed zero is
   * falsy and also falls back to the default.
   */
  function InitialThreshold(stored: Option<real>): (t: real)
    ensures t != 0.0
    ensures stored.None? ==> t == DefaultThreshold
    ensures stored == Some(0.0) ==> t == DefaultThreshold
    ensures stored.Some? && stored.value != 0.0 ==> t == stored.value
  {
    if stored.Some? && stored.value != 0.0 then stored.value else DefaultThreshold
  }

  /** What the settings prompt returns: null on cancel, otherwise the typed text as parsed (None for not-a-number). */
  datatype Edit = Cancelled | Entered(parsed: Option<real>)

  /** The new threshold an edit sets, or None when the edit is ignored. */
  function AcceptedEdit(e: Edit): (t: Option<real>)
    ensures t.None? <==> e.Cancelled? || e.parsed.None?
    ensures t.Some? ==> e == Entered(t)
  {
    if e.Entered? && e.parsed.Some? then e.parsed else None
  }

  /**
   * What a reload makes of an accepted edit: the stored value comes back,
   * except that a stored zero reloads as the default.
   */
  lemma ReloadAfterEdit(e: Edit)
    requires AcceptedEdit(e).Some?
    ensures AcceptedEdit(e).value != 0.0 ==> InitialThreshold(AcceptedEdit(e)) == AcceptedEdit(e).value
    ensures AcceptedEdit(e).value == 0.0 ==> InitialThreshold(AcceptedEdit(e)) == DefaultThreshold
  {
  }
}
