/** The tracking of repeated reconcile errors, and the condition derived from
    it: an account of every run of reconciles. */
module ErrorHistory {
  import opened FailureDomains

  const MAX_CONTINUOUS_ERRORS: nat := 15

  /** The last error, by its text, and how often in a row it has occurred. */
  datatype Tracker = Tracker(error: string, count: nat)

  /** What each reconcile returned: no error, or an error with some text. */
  type History = seq<Option<string>>

  function Track(last: Option<Tracker>, outcome: Option<string>): Option<Tracker> {
    if outcome.None? then None
    else if last.Some? && last.value.error == outcome.value then Some(Tracker(outcome.value, last.value.count + 1))
    else Some(Tracker(outcome.value, 1))
  }

  ghost function Tracked(history: History): Option<Tracker> {
    if history == [] then None
    else Track(Tracked(history[..|history| - 1]), history[|history| - 1])
  }

  predicate ErrorCondition(last: Option<Tracker>) {
    last.Some? && last.value.count >= MAX_CONTINUOUS_ERRORS
  }

  /** The last n reconciles all returned an error, with the same text. */
  ghost predicate SameError(history: History, n: nat) {
    && n <= |history|
    && (n > 0 ==> history[|history| - 1].Some?)
    && forall k :: |history| - n <= k < |history| ==> history[k] == history[|history| - 1]
  }

  /** The tracker counts the longest run of equal errors at the end. */
  lemma {:induction false} TrackedCounts(history: History, n: nat)
    requires n > 0
    ensures SameError(history, n) <==> Tracked(history).Some? && Tracked(history).value.count >= n
    ensures Tracked(history).Some? ==> history != [] && history[|history| - 1] == Some(Tracked(history).value.error)
  {
    if history != [] {
      var init, last := history[..|history| - 1], history[|history| - 1];
      if n > 1 {
        TrackedCounts(init, n - 1);
        SameErrorStep(history, n);
      }
      TrackedCounts(init, 1);
    }
  }

  lemma SameErrorStep(history: History, n: nat)
    requires n > 1 && history != []
    ensures var init, last := history[..|history| - 1], history[|history| - 1];
            SameError(history, n) <==> SameError(init, n - 1) && init[|init| - 1] == last
  {
    var init, last := history[..|history| - 1], history[|history| - 1];
    if SameError(history, n) {
      assert init[|init| - 1] == history[|history| - 2];
      forall k | |init| - (n - 1) <= k < |init| ensures init[k] == init[|init| - 1] {
        assert history[k] == last;
      }
    }
    if SameError(init, n - 1) && init[|init| - 1] == last {
      forall k | |history| - n <= k < |history| ensures history[k] == last {
        if k < |init| { assert init[k] == last; }
      }
    }
  }

  /** Over every run of reconciles the error condition is true exactly when the
      last fifteen all returned an error with the same text. */
  lemma ErrorConditionExact(history: History)
    ensures ErrorCondition(Tracked(history)) <==> SameError(history, MAX_CONTINUOUS_ERRORS)
  {
    TrackedCounts(history, MAX_CONTINUOUS_ERRORS);
  }

  class Reconciler {
    var lastError: Option<Tracker>
    var errorCondition: bool
    ghost var history: History

    ghost predicate Valid()
      reads this
    {
      lastError == Tracked(history) && errorCondition == SameError(history, MAX_CONTINUOUS_ERRORS)
    }

    constructor ()
      ensures Valid() && history == []
    {
      lastError, errorCondition, history := None, false, [];
    }

    /** Called with the outcome of each reconcile. */
    method SetLastError(outcome: Option<string>)
      requires Valid()
      modifies this
      ensures Valid() && history == old(history) + [outcome]
      ensures errorCondition <==> SameError(old(history) + [outcome], MAX_CONTINUOUS_ERRORS)
    {
      if outcome.None? {
        lastError := None;
      } else if lastError.Some? && outcome.value == lastError.value.error {
        lastError := Some(Tracker(lastError.value.error, lastError.value.count + 1));
      } else {
        lastError := Some(Tracker(outcome.value, 1));
      }
      errorCondition := lastError.Some? && !(lastError.value.count < MAX_CONTINUOUS_ERRORS);
      history := history + [outcome];
      assert history[..|history| - 1] == old(history);
      ErrorConditionExact(history);
    }
  }
}
