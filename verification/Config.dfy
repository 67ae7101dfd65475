/** internal/config/config.go: the capacity settings of an endpoint, their validation at
    load time, and the merge of an override onto the package defaults. */
module Config {
  import opened Prelude

  datatype CapacityLimit = CapacityLimit(maxRequests: int, windowSeconds: int)

  datatype CapacityLearning = CapacityLearning(
    decreaseFactor: real, increaseInterval: int, minEstimate: int, windowSeconds: int)

  const DEFAULT_LEARNING := CapacityLearning(0.5, 60, 1, 60)

  /** The parameter ranges the control loop relies on. */
  predicate InRange(p: CapacityLearning) {
    0.0 < p.decreaseFactor < 1.0 && p.increaseInterval >= 1 && p.minEstimate >= 1 && p.windowSeconds >= 1
  }

  function ResolveCapacityLearning(override: Option<CapacityLearning>): CapacityLearning {
    match override
    case None => DEFAULT_LEARNING
    case Some(o) => CapacityLearning(
      if o.decreaseFactor != 0.0 then o.decreaseFactor else DEFAULT_LEARNING.decreaseFactor,
      if o.increaseInterval != 0 then o.increaseInterval else DEFAULT_LEARNING.increaseInterval,
      if o.minEstimate != 0 then o.minEstimate else DEFAULT_LEARNING.minEstimate,
      if o.windowSeconds != 0 then o.windowSeconds else DEFAULT_LEARNING.windowSeconds)
  }

  /** A field is acceptable when it is unset (zero) or inside its range. */
  predicate Acceptable(o: CapacityLearning) {
    && 0.0 <= o.decreaseFactor < 1.0
    && o.increaseInterval >= 0 && o.minEstimate >= 0 && o.windowSeconds >= 0
  }

  /** An endpoint's capacity settings; the validators overwrite them in place. */
  class EndpointCapacity {
    var capacity: Option<CapacityLimit>
    var learning: Option<CapacityLearning>

    constructor (capacity: Option<CapacityLimit>, learning: Option<CapacityLearning>)
      ensures this.capacity == capacity && this.learning == learning
    {
      this.capacity := capacity;
      this.learning := learning;
    }

    /** A static limit survives validation exactly when both of its fields are positive. */
    method ValidateCapacity()
      modifies this`capacity
      ensures forall c ::
        capacity == Some(c) <==> old(capacity) == Some(c) && c.maxRequests > 0 && c.windowSeconds > 0
    {
      if capacity.None? {
        return;
      }
      if capacity.value.windowSeconds <= 0 {
        capacity := None;
        return;
      }
      if capacity.value.maxRequests <= 0 {
        capacity := None;
      }
    }

    /** After validation every override resolves to parameters in range, and a field the
        operator set inside its range is the one in force. */
    method ValidateCapacityLearning()
      modifies this`learning
      ensures learning.Some? == old(learning).Some?
      ensures learning.Some? ==> Acceptable(learning.value)
      ensures InRange(ResolveCapacityLearning(learning))
      ensures old(learning).Some? ==>
        var was, now := old(learning).value, ResolveCapacityLearning(learning);
        && (if 0.0 < was.decreaseFactor < 1.0 then now.decreaseFactor == was.decreaseFactor
            else now.decreaseFactor == 0.5)
        && (if was.increaseInterval > 0 then now.increaseInterval == was.increaseInterval
            else now.increaseInterval == 60)
        && (if was.minEstimate > 0 then now.minEstimate == was.minEstimate else now.minEstimate == 1)
        && (if was.windowSeconds > 0 then now.windowSeconds == was.windowSeconds else now.windowSeconds == 60)
    {
      if learning.None? {
        return;
      }
      if learning.value.windowSeconds < 0 {
        learning := Some(learning.value.(windowSeconds := 0));
      }
      if learning.value.decreaseFactor != 0.0 &&
         (learning.value.decreaseFactor <= 0.0 || learning.value.decreaseFactor >= 1.0) {
        learning := Some(learning.value.(decreaseFactor := 0.0));
      }
      if learning.value.increaseInterval < 0 {
        learning := Some(learning.value.(increaseInterval := 0));
      }
      if learning.value.minEstimate < 0 {
        learning := Some(learning.value.(minEstimate := 0));
      }
    }
  }

  /** Validation is exactly what resolution needs: an override resolves into range if and
      only if each of its fields is unset or in range. */
  lemma ResolvesInRangeIffAcceptable(o: CapacityLearning)
    ensures InRange(ResolveCapacityLearning(Some(o))) <==> Acceptable(o)
  {
  }
}
