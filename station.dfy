/**
 * The acquisition task and the four queues it feeds. Every sample is offered,
 * without waiting, to the display, indicator, buzzer and matrix queues in that
 * order; a full queue drops it and the others are not affected.
 */
module Acquisition {
  import opened Sensor
  import opened Queue

  /** Every queue is created with room for five samples. */
  const QUEUE_LENGTH: nat := 5

  class Station {
    const display: SampleQueue
    const indicator: SampleQueue
    const buzzer: SampleQueue
    const matrix: SampleQueue

    /** Four separate queues, each of length five and within it. */
    ghost predicate Valid()
      reads this, display, indicator, buzzer, matrix
    {
      display != indicator && display != buzzer && display != matrix &&
      indicator != buzzer && indicator != matrix && buzzer != matrix &&
      display.capacity == QUEUE_LENGTH && indicator.capacity == QUEUE_LENGTH &&
      buzzer.capacity == QUEUE_LENGTH && matrix.capacity == QUEUE_LENGTH &&
      display.Valid() && indicator.Valid() && buzzer.Valid() && matrix.Valid()
    }

    /** The four `xQueueCreate(5, ...)` calls: four new, empty queues. */
    constructor ()
      ensures Valid()
      ensures fresh(display) && fresh(indicator) && fresh(buzzer) && fresh(matrix)
      ensures display.items == [] && indicator.items == [] && buzzer.items == [] && matrix.items == []
    {
      display := new SampleQueue(QUEUE_LENGTH);
      indicator := new SampleQueue(QUEUE_LENGTH);
      buzzer := new SampleQueue(QUEUE_LENGTH);
      matrix := new SampleQueue(QUEUE_LENGTH);
    }

    /** One cycle of the acquisition loop: the sample is offered to each queue with timeout 0. */
    method Publish(s: Sample)
      requires Valid()
      modifies display, indicator, buzzer, matrix
      ensures Valid()
      ensures display.items == Offer(old(display.items), QUEUE_LENGTH, s)
      ensures indicator.items == Offer(old(indicator.items), QUEUE_LENGTH, s)
      ensures buzzer.items == Offer(old(buzzer.items), QUEUE_LENGTH, s)
      ensures matrix.items == Offer(old(matrix.items), QUEUE_LENGTH, s)
    {
      var _ := display.TrySend(s);
      var _ := indicator.TrySend(s);
      var _ := buzzer.TrySend(s);
      var _ := matrix.TrySend(s);
    }

    /** The acquisition loop over a run of readings, with no consumer taking anything meanwhile. */
    method Acquire(samples: seq<Sample>)
      requires Valid()
      modifies display, indicator, buzzer, matrix
      ensures Valid()
      ensures display.items == OfferAll(old(display.items), QUEUE_LENGTH, samples)
      ensures indicator.items == OfferAll(old(indicator.items), QUEUE_LENGTH, samples)
      ensures buzzer.items == OfferAll(old(buzzer.items), QUEUE_LENGTH, samples)
      ensures matrix.items == OfferAll(old(matrix.items), QUEUE_LENGTH, samples)
    {
      for i := 0 to |samples|
        invariant Valid()
        invariant display.items == OfferAll(old(display.items), QUEUE_LENGTH, samples[..i])
        invariant indicator.items == OfferAll(old(indicator.items), QUEUE_LENGTH, samples[..i])
        invariant buzzer.items == OfferAll(old(buzzer.items), QUEUE_LENGTH, samples[..i])
        invariant matrix.items == OfferAll(old(matrix.items), QUEUE_LENGTH, samples[..i])
      {
        assert samples[..i + 1][..i] == samples[..i];
        Publish(samples[i]);
      }
      assert samples[..|samples|] == samples;
    }
  }
}
