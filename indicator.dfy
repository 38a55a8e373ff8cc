/**
 * The RGB indicator task: each received sample sets the LED red when it
 * alerts and switches it off when it does not. It keeps no state of its own.
 */
module IndicatorTask {
  import opened Wrappers
  import opened Sensor
  import opened Queue
  import opened Latch

  /** The three channel values handed to `set_rgb`. */
  datatype Rgb = Rgb(red: uint8, green: uint8, blue: uint8)

  /** What the task asks of the LED for a sample: red on alert, off otherwise. */
  function IndicatorColour(s: Sample): (c: Rgb)
    ensures c.green == 0 && c.blue == 0
    ensures c == Rgb(1, 0, 0) <==> IsAlert(s)
    ensures c == Rgb(0, 0, 0) <==> !IsAlert(s)
  {
    if IsAlert(s) then Rgb(1, 0, 0) else Rgb(0, 0, 0)
  }

  /** The LED is lit exactly on an alert, and only ever in red. */
  lemma IndicatorLitIffAlert(s: Sample)
    ensures IndicatorColour(s).red != 0 <==> IsAlert(s)
    ensures IndicatorColour(s).red <= 1
  {
  }

  class RgbLed {
    /** The levels of the red, green and blue pins. */
    var red: bool
    var green: bool
    var blue: bool

    /** The pins hold the colour `c`: a channel drives its pin high when it is not zero. */
    ghost predicate Shows(c: Rgb)
      reads this
    {
      red == (c.red != 0) && green == (c.green != 0) && blue == (c.blue != 0)
    }

    /** `init_led_rgb`: the three pins are outputs, driven low. */
    constructor ()
      ensures Shows(Rgb(0, 0, 0))
    {
      red, green, blue := false, false, false;
    }

    /** `set_rgb`: each channel value is written to its pin. */
    method SetRgb(r: uint8, g: uint8, b: uint8)
      modifies this
      ensures Shows(Rgb(r, g, b))
    {
      red := r != 0;
      green := g != 0;
      blue := b != 0;
    }

    /** One pass of the task loop: a sample, if there is one, sets the LED. */
    method Tick(q: SampleQueue)
      requires q.Valid()
      modifies this, q
      ensures q.Valid() && q.items == Rest(old(q.items))
      ensures match Head(old(q.items))
              case None => red == old(red) && green == old(green) && blue == old(blue)
              case Some(s) => Shows(IndicatorColour(s))
    {
      var got := q.TryReceive();
      if got.Some? {
        var alerta := IsAlert(got.value);
        if alerta {
          SetRgb(1, 0, 0);
        } else {
          SetRgb(0, 0, 0);
        }
      }
    }

    /**
     * The task loop for `ticks` passes on a queue that nobody sends to
     * meanwhile: the LED ends up showing the last sample received, and is
     * left as it was when none arrives.
     */
    method Serve(q: SampleQueue, ticks: nat)
      requires q.Valid()
      modifies this, q
      ensures q.Valid() && q.items == old(q.items)[Min(ticks, |old(q.items)|)..]
      ensures match LastReading(Feed(old(q.items), ticks))
              case None => red == old(red) && green == old(green) && blue == old(blue)
              case Some(s) => Shows(IndicatorColour(s))
    {
      ghost var items0 := q.items;
      for i := 0 to ticks
        invariant q.Valid() && q.items == items0[Min(i, |items0|)..]
        invariant match LastReading(Feed(items0, i))
                  case None => red == old(red) && green == old(green) && blue == old(blue)
                  case Some(s) => Shows(IndicatorColour(s))
      {
        FeedSnoc(items0, i);
        LastReadingSnoc(Feed(items0, i), Head(q.items));
        Tick(q);
      }
    }
  }
}
