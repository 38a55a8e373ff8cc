/**
 * The 5x5 LED-matrix task: a 25-cell on/off buffer, the colour held in
 * `led_r`, `led_g`, `led_b`, and a frame of 25 colour words written out one
 * pixel at a time.
 */
module MatrixTask {
  import opened Sensor
  import opened Queue
  import opened Latch
  import opened SeqFacts

  const NUM_PIXELS: nat := 25

  /** Red intensity of the alert pictogram. */
  const ALERT_RED: bv8 := 100

  /** Colour word in the order the LED strip expects: green, red, blue from bit 23 down. */
  function Urgb(r: bv8, g: bv8, b: bv8): (w: bv32)
    ensures Red(w) == r && Green(w) == g && Blue(w) == b
    ensures w >> 24 == 0
  {
    ((r as bv32) << 8) | ((g as bv32) << 16) | (b as bv32)
  }

  function Green(w: bv32): bv8 { ((w >> 16) & 0xFF) as bv8 }
  function Red(w: bv32): bv8 { ((w >> 8) & 0xFF) as bv8 }
  function Blue(w: bv32): bv8 { (w & 0xFF) as bv8 }

  /** Different colours pack to different words. */
  lemma UrgbInjective(r: bv8, g: bv8, b: bv8, r': bv8, g': bv8, b': bv8)
    requires Urgb(r, g, b) == Urgb(r', g', b')
    ensures r == r' && g == g' && b == b'
  {
  }

  /** Only black packs to the word of an unlit pixel. */
  lemma UrgbZero(r: bv8, g: bv8, b: bv8)
    ensures Urgb(r, g, b) == 0 <==> r == 0 && g == 0 && b == 0
  {
  }

  /** The words a refresh writes for a buffer: the colour for a lit cell, 0 for a dark one. */
  function Frame(cells: seq<bool>, colour: bv32): (f: seq<bv32>)
    ensures |f| == |cells|
    ensures forall i :: 0 <= i < |cells| ==> f[i] == if cells[i] then colour else 0
  {
    if cells == [] then []
    else Frame(cells[..|cells| - 1], colour) + [if cells[|cells| - 1] then colour else 0]
  }

  /** The warning triangle, row by row from the top. */
  const TRIANGLE: seq<bool> :=
    [false, false, false, false, false,
     true,  true,  true,  true,  true,
     false, true,  false, true,  false,
     false, false, true,  false, false,
     false, false, false, false, false]

  /** The buffer after `memset(led_buffer, 0, ...)`. */
  const BLANK: seq<bool> :=
    [false, false, false, false, false,
     false, false, false, false, false,
     false, false, false, false, false,
     false, false, false, false, false,
     false, false, false, false, false]

  /** The frame of an all-dark matrix: 25 zero words. */
  function Dark(): seq<bv32>
  {
    seq(NUM_PIXELS, _ => 0)
  }

  /** A blank buffer refreshes to a dark frame whatever the colour. */
  lemma FrameOfBlank(colour: bv32)
    ensures Frame(BLANK, colour) == Dark()
  {
  }

  /** The word of a lit cell in the alert pictogram. */
  const ALERT_WORD: bv32 := 0x6400

  lemma AlertWordIsAlertRed()
    ensures Urgb(ALERT_RED, 0, 0) == ALERT_WORD
  {
  }

  /** The frame of the warning triangle in the alert colour. */
  function AlertFrame(): seq<bv32>
  {
    seq(NUM_PIXELS, i requires 0 <= i < NUM_PIXELS => if TRIANGLE[i] then ALERT_WORD else 0)
  }

  lemma AlertFrameIsTriangle()
    ensures Frame(TRIANGLE, ALERT_WORD) == AlertFrame()
  {
  }

  /**
   * The words a tick writes to the matrix: nothing exactly when it waits;
   * otherwise it always ends by writing a dark frame.
   */
  function PixelWords(a: Action): (w: seq<bv32>)
    ensures a == Wait <==> w == []
    ensures a != Wait ==> |w| >= NUM_PIXELS && w[|w| - NUM_PIXELS..] == Dark()
  {
    match a
    case Wait => []
    case Quiet => Dark()
    case Pulse => AlertFrame() + Dark()
    case Release => Dark()
  }

  /**
   * A pulse shows the triangle in red (100, 0, 0), lighting exactly the
   * triangle's cells, then a dark frame.
   */
  lemma PulseShowsRedTriangle()
    ensures |PixelWords(Pulse)| == 2 * NUM_PIXELS
    ensures forall i :: 0 <= i < NUM_PIXELS ==> (PixelWords(Pulse)[i] != 0 <==> TRIANGLE[i])
    ensures forall i :: 0 <= i < NUM_PIXELS && TRIANGLE[i] ==>
              Red(PixelWords(Pulse)[i]) == ALERT_RED &&
              Green(PixelWords(Pulse)[i]) == 0 && Blue(PixelWords(Pulse)[i]) == 0
    ensures PixelWords(Pulse)[NUM_PIXELS..] == Dark()
  {
    AlertFrameIsTriangle();
    FrameOfBlank(0);
  }

  /** The words a run of ticks writes, in order. */
  function PixelTrace(acts: seq<Action>): seq<bv32>
  {
    if acts == [] then [] else PixelTrace(acts[..|acts| - 1]) + PixelWords(acts[|acts| - 1])
  }

  /** Output written so far, followed by one more tick's, is the trace of one more action. */
  lemma TraceSnoc(pixels0: seq<bv32>, acts: seq<Action>, a: Action, pixels: seq<bv32>)
    requires pixels == pixels0 + PixelTrace(acts)
    ensures pixels + PixelWords(a) == pixels0 + PixelTrace(acts + [a])
  {
    assert (acts + [a])[..|acts|] == acts;
    ConcatAssoc(pixels0, PixelTrace(acts), PixelWords(a));
  }

  /** A tick that is not a pulse leaves the matrix dark, or does not touch it. */
  lemma DarkUnlessPulsing(a: Action)
    requires a != Pulse
    ensures forall i :: 0 <= i < |PixelWords(a)| ==> PixelWords(a)[i] == 0
  {
  }

  class Matrix {
    /** `led_buffer`: which of the 25 cells are lit. */
    const ledBuffer: array<bool>
    /** `led_r`, `led_g`, `led_b`: the colour of lit cells. */
    var ledR: bv8
    var ledG: bv8
    var ledB: bv8
    /** Every word handed to `put_pixel`, in order. */
    var pixels: seq<bv32>
    var mode: Mode

    /** Between ticks the buffer has 25 cells, all unlit. */
    ghost predicate Valid()
      reads this, ledBuffer
    {
      ledBuffer.Length == NUM_PIXELS && ledBuffer[..] == BLANK
    }

    constructor ()
      ensures Valid() && fresh(ledBuffer)
      ensures mode == Idle && pixels == [] && ledR == 0 && ledG == 0 && ledB == 0
    {
      ledBuffer := new bool[NUM_PIXELS](i => false);
      ledR, ledG, ledB := 0, 0, 0;
      pixels := [];
      mode := Idle;
    }

    /** `set_led_buffer`: copy a 25-cell figure into the buffer. */
    method SetLedBuffer(figure: seq<bool>)
      requires ledBuffer.Length == NUM_PIXELS && |figure| == NUM_PIXELS
      modifies ledBuffer
      ensures ledBuffer[..] == figure
    {
      for i := 0 to NUM_PIXELS
        invariant forall k :: 0 <= k < i ==> ledBuffer[k] == figure[k]
      {
        ledBuffer[i] := figure[i];
      }
    }

    /** `memset(led_buffer, 0, sizeof(led_buffer))`. */
    method ClearBuffer()
      requires ledBuffer.Length == NUM_PIXELS
      modifies ledBuffer
      ensures ledBuffer[..] == BLANK
    {
      forall i | 0 <= i < ledBuffer.Length {
        ledBuffer[i] := false;
      }
    }

    method PutPixel(w: bv32)
      modifies this`pixels
      ensures pixels == old(pixels) + [w]
    {
      pixels := pixels + [w];
    }

    /** `atualizar_matriz`: write one word per cell, the colour where the cell is lit. */
    method Refresh()
      requires ledBuffer.Length == NUM_PIXELS
      modifies this`pixels
      ensures pixels == old(pixels) + Frame(ledBuffer[..], Urgb(ledR, ledG, ledB))
    {
      var colour := Urgb(ledR, ledG, ledB);
      for i := 0 to NUM_PIXELS
        invariant pixels == old(pixels) + Frame(ledBuffer[..i], colour)
      {
        assert ledBuffer[..i + 1][..i] == ledBuffer[..i];
        if ledBuffer[i] {
          PutPixel(colour);
        } else {
          PutPixel(0);
        }
      }
      assert ledBuffer[..NUM_PIXELS] == ledBuffer[..];
    }

    /** The body of a clear-and-refresh: blank the buffer and show it. */
    method Blank()
      requires ledBuffer.Length == NUM_PIXELS
      modifies this`pixels, ledBuffer
      ensures ledBuffer[..] == BLANK && pixels == old(pixels) + Dark()
    {
      ClearBuffer();
      Refresh();
      FrameOfBlank(Urgb(ledR, ledG, ledB));
    }

    /** One pass of the alert loop: the red triangle, then a blank frame. */
    method Flash()
      requires ledBuffer.Length == NUM_PIXELS
      modifies this`ledR, this`ledG, this`ledB, this`pixels, ledBuffer
      ensures ledBuffer[..] == BLANK && pixels == old(pixels) + PixelWords(Pulse)
      ensures ledR == ALERT_RED && ledG == 0 && ledB == 0
    {
      SetLedBuffer(TRIANGLE);
      ledR, ledG, ledB := ALERT_RED, 0, 0;
      Refresh();
      AlertWordIsAlertRed();
      AlertFrameIsTriangle();
      Blank();
    }

    /**
     * One tick: while idle, the blocking receive and what follows it; while
     * alerting, the probe and what follows it.
     */
    method Tick(q: SampleQueue)
      requires Valid() && q.Valid()
      modifies this, ledBuffer, q
      ensures Valid() && q.Valid()
      ensures q.items == Rest(old(q.items))
      ensures mode == Step(old(mode), Head(old(q.items))).next
      ensures pixels == old(pixels) + PixelWords(Step(old(mode), Head(old(q.items))).action)
      ensures Step(old(mode), Head(old(q.items))).action == Pulse
              ==> ledR == ALERT_RED && ledG == 0 && ledB == 0
      ensures Step(old(mode), Head(old(q.items))).action != Pulse
              ==> ledR == old(ledR) && ledG == old(ledG) && ledB == old(ledB)
    {
      var got := q.TryReceive();
      if mode == Idle {
        if got.Some? {
          if IsAlert(got.value) {
            Flash();
            mode := Alerting;
          } else {
            Blank();
          }
        }
      } else {
        var alert := if got.Some? then IsAlert(got.value) else true;
        if alert {
          Flash();
        } else {
          Blank();
          mode := Idle;
        }
      }
    }

    /** The task loop for `ticks` ticks on a queue that nobody sends to meanwhile. */
    method Serve(q: SampleQueue, ticks: nat)
      requires Valid() && q.Valid()
      modifies this, ledBuffer, q
      ensures Valid() && q.Valid()
      ensures q.items == old(q.items)[Min(ticks, |old(q.items)|)..]
      ensures mode == Run(old(mode), Feed(old(q.items), ticks))
      ensures pixels == old(pixels) + PixelTrace(Actions(old(mode), Feed(old(q.items), ticks)))
      ensures Pulse in Actions(old(mode), Feed(old(q.items), ticks))
              ==> ledR == ALERT_RED && ledG == 0 && ledB == 0
      ensures Pulse !in Actions(old(mode), Feed(old(q.items), ticks))
              ==> ledR == old(ledR) && ledG == old(ledG) && ledB == old(ledB)
    {
      ghost var items0, mode0, pixels0 := q.items, mode, pixels;
      for i := 0 to ticks
        invariant Valid() && q.Valid()
        invariant q.items == items0[Min(i, |items0|)..]
        invariant mode == Run(mode0, Feed(items0, i))
        invariant pixels == pixels0 + PixelTrace(Actions(mode0, Feed(items0, i)))
        invariant Pulse in Actions(mode0, Feed(items0, i))
                  ==> ledR == ALERT_RED && ledG == 0 && ledB == 0
        invariant Pulse !in Actions(mode0, Feed(items0, i))
                  ==> ledR == old(ledR) && ledG == old(ledG) && ledB == old(ledB)
      {
        FeedStep(items0, mode0, i, q.items, mode);
        TraceSnoc(pixels0, Actions(mode0, Feed(items0, i)), Step(mode, Head(q.items)).action, pixels);
        Tick(q);
      }
    }
  }
}
