/**
 * The OLED display task: each received sample is redrawn as a title, the two
 * readings as percentages of full scale, and a banner saying whether the
 * station is in alert mode.
 */
module DisplayTask {
  import opened Wrappers
  import opened Sensor
  import opened Queue
  import opened Latch

  const TITLE: string := "EST. DE ALERTA"
  const ALERT_BANNER: string := "MODO ALERTA!!!"
  const NORMAL_BANNER: string := "Modo: Normal"

  /** The content of one drawn screen; the text layout is not modelled. */
  datatype Screen = Screen(title: string, waterPct: uint8, rainPct: uint8, banner: string)

  /** The screen drawn for a sample. */
  function Render(s: Sample): (scr: Screen)
    ensures scr.title == TITLE
    ensures scr.waterPct == Percent(s.waterLevel) && scr.rainPct == Percent(s.rainVolume)
    ensures scr.banner == ALERT_BANNER <==> IsAlert(s)
    ensures scr.banner == NORMAL_BANNER <==> !IsAlert(s)
  {
    var nivelPct := Percent(s.waterLevel);
    var chuvaPct := Percent(s.rainVolume);
    var alerta := IsAlert(s);
    Screen(TITLE, nivelPct, chuvaPct, if alerta then ALERT_BANNER else NORMAL_BANNER)
  }

  /**
   * For a reading the converter can produce, the percentages shown are at most
   * 100 and the banner agrees with them: alert exactly when water shows at
   * least 70% or rain at least 80%.
   */
  lemma BannerAgreesWithPercentages(s: Sample)
    requires InAdcRange(s)
    ensures Render(s).waterPct <= 100 && Render(s).rainPct <= 100
    ensures Render(s).banner == ALERT_BANNER <==> Render(s).waterPct >= 70 || Render(s).rainPct >= 80
  {
    AlertIsPercentThreshold(s);
  }

  class Display {
    /** What the screen shows: nothing after the initial clear, then the last drawn screen. */
    var screen: Option<Screen>

    /** The task's set-up ends by clearing the screen and sending it. */
    constructor ()
      ensures screen == None
    {
      screen := None;
    }

    /** One pass of the task loop: a sample, if there is one, is drawn. */
    method Tick(q: SampleQueue)
      requires q.Valid()
      modifies this, q
      ensures q.Valid() && q.items == Rest(old(q.items))
      ensures screen == match Head(old(q.items))
                        case None => old(screen)
                        case Some(s) => Some(Render(s))
    {
      var got := q.TryReceive();
      if got.Some? {
        screen := Some(Render(got.value));
      }
    }

    /**
     * The task loop for `ticks` passes on a queue that nobody sends to
     * meanwhile: the screen ends up showing the last sample received.
     */
    method Serve(q: SampleQueue, ticks: nat)
      requires q.Valid()
      modifies this, q
      ensures q.Valid() && q.items == old(q.items)[Min(ticks, |old(q.items)|)..]
      ensures screen == match LastReading(Feed(old(q.items), ticks))
                        case None => old(screen)
                        case Some(s) => Some(Render(s))
    {
      ghost var items0 := q.items;
      for i := 0 to ticks
        invariant q.Valid() && q.items == items0[Min(i, |items0|)..]
        invariant screen == match LastReading(Feed(items0, i))
                            case None => old(screen)
                            case Some(s) => Some(Render(s))
      {
        FeedSnoc(items0, i);
        LastReadingSnoc(Feed(items0, i), Head(q.items));
        Tick(q);
      }
    }
  }
}
