/**
 * The four consumers apply the same alert test, so a sample that reaches all
 * of them makes them agree: red LED, alert banner, beeps and triangle, or
 * LED off, normal banner, silent buzzer and blank matrix.
 */
module Agreement {
  import opened Wrappers
  import opened Sensor
  import opened Latch
  import IndicatorTask
  import DisplayTask
  import BuzzerTask
  import MatrixTask
  import Acquisition

  lemma ConsumersAgree(s: Sample, buzzerMode: Mode, matrixMode: Mode)
    ensures IndicatorTask.IndicatorColour(s) == IndicatorTask.Rgb(1, 0, 0)
        <==> DisplayTask.Render(s).banner == DisplayTask.ALERT_BANNER
    ensures DisplayTask.Render(s).banner == DisplayTask.ALERT_BANNER
        <==> Step(buzzerMode, Some(s)).action == Pulse
    ensures Step(buzzerMode, Some(s)).action == Pulse
        <==> Step(matrixMode, Some(s)).action == Pulse
  {
  }

  /**
   * One acquisition cycle with every queue empty beforehand, followed by one
   * pass of each consumer: each of them acts on the sample just published.
   */
  method Cycle(station: Acquisition.Station, display: DisplayTask.Display, led: IndicatorTask.RgbLed,
               buzzer: BuzzerTask.Buzzer, matrix: MatrixTask.Matrix, s: Sample)
    requires station.Valid() && buzzer.Valid() && matrix.Valid()
    requires station.display.items == [] && station.indicator.items == []
    requires station.buzzer.items == [] && station.matrix.items == []
    modifies station.display, station.indicator, station.buzzer, station.matrix
    modifies display, led, buzzer, matrix, matrix.ledBuffer
    ensures station.Valid() && buzzer.Valid() && matrix.Valid()
    ensures station.display.items == [] && station.indicator.items == []
    ensures station.buzzer.items == [] && station.matrix.items == []
    ensures display.screen == Some(DisplayTask.Render(s))
    ensures led.Shows(IndicatorTask.IndicatorColour(s))
    ensures buzzer.mode == Step(old(buzzer.mode), Some(s)).next
    ensures matrix.mode == Step(old(matrix.mode), Some(s)).next
    ensures buzzer.writes == old(buzzer.writes) + BuzzerTask.PinLevels(Step(old(buzzer.mode), Some(s)).action)
    ensures matrix.pixels == old(matrix.pixels) + MatrixTask.PixelWords(Step(old(matrix.mode), Some(s)).action)
    ensures Step(old(matrix.mode), Some(s)).action == Pulse
            ==> matrix.ledR == MatrixTask.ALERT_RED && matrix.ledG == 0 && matrix.ledB == 0
    ensures Step(old(matrix.mode), Some(s)).action != Pulse
            ==> matrix.ledR == old(matrix.ledR) && matrix.ledG == old(matrix.ledG) && matrix.ledB == old(matrix.ledB)
  {
    station.Publish(s);
    display.Tick(station.display);
    led.Tick(station.indicator);
    buzzer.Tick(station.buzzer);
    matrix.Tick(station.matrix);
  }

  /**
   * A freshly started station is sent a reading whose water level is over the
   * limit, each consumer takes one pass, then a reading under both limits and
   * one more pass each. The first reading turns everything to alert: three
   * beeps, and the red triangle then a dark frame. The second returns
   * everything to normal: the buzzer driven off and the matrix dark.
   */
  method AlertThenClear() returns (alertBanner: string, alertRed: bool, alertBuzzer: Mode, alertMatrix: Mode,
                                   alertLevels: seq<bool>, alertWords: seq<bv32>,
                                   clearBanner: string, clearRed: bool, clearBuzzer: Mode, clearMatrix: Mode,
                                   clearLevels: seq<bool>, clearWords: seq<bv32>)
    ensures alertBanner == DisplayTask.ALERT_BANNER && alertRed
    ensures alertBuzzer == Alerting && alertMatrix == Alerting
    ensures alertLevels == BuzzerTask.Beeps(BuzzerTask.BEEPS_PER_PULSE)
    ensures alertWords == MatrixTask.AlertFrame() + MatrixTask.Dark()
    ensures clearBanner == DisplayTask.NORMAL_BANNER && !clearRed
    ensures clearBuzzer == Idle && clearMatrix == Idle
    ensures clearLevels == [false] && clearWords == MatrixTask.Dark()
  {
    var station := new Acquisition.Station();
    var display := new DisplayTask.Display();
    var led := new IndicatorTask.RgbLed();
    var buzzer := new BuzzerTask.Buzzer();
    var matrix := new MatrixTask.Matrix();

    var levels, words := buzzer.writes, matrix.pixels;
    Cycle(station, display, led, buzzer, matrix, Sample(3000, 1000));
    alertBanner := display.screen.value.banner;
    alertRed, alertBuzzer, alertMatrix := led.red, buzzer.mode, matrix.mode;
    alertLevels, alertWords := buzzer.writes[|levels|..], matrix.pixels[|words|..];

    levels, words := buzzer.writes, matrix.pixels;
    Cycle(station, display, led, buzzer, matrix, Sample(1000, 1000));
    clearBanner := display.screen.value.banner;
    clearRed, clearBuzzer, clearMatrix := led.red, buzzer.mode, matrix.mode;
    clearLevels, clearWords := buzzer.writes[|levels|..], matrix.pixels[|words|..];
  }
}
