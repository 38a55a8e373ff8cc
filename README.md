# Flood-alert station: verified model of the decision core

The firmware `estacao_alerta_enchente.c` runs a flood-alert station on a
Raspberry Pi Pico under FreeRTOS. An acquisition task reads two analog
channels: water level and rain volume, 12 bits each. It sends every sample,
without waiting, to four queues of length five. Each queue has one consumer:

- an OLED display task, which shows both readings as percentages and a mode
  banner;
- an RGB-LED task, which shows red on an alert and is off otherwise;
- a buzzer task;
- a 5x5 LED-matrix task.

The buzzer and the matrix latch. An alerting sample starts a loop: one pulse,
then a non-blocking probe of the queue. A pulse is three beeps on the buzzer,
and the red triangle followed by a blank frame on the matrix. An empty probe
counts as "still alerting". Only a probed sample that does not alert ends the
loop, and the actuator is then switched off or blanked.

The model is split into modules:

- `Sensor`: the sample, the alert test and the percentage.
- `Queue`: the bounded queue.
- `Latch`: the latch state machine that the buzzer and the matrix share.
- `BuzzerTask`, `MatrixTask`, `IndicatorTask`, `DisplayTask`: one class per
  consumer.
- `Acquisition`: the producer and its four queues.
- `Agreement`: consumers that see the same sample agree, and a scenario from
  start-up through an alert and back to normal.

Consumers are modelled one "tick" at a time. A tick is one receive or probe
together with the actuation that follows it.

- For the buzzer and the matrix, `Tick` is proved equal to the pure
  `Latch.Step`.
- For the buzzer and the matrix, `Serve(q, n)`, the task loop run for `n`
  ticks, is proved equal to `Latch.Run` and `Latch.Actions` over the samples
  that `n` receives return.
- For the indicator and the display, which keep no latch, `Serve(q, n)` is
  proved to leave the output showing `LastReading` of those samples: the
  last sample received, or the output unchanged when none arrived.
- Hardware outputs are recorded as traces:
  - every level written to the buzzer pin, in order;
  - every word handed to `put_pixel`, in order;
  - the present levels of the three LED pins;
  - the content of the last screen drawn.

## Model

| member | source | states |
|---|---|---|
| Sensor.IsAlert | estacao_alerta_enchente.c:89 | the alert test every consumer writes out identically (lines 89, 147, 186, 200, 268, 286): water at least 2867 or rain at least 3276 |
| Sensor.Percent | estacao_alerta_enchente.c:85-86 | the percentage stored into a `uint8_t`; for a 12-bit reading it is at most 100 and is the floor of `v*100/4095` (bounded from both sides) |
| Sensor.PercentEnds | estacao_alerta_enchente.c:85-86 | reading 0 shows 0% and full scale 4095 shows 100% |
| Sensor.PercentMonotone | estacao_alerta_enchente.c:85-86 | the percentage never decreases as the reading grows within ADC range |
| Sensor.WaterLimitIsSeventyPercent | estacao_alerta_enchente.c:62 | a water reading reaches the limit 2867 exactly when its percentage is at least 70 |
| Sensor.RainLimitIsEightyPercent | estacao_alerta_enchente.c:63 | a rain reading reaches the limit 3276 exactly when its percentage is at least 80 |
| Sensor.AlertIsPercentThreshold | estacao_alerta_enchente.c:85-89 | for readings in ADC range, the alert test holds exactly when water shows at least 70% or rain at least 80% |
| Sensor.AlertBoundaries | estacao_alerta_enchente.c:62-63 | water 2867 alerts and 2866 does not; rain 3276 alerts and 3275 does not |
| Sensor.AlertMonotone | estacao_alerta_enchente.c:89 | raising either reading never clears an alert |
| Queue.Offer | estacao_alerta_enchente.c:46-49 | a send with timeout 0 keeps the queue within capacity, keeps what was queued as a prefix, and appends the sample exactly when there was room |
| Queue.OfferAllAdmitsWhatFits | estacao_alerta_enchente.c:46-49 | back-to-back sends admit exactly the samples that fit, in order, and drop every later one |
| Queue.FeedSnoc | estacao_alerta_enchente.c:185 | one more receive returns the next queued sample, or nothing once the queue is drained, and leaves the rest |
| Queue.FeedAt | estacao_alerta_enchente.c:185 | the i-th receive returns the i-th queued sample while there is one, and nothing after |
| Queue.FeedLength | estacao_alerta_enchente.c:185 | k receives give k results |
| Queue.ReplayIsFifo | estacao_alerta_enchente.c:46-49 | under any interleaving of sends and receives, the queue stays within capacity, and received samples followed by queued ones equal the initial contents followed by the admitted sends |
| Queue.AdmittedAreSentInOrder | estacao_alerta_enchente.c:46-49 | the admitted samples are sent samples, in the order sent |
| Queue.SampleQueue.constructor | estacao_alerta_enchente.c:325-328 | a new queue is empty, within its capacity |
| Queue.SampleQueue.TrySend | estacao_alerta_enchente.c:46-49 | reports success exactly when there was room; the new contents are `Offer` of the old |
| Queue.SampleQueue.TryReceive | estacao_alerta_enchente.c:199 | returns the oldest sample, or nothing when empty, and removes it |
| Latch.Step | estacao_alerta_enchente.c:184-214 | one tick of the latch. A pulse is performed exactly when the next mode is alerting. An empty receive or probe never changes the mode. A sample sets the mode to alerting exactly when it alerts. Nothing happens only for an idle task with no sample. The latch is released exactly when alerting and a probed sample does not alert |
| Latch.Run | estacao_alerta_enchente.c:184-214 | the mode after a run of ticks, one `Step` per receive or probe |
| Latch.Actions | estacao_alerta_enchente.c:184-214 | the actions of a run of ticks: one per input |
| Latch.ActionsAt | estacao_alerta_enchente.c:184-214 | the i-th action is the step on the i-th input from the mode the earlier inputs left |
| Latch.RunSnoc | estacao_alerta_enchente.c:189-204 | one more tick extends the run by exactly one step |
| Latch.FeedStep | estacao_alerta_enchente.c:185-203 | after i receives from a queue nobody sends to, the next tick steps on the next queued sample, or on nothing |
| Latch.LastReadingSnoc | estacao_alerta_enchente.c:185 | the last sample seen is the newest one received, or the previous last when the receive found nothing |
| Latch.LastReadingOfFeed | estacao_alerta_enchente.c:185 | after k receives from a queue nobody sends to, the last sample seen is queued sample number min(k, length), or nothing when that is 0 |
| Latch.RunFollowsLastReading | estacao_alerta_enchente.c:189-204 | the latch mode is decided by the last sample seen (alerting iff it alerts), and is the initial mode if none was seen |
| Latch.LatchPersists | estacao_alerta_enchente.c:189-204 | once alerting, every tick pulses and the mode stays alerting for as long as no probe returns a clearing sample |
| Latch.ReleasesAtFirstClearingProbe | estacao_alerta_enchente.c:199-207 | the loop ends exactly at the first probed sample that does not alert, with a release and a return to idle |
| Latch.EmptyProbesKeepAlerting | estacao_alerta_enchente.c:201-203 | for every n, n empty probes in a row keep the task alerting and pulsing on every tick |
| Latch.QuietInputsNeverPulse | estacao_alerta_enchente.c:208-211 | an idle task that is never sent an alerting sample stays idle and only waits or silences |
| Latch.AlertSampleStartsPulsing | estacao_alerta_enchente.c:186-189 | an alerting sample starts a pulse on the tick it is received, idle or not |
| BuzzerTask.Beeps | estacao_alerta_enchente.c:191-196 | n beeps write 2n levels, on at even and off at odd positions |
| BuzzerTask.BeepsSwitchOnOncePerBeep | estacao_alerta_enchente.c:191-196 | n beeps switch the buzzer on exactly n times |
| BuzzerTask.BeepsAppend | estacao_alerta_enchente.c:191-196 | m beeps followed by n beeps are m+n beeps |
| BuzzerTask.PinLevels | estacao_alerta_enchente.c:188-211 | a tick writes nothing exactly when it waits; whatever it writes ends with the pin off; it switches the pin on 3 times for a pulse and never otherwise |
| BuzzerTask.LevelTraceSnoc | estacao_alerta_enchente.c:184-214 | one more action appends that tick's levels to the trace |
| BuzzerTask.TraceSnoc | estacao_alerta_enchente.c:184-214 | the levels written so far plus one tick's are the trace of one more action |
| BuzzerTask.AlertingStepPulses | estacao_alerta_enchente.c:198-203 | the last of a run of inputs that never clear the latch is one more pulse |
| BuzzerTask.PersistentAlertBeeps | estacao_alerta_enchente.c:189-204 | while no probe clears it, n ticks of an alerting buzzer write exactly 3n beeps and switch it on 3n times |
| BuzzerTask.Buzzer.constructor | estacao_alerta_enchente.c:163-167 | `init_buzzer` drives the pin low |
| BuzzerTask.Buzzer.Put | estacao_alerta_enchente.c:192 | writes one level to the pin and records it |
| BuzzerTask.Buzzer.Beep | estacao_alerta_enchente.c:170-177 | `times` beeps, on then off each; for `times > 0` the pin is left off, and for `times == 0` nothing is written and the pin keeps its level (the alert loop's inline copy at lines 191-196 is the same) |
| BuzzerTask.Buzzer.Tick | estacao_alerta_enchente.c:184-214 | one receive or probe and what follows it: mode and written levels are those of `Latch.Step`; the pin is off afterwards |
| BuzzerTask.Buzzer.Serve | estacao_alerta_enchente.c:184-214 | n ticks on an undisturbed queue consume min(n, queued) samples; mode and levels are those of `Latch.Run` and the actions' trace |
| MatrixTask.Urgb | estacao_alerta_enchente.c:234-236 | red, green and blue come back out of bits 8-15, 16-23 and 0-7, and the top byte is 0 |
| MatrixTask.UrgbInjective | estacao_alerta_enchente.c:234-236 | different colours pack to different words |
| MatrixTask.UrgbZero | estacao_alerta_enchente.c:234-236 | only black packs to 0 |
| MatrixTask.Frame | estacao_alerta_enchente.c:244-252 | a refresh writes one word per cell: the colour where the cell is lit, 0 where it is not |
| MatrixTask.TRIANGLE | estacao_alerta_enchente.c:255-261 | `triangulo_alerta`, the 25-cell warning triangle, row by row |
| MatrixTask.FrameOfBlank | estacao_alerta_enchente.c:280-281 | a cleared buffer refreshes to the dark frame whatever the colour |
| MatrixTask.AlertWordIsAlertRed | estacao_alerta_enchente.c:275 | the colour (100, 0, 0) packs to 0x6400 |
| MatrixTask.AlertFrameIsTriangle | estacao_alerta_enchente.c:255-276 | refreshing the triangle in the alert colour gives the alert frame |
| MatrixTask.PixelWords | estacao_alerta_enchente.c:272-299 | the words one matrix tick writes: nothing exactly when it waits, and otherwise always ending with a dark frame |
| MatrixTask.PulseShowsRedTriangle | estacao_alerta_enchente.c:272-282 | a pulse writes 50 words: the first 25 light exactly the triangle's cells, in red 100 with green and blue 0; the second 25 are dark |
| MatrixTask.TraceSnoc | estacao_alerta_enchente.c:266-303 | the words written so far plus one tick's are the trace of one more action |
| MatrixTask.DarkUnlessPulsing | estacao_alerta_enchente.c:293-299 | a tick that does not pulse writes only unlit words |
| MatrixTask.Matrix.constructor | estacao_alerta_enchente.c:224-225 | the buffer has 25 cells, all unlit, and the colour is black |
| MatrixTask.Matrix.SetLedBuffer | estacao_alerta_enchente.c:238-242 | the buffer equals the figure cell for cell |
| MatrixTask.Matrix.ClearBuffer | estacao_alerta_enchente.c:280 | every cell is unlit |
| MatrixTask.Matrix.PutPixel | estacao_alerta_enchente.c:230-232 | records one word sent to the strip |
| MatrixTask.Matrix.Refresh | estacao_alerta_enchente.c:244-252 | writes exactly `Frame` of the buffer in the packed current colour |
| MatrixTask.Matrix.Blank | estacao_alerta_enchente.c:294-295 | the buffer is cleared and a dark frame is written |
| MatrixTask.Matrix.Flash | estacao_alerta_enchente.c:273-282 | the colour becomes (100, 0, 0), the pulse's 50 words are written, and the buffer is left cleared |
| MatrixTask.Matrix.Tick | estacao_alerta_enchente.c:266-303 | one receive or probe and what follows it: mode and written words are those of `Latch.Step`; the buffer is all unlit afterwards; the colour is (100, 0, 0) after a pulse and unchanged otherwise |
| MatrixTask.Matrix.Serve | estacao_alerta_enchente.c:266-303 | n ticks on an undisturbed queue: mode and words are those of `Latch.Run` and the actions' trace; the colour is (100, 0, 0) if any tick pulsed and is unchanged otherwise |
| IndicatorTask.IndicatorColour | estacao_alerta_enchente.c:147-153 | green and blue are always 0; the colour is (1, 0, 0) exactly on an alert and (0, 0, 0) exactly otherwise |
| IndicatorTask.IndicatorLitIffAlert | estacao_alerta_enchente.c:147-153 | the LED is lit exactly on an alert, and then with red 1 |
| IndicatorTask.RgbLed.constructor | estacao_alerta_enchente.c:124-131 | all three pins start low |
| IndicatorTask.RgbLed.SetRgb | estacao_alerta_enchente.c:134-138 | each pin is high exactly when its channel value is not 0 |
| IndicatorTask.RgbLed.Tick | estacao_alerta_enchente.c:145-157 | a received sample sets the LED to its colour; with no sample the pins keep their levels |
| IndicatorTask.RgbLed.Serve | estacao_alerta_enchente.c:145-157 | after n passes the LED shows the colour of the last sample received, or is unchanged if none arrived |
| DisplayTask.Render | estacao_alerta_enchente.c:83-109 | the title; both percentages; the alert banner exactly on an alert and the normal banner exactly otherwise |
| DisplayTask.BannerAgreesWithPercentages | estacao_alerta_enchente.c:85-109 | for readings in ADC range, the percentages shown are at most 100 and the alert banner appears exactly when water shows at least 70% or rain at least 80% |
| DisplayTask.Display.constructor | estacao_alerta_enchente.c:76-77 | the screen starts cleared |
| DisplayTask.Display.Tick | estacao_alerta_enchente.c:82-112 | a received sample is drawn; with no sample the screen is unchanged |
| DisplayTask.Display.Serve | estacao_alerta_enchente.c:82-112 | after n passes the screen shows the last sample received, or is unchanged if none arrived |
| Acquisition.Station.constructor | estacao_alerta_enchente.c:325-328 | four distinct, new, empty queues of length five |
| Acquisition.Station.Publish | estacao_alerta_enchente.c:46-49 | each queue independently becomes `Offer` of its own old contents: appended when below five, unchanged when full |
| Acquisition.Station.Acquire | estacao_alerta_enchente.c:39-51 | after a run of readings, each queue holds `OfferAll` of its own old contents and the readings |
| Agreement.ConsumersAgree | estacao_alerta_enchente.c:89-286 | for one sample, LED red, alert banner, buzzer pulse and matrix pulse coincide |
| Agreement.Cycle | estacao_alerta_enchente.c:39-303 | one acquisition cycle on empty queues, then one pass of each consumer. Each acts on the sample just published: the screen and the LED show it; the buzzer and the matrix take the `Latch.Step` on it and write that step's pin levels and pixel words; the matrix colour becomes (100, 0, 0) on a pulse and is unchanged otherwise |
| Agreement.AlertThenClear | estacao_alerta_enchente.c:39-303 | from start-up, (3000, 1000) gives the alert banner, a red LED, alerting buzzer and matrix, three beeps on the buzzer, and the red triangle then a dark frame on the matrix. (1000, 1000) then gives the normal banner, the LED off, both back to idle, the buzzer driven off and a dark frame |

## Left out

- ADC set-up and reads (`adc_init`, `adc_select_input`, `adc_read`): samples are inputs to `Acquisition.Station.Publish` and `Acquire`.
- The joystick-to-channel mapping is not modelled. Readings above 4095 are allowed by the `uint16_t` fields; the percentage facts are stated for readings in ADC range.
- I2C and SSD1306 initialisation and drawing, and the `snprintf` layout of the two percentage lines: a screen is modelled as its title, both percentages and the banner.
- GPIO and PIO writes:
  - `gpio_put` is modelled as recording the level;
  - `put_pixel` is modelled as recording the word it is called with;
  - the extra `<< 8` that `put_pixel` applies for the PIO FIFO, and `ws2812_program_init`, are not modelled.
- Every `vTaskDelay`, the 10 Hz cadence, task creation, priorities and the interleaving of the five tasks. Each consumer is modelled as sequential ticks over given queue contents. `Agreement.Cycle` fixes one order, so the desynchronisation between consumers that the scheduler allows is not reproduced.
- FreeRTOS queue internals: a queue is a bounded FIFO of samples. A blocking receive on an empty queue is a tick that does nothing (`Wait`), where the task would block.
- Tick split point: the source's loop body is "pulse, then probe"; a model tick is "probe (or receive), then pulse or exit". Both give the same sequence of pulses and releases.
- `BuzzerTask.Buzzer.Serve`, `MatrixTask.Matrix.Serve`, `IndicatorTask.RgbLed.Serve`, `DisplayTask.Display.Serve`: proved only for a queue that nobody sends to while the task runs, because interleaving with the producer is not modelled.
- The BOOTSEL interrupt handler (`gpio_irq_handler`, `reset_usb_boot`) and `main`'s wiring: a terminal system call and start-up code.
