# LED sample: colour-pattern driver

A model of the tri-colour LED firmware sample in `main/led_sample.c`. At boot
`app_main` calls `led_init`, which drives the red, green and blue LED pins
(GPIO 4, 5 and 6) to 0. It then starts `led_blink_task`. That task holds a
`uint8_t pattern` counter starting at 0. Each pass of its loop looks the
counter up in an eight-case `switch`, writes the matching on/off triple to the
three pins through `led_set_rgb` (red, then green, then blue), advances the
counter as `(pattern + 1) % 8`, and sleeps for a second.

The model has two modules:

- `LedPattern` (`led_pattern.dfy`, pure): the colour table as a function
  `Table` over the counter (None where the `switch`, which has no `default`,
  matches no case), its inverse `IndexOf`, the counter advance `Advance`, and
  `CounterAfter(k)`, the counter after `k` passes, with lemmas about the cycle.
- `LedDriver` (`led_driver.dfy`, imperative): the board's GPIO outputs as a
  class `Board` with a map from pin number to level and a log of every
  `gpio_set_level` write in order. The class invariant says the levels are the
  boot levels with the log replayed over them. `LedInit`, `LedSet`,
  `LedSetRgb`, `BlinkStep` (one pass of the loop), `BlinkTask` (the loop run for
  a given number of passes) and `AppMain` are methods over a `Board`. Their
  postconditions give the new log and levels as functions of the old ones
  (`ApplyWrites`, `RgbWrites`, `InitWrites`, `StepWrites`, `RunWrites`). The
  lemmas beside them say what the LED then shows.

The infinite `while (1)` is modelled by `BlinkTask(board, passes)`, which runs
the loop body `passes` times. The pin levels a real board has at power-on are a
parameter of the `Board` constructor.

## Model

| member | source | states |
|---|---|---|
| LedPattern.Table | main/led_sample.c:99-140 | the switch yields an entry exactly when the counter is below 8; for a counter of 8 or more no case matches and nothing is written |
| LedPattern.IndexOf | main/led_sample.c:99-140 | every on/off combination of the three channels is the table entry of some index below 8 |
| LedPattern.IndexOfTable | main/led_sample.c:99-140 | for each index below 8, looking up its entry and then that entry's index gives back the index |
| LedPattern.TableEntriesDistinct | main/led_sample.c:99-140 | two different indices below 8 have different entries |
| LedPattern.TableCoversAllColours | main/led_sample.c:99-140 | the eight entries cover all eight RGB on/off combinations |
| LedPattern.Advance | main/led_sample.c:143 | the advanced counter is below 8; it is the old value plus one, except that 7 goes to 0 |
| LedPattern.CounterAfter | main/led_sample.c:96 | the counter at the top of every pass lies in [0, 8) |
| LedPattern.CounterIsModulo | main/led_sample.c:96-143 | after k passes from the start value 0 the counter is k mod 8 |
| LedPattern.CounterCycles | main/led_sample.c:96-143 | the counter is 0 again after 8 passes and then repeats with period 8 |
| LedPattern.CounterNoSkipNoRepeat | main/led_sample.c:143 | consecutive passes see different counters, and the next one is the current one plus one modulo 8 |
| LedPattern.CounterDistinctInCycle | main/led_sample.c:96-143 | within any 8 consecutive passes no index occurs twice |
| LedPattern.CounterVisitsEveryIndex | main/led_sample.c:96-143 | within any 8 consecutive passes every index 0..7 occurs |
| LedPattern.SwitchAlwaysMatches | main/led_sample.c:96-143 | on every pass some case of the switch matches, so its missing default is never reached |
| LedPattern.FirstPatterns | main/led_sample.c:96-108 | the first pass selects red only, the second green only, and the ninth red only again |
| LedDriver.LedPinMaskSelectsLedPins | main/led_sample.c:35 | bit i of the gpio_config pin mask is set exactly for i in {4, 5, 6} |
| LedDriver.ApplyWrites | main/led_sample.c:46-48 | applying a sequence of level writes defines exactly the previously known pins plus the pins written |
| LedDriver.ApplyWritesSnoc | main/led_sample.c:61 | one more gpio_set_level write updates only the pin it names, to the level it names |
| LedDriver.ApplyWritesAppend | main/led_sample.c:98-147 | writes applied run after run give the same levels as all the writes applied at once |
| LedDriver.ApplyWritesKeepsOtherPins | main/led_sample.c:59-62 | any series of writes that never names a pin, such as repeated led_set calls on another pin, leaves that pin's level unchanged |
| LedDriver.RgbWritesSetColour | main/led_sample.c:71-76 | the writes of led_set_rgb leave pin 4 = red, pin 5 = green, pin 6 = blue and every other pin as it was |
| LedDriver.InitAllOffIdempotent | main/led_sample.c:46-48 | led_init makes the same writes as led_set_rgb(0, 0, 0), leaves all three LED pins at 0, and a second run leaves the levels unchanged |
| LedDriver.StepShowsTableEntry | main/led_sample.c:99-140 | a pass with counter c below 8 leaves the LED showing the table entry for c, whatever the pins held before |
| LedDriver.RunWrites | main/led_sample.c:98-147 | k passes make exactly 3k pin writes |
| LedDriver.RunShowsLastPattern | main/led_sample.c:96-147 | after k > 0 passes the LED shows the entry for (k - 1) mod 8, whatever the pins held before |
| LedDriver.InitThenRunShows | main/led_sample.c:153-168 | after led_init and k > 0 passes the LED shows the entry for (k - 1) mod 8 |
| LedDriver.BootScenario | main/led_sample.c:153-168 | after boot the LED is all off, then red after one pass, green after two, and red again after nine |
| LedDriver.Board.SetLevel | main/led_sample.c:61 | gpio_set_level sets one pin's level, leaves every other pin alone and appends one write to the log |
| LedDriver.LedInit | main/led_sample.c:29-51 | led_init writes 0 to red, green and blue in that order and the LED then shows all off |
| LedDriver.LedSet | main/led_sample.c:59-62 | led_set sets only the given pin to the given state; every other pin keeps its level |
| LedDriver.LedSetRgb | main/led_sample.c:71-76 | led_set_rgb writes red, green, blue in that order, the LED then shows (red, green, blue) and no other pin changes |
| LedDriver.BlinkStep | main/led_sample.c:98-143 | one pass makes the writes of the table entry for the counter (none if no case matches), shows that entry, and returns the advanced counter |
| LedDriver.BlinkTask | main/led_sample.c:92-148 | after n passes the counter is n mod 8, the log holds every pass's writes in order, and the LED shows the entry for (n - 1) mod 8 |
| LedDriver.AppMain | main/led_sample.c:153-171 | app_main runs led_init and then the blink task; with no pass yet the LED is all off, after n > 0 passes it shows the entry for (n - 1) mod 8 |

## Left out

- Logging: the `ESP_LOGI` calls only produce output and change no state.
- Timing: the `vTaskDelay` of `BLINK_INTERVAL_MS` after each pass, and the tick conversion, are not modelled. Passes are counted instead.
- The endless `while (1)`: it is modelled as `BlinkTask` running a given, finite number of passes.
- Task creation: `xTaskCreate` and its name, stack size, priority and handle are scheduler details. `AppMain` runs the task body in line. The model has one thread, so whether task creation can fail is not modelled.
- `gpio_config`: the output mode and the pull-up, pull-down and interrupt settings belong to the GPIO driver and are not modelled. Only the pin bit mask is (`LedPinMaskSelectsLedPins`).
- `gpio_set_level` is modelled as an abstract write of the level to the pin. What the hardware does with it is not modelled.
- LedSet: the `uint8_t state` parameter is restricted to 0 or 1, the values the function's documentation allows, because what the GPIO driver does with other values is not part of this model.
- LedSetRgb: the three `uint8_t` parameters are restricted to 0 or 1 for the same reason. Every call site in the loop passes 0 or 1.
- Non-atomic update: the three writes of `led_set_rgb` happen one at a time, and the model keeps their order in the write log. A concurrent observer is not modelled, because there is only one thread.
