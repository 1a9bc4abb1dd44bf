/** The pin side of the LED sample: the board's GPIO output levels, the pin writers
    `led_init`, `led_set` and `led_set_rgb`, the body of the `led_blink_task` loop and
    `app_main`. The GPIO driver's `gpio_set_level` is modelled as a write to an
    abstract map from pin number to level, which also keeps the log of every write in
    the order it was made. */
module LedDriver {
  import opened LedPattern

  /** A GPIO pin number (`gpio_num_t`). */
  type Pin = int

  const LedRedGpio: Pin := 4
  const LedGreenGpio: Pin := 5
  const LedBlueGpio: Pin := 6

  /** The bit mask of `gpio_config` in `led_init`: one bit per LED pin. */
  const LedPinMask: bv64 := (1 << LedRedGpio) | (1 << LedGreenGpio) | (1 << LedBlueGpio)

  /** The configuration mask selects exactly the three LED pins. */
  lemma LedPinMaskSelectsLedPins(pin: nat)
    requires pin < 64
    ensures (LedPinMask >> pin) & 1 == 1 <==> pin in {LedRedGpio, LedGreenGpio, LedBlueGpio}
  {
  }

  /** One call of `gpio_set_level`. */
  datatype Write = Write(pin: Pin, level: Level)

  /** The pins named in a sequence of writes. */
  function PinsOf(writes: seq<Write>): set<Pin>
  {
    set i | 0 <= i < |writes| :: writes[i].pin
  }

  /** The pin levels after `writes` are applied to `levels` one after the other, first
      to last. */
  function ApplyWrites(levels: map<Pin, Level>, writes: seq<Write>): (after: map<Pin, Level>)
    ensures after.Keys == levels.Keys + PinsOf(writes)
    decreases |writes|
  {
    if writes == [] then levels
    else ApplyWrites(levels[writes[0].pin := writes[0].level], writes[1..])
  }

  /** Applying one more write is a single-pin update of the levels reached so far. */
  lemma {:induction false} ApplyWritesSnoc(levels: map<Pin, Level>, writes: seq<Write>, w: Write)
    ensures ApplyWrites(levels, writes + [w]) == ApplyWrites(levels, writes)[w.pin := w.level]
    decreases |writes|
  {
    if writes == [] {
      assert [] + [w] == [w];
      assert [w][1..] == [];
    } else {
      assert (writes + [w])[1..] == writes[1..] + [w];
      ApplyWritesSnoc(levels[writes[0].pin := writes[0].level], writes[1..], w);
    }
  }

  /** Applying two runs of writes one after the other is applying their concatenation. */
  lemma {:induction false} ApplyWritesAppend(levels: map<Pin, Level>, first: seq<Write>, second: seq<Write>)
    ensures ApplyWrites(levels, first + second) == ApplyWrites(ApplyWrites(levels, first), second)
    decreases |first|
  {
    if first == [] {
      assert first + second == second;
    } else {
      assert (first + second)[1..] == first[1..] + second;
      ApplyWritesAppend(levels[first[0].pin := first[0].level], first[1..], second);
    }
  }

  /** A pin that no write names keeps its level. */
  lemma {:induction false} ApplyWritesKeepsOtherPins(levels: map<Pin, Level>, writes: seq<Write>, pin: Pin)
    requires pin in levels
    requires forall i :: 0 <= i < |writes| ==> writes[i].pin != pin
    ensures pin in ApplyWrites(levels, writes) && ApplyWrites(levels, writes)[pin] == levels[pin]
    decreases |writes|
  {
    if writes != [] {
      ApplyWritesKeepsOtherPins(levels[writes[0].pin := writes[0].level], writes[1..], pin);
    }
  }

  /** The writes of `led_set_rgb`, in the order it makes them: red, green, blue. */
  function RgbWrites(colour: Rgb): seq<Write>
  {
    [Write(LedRedGpio, colour.red), Write(LedGreenGpio, colour.green), Write(LedBlueGpio, colour.blue)]
  }

  /** The writes of `led_init`: red, green and blue, each to 0. */
  const InitWrites: seq<Write> := [Write(LedRedGpio, 0), Write(LedGreenGpio, 0), Write(LedBlueGpio, 0)]

  /** The colour the LED shows, read from the three LED pins; None while one of them
      has never been driven. */
  function Shown(levels: map<Pin, Level>): (colour: Option<Rgb>)
    ensures colour.Some? <==> LedRedGpio in levels && LedGreenGpio in levels && LedBlueGpio in levels
  {
    if LedRedGpio in levels && LedGreenGpio in levels && LedBlueGpio in levels
    then Some(Rgb(levels[LedRedGpio], levels[LedGreenGpio], levels[LedBlueGpio]))
    else None
  }

  /** After `led_set_rgb` the three LED pins hold exactly the requested colour and no
      other pin changes. */
  lemma RgbWritesSetColour(levels: map<Pin, Level>, colour: Rgb)
    ensures ApplyWrites(levels, RgbWrites(colour))
         == levels[LedRedGpio := colour.red][LedGreenGpio := colour.green][LedBlueGpio := colour.blue]
    ensures Shown(ApplyWrites(levels, RgbWrites(colour))) == Some(colour)
  {
    var ws := RgbWrites(colour);
    assert ws == [ws[0]] + [ws[1]] + [ws[2]];
    ApplyWritesSnoc(levels, [], ws[0]);
    ApplyWritesSnoc(levels, [ws[0]], ws[1]);
    ApplyWritesSnoc(levels, [ws[0]] + [ws[1]], ws[2]);
  }

  /** `led_init` leaves all three LED pins off; it writes exactly what
      `led_set_rgb(0, 0, 0)` writes, and running it a second time changes nothing. */
  lemma InitAllOffIdempotent(levels: map<Pin, Level>)
    ensures InitWrites == RgbWrites(Rgb(0, 0, 0))
    ensures Shown(ApplyWrites(levels, InitWrites)) == Some(Rgb(0, 0, 0))
    ensures ApplyWrites(ApplyWrites(levels, InitWrites), InitWrites) == ApplyWrites(levels, InitWrites)
  {
    var off := Rgb(0, 0, 0);
    RgbWritesSetColour(levels, off);
    RgbWritesSetColour(ApplyWrites(levels, InitWrites), off);
  }

  /** The writes of one pass of the blink loop with counter `pattern`: those of the
      matching `case`, none when no case matches. */
  function StepWrites(pattern: Uint8): seq<Write>
  {
    match Table(pattern)
    case Some(colour) => RgbWrites(colour)
    case None => []
  }

  /** A pass with counter `pattern` leaves the LED showing the table entry for
      `pattern`, whatever the pins held before. */
  lemma StepShowsTableEntry(levels: map<Pin, Level>, pattern: Uint8)
    requires pattern < PatternCount
    ensures Shown(ApplyWrites(levels, StepWrites(pattern))) == Table(pattern)
  {
  }

  /** The writes of the first `k` passes of the blink loop, in order. */
  function RunWrites(k: nat): (writes: seq<Write>)
    ensures |writes| == 3 * k
  {
    if k == 0 then [] else RunWrites(k - 1) + StepWrites(CounterAfter(k - 1))
  }

  /** After `k > 0` passes the LED shows the entry of the last pass's counter,
      `(k - 1) mod 8`, whatever the pins held before. */
  lemma RunShowsLastPattern(levels: map<Pin, Level>, k: nat)
    requires k > 0
    ensures Shown(ApplyWrites(levels, RunWrites(k))) == Table((k - 1) % PatternCount)
  {
    ApplyWritesAppend(levels, RunWrites(k - 1), StepWrites(CounterAfter(k - 1)));
    StepShowsTableEntry(ApplyWrites(levels, RunWrites(k - 1)), CounterAfter(k - 1));
    CounterIsModulo(k - 1);
  }

  /** After `led_init` and `k > 0` passes the LED shows the entry `(k - 1) mod 8`. */
  lemma InitThenRunShows(levels: map<Pin, Level>, k: nat)
    requires k > 0
    ensures Shown(ApplyWrites(levels, InitWrites + RunWrites(k))) == Table((k - 1) % PatternCount)
  {
    ApplyWritesAppend(levels, InitWrites, RunWrites(k));
    RunShowsLastPattern(ApplyWrites(levels, InitWrites), k);
  }

  /** From boot: `led_init` turns everything off, the first pass shows red, the second
      green, and eight passes later red again. */
  lemma BootScenario(levels: map<Pin, Level>)
    ensures Shown(ApplyWrites(levels, InitWrites + RunWrites(0))) == Some(Rgb(0, 0, 0))
    ensures Shown(ApplyWrites(levels, InitWrites + RunWrites(1))) == Some(Rgb(1, 0, 0))
    ensures Shown(ApplyWrites(levels, InitWrites + RunWrites(2))) == Some(Rgb(0, 1, 0))
    ensures Shown(ApplyWrites(levels, InitWrites + RunWrites(PatternCount + 1))) == Some(Rgb(1, 0, 0))
  {
    InitAllOffIdempotent(levels);
    assert InitWrites + RunWrites(0) == InitWrites;
    InitThenRunShows(levels, 1);
    InitThenRunShows(levels, 2);
    InitThenRunShows(levels, PatternCount + 1);
  }

  /** The board's GPIO outputs. `levels` holds the level last written to each pin and
      `trace` every write so far; the levels are always the boot levels with the trace
      replayed over them. */
  class Board {
    var levels: map<Pin, Level>
    var trace: seq<Write>
    ghost const boot: map<Pin, Level>

    ghost predicate Valid()
      reads this
    {
      levels == ApplyWrites(boot, trace)
    }

    /** The board at power-on, before any write. */
    constructor (initial: map<Pin, Level>)
      ensures Valid()
      ensures levels == initial && trace == []
    {
      levels := initial;
      trace := [];
      boot := initial;
    }

    /** `gpio_set_level`: drive one pin to `level`. */
    method SetLevel(pin: Pin, level: Level)
      requires Valid()
      modifies this
      ensures Valid()
      ensures levels == old(levels)[pin := level]
      ensures trace == old(trace) + [Write(pin, level)]
    {
      ApplyWritesSnoc(boot, trace, Write(pin, level));
      levels := levels[pin := level];
      trace := trace + [Write(pin, level)];
    }
  }

  /** `led_init`: drive the red, green and blue pins to 0, in that order. */
  method LedInit(board: Board)
    requires board.Valid()
    modifies board
    ensures board.Valid()
    ensures board.trace == old(board.trace) + InitWrites
    ensures board.levels == ApplyWrites(old(board.levels), InitWrites)
    ensures Shown(board.levels) == Some(Rgb(0, 0, 0))
  {
    board.SetLevel(LedRedGpio, 0);
    board.SetLevel(LedGreenGpio, 0);
    board.SetLevel(LedBlueGpio, 0);
    RgbWritesSetColour(old(board.levels), Rgb(0, 0, 0));
  }

  /** `led_set`: drive the one pin `gpio` to `state`; every other pin keeps its level. */
  method LedSet(board: Board, gpio: Pin, state: Level)
    requires board.Valid()
    modifies board
    ensures board.Valid()
    ensures board.trace == old(board.trace) + [Write(gpio, state)]
    ensures board.levels == old(board.levels)[gpio := state]
    ensures forall pin :: pin in old(board.levels) && pin != gpio ==>
              pin in board.levels && board.levels[pin] == old(board.levels)[pin]
  {
    board.SetLevel(gpio, state);
  }

  /** `led_set_rgb`: drive red, then green, then blue; the LED then shows exactly
      (red, green, blue) and no other pin changes. */
  method LedSetRgb(board: Board, red: Level, green: Level, blue: Level)
    requires board.Valid()
    modifies board
    ensures board.Valid()
    ensures board.trace == old(board.trace) + RgbWrites(Rgb(red, green, blue))
    ensures board.levels == ApplyWrites(old(board.levels), RgbWrites(Rgb(red, green, blue)))
    ensures Shown(board.levels) == Some(Rgb(red, green, blue))
  {
    board.SetLevel(LedRedGpio, red);
    board.SetLevel(LedGreenGpio, green);
    board.SetLevel(LedBlueGpio, blue);
    RgbWritesSetColour(old(board.levels), Rgb(red, green, blue));
  }

  /** One pass of the `while (1)` loop of `led_blink_task`: the `switch` on `pattern`,
      then the counter advance. The log line and the delay are not modelled. */
  method BlinkStep(board: Board, pattern: Uint8) returns (next: Uint8)
    requires board.Valid()
    modifies board
    ensures board.Valid()
    ensures next == Advance(pattern)
    ensures board.trace == old(board.trace) + StepWrites(pattern)
    ensures board.levels == ApplyWrites(old(board.levels), StepWrites(pattern))
    ensures pattern < PatternCount ==> Shown(board.levels) == Table(pattern)
  {
    match pattern {
      case 0 => LedSetRgb(board, 1, 0, 0);
      case 1 => LedSetRgb(board, 0, 1, 0);
      case 2 => LedSetRgb(board, 0, 0, 1);
      case 3 => LedSetRgb(board, 1, 1, 1);
      case 4 => LedSetRgb(board, 1, 1, 0);
      case 5 => LedSetRgb(board, 0, 1, 1);
      case 6 => LedSetRgb(board, 1, 0, 1);
      case 7 => LedSetRgb(board, 0, 0, 0);
      case _ =>
    }
    next := Advance(pattern);
  }

  /** `led_blink_task` run for `passes` passes of its loop instead of forever. The
      counter starts at 0; afterwards it is `passes mod 8`, the pins have received
      the writes of every pass in order, and the LED shows the entry of the last
      pass. */
  method BlinkTask(board: Board, passes: nat) returns (pattern: Uint8)
    requires board.Valid()
    modifies board
    ensures board.Valid()
    ensures pattern == CounterAfter(passes) && pattern == passes % PatternCount
    ensures board.trace == old(board.trace) + RunWrites(passes)
    ensures board.levels == ApplyWrites(old(board.levels), RunWrites(passes))
    ensures passes > 0 ==> Shown(board.levels) == Table((passes - 1) % PatternCount)
  {
    ghost var levels0, trace0 := board.levels, board.trace;
    pattern := 0;
    var k := 0;
    while k < passes
      invariant k <= passes
      invariant board.Valid()
      invariant pattern == CounterAfter(k)
      invariant board.trace == trace0 + RunWrites(k)
      invariant board.levels == ApplyWrites(levels0, RunWrites(k))
    {
      ghost var step := StepWrites(pattern);
      assert RunWrites(k + 1) == RunWrites(k) + step;
      assert trace0 + RunWrites(k + 1) == (trace0 + RunWrites(k)) + step;
      ApplyWritesAppend(levels0, RunWrites(k), step);
      pattern := BlinkStep(board, pattern);
      k := k + 1;
    }
    CounterIsModulo(passes);
    if passes > 0 {
      RunShowsLastPattern(levels0, passes);
    }
  }

  /** `app_main`: `led_init`, then the blink task, here run in line for `passes`
      passes in place of being handed to the scheduler. */
  method AppMain(board: Board, passes: nat)
    requires board.Valid()
    modifies board
    ensures board.Valid()
    ensures board.trace == old(board.trace) + InitWrites + RunWrites(passes)
    ensures board.levels == ApplyWrites(old(board.levels), InitWrites + RunWrites(passes))
    ensures passes == 0 ==> Shown(board.levels) == Some(Rgb(0, 0, 0))
    ensures passes > 0 ==> Shown(board.levels) == Table((passes - 1) % PatternCount)
  {
    LedInit(board);
    var _ := BlinkTask(board, passes);
    ApplyWritesAppend(old(board.levels), InitWrites, RunWrites(passes));
  }
}
