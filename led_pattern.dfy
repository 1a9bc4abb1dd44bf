/** The colour pattern of the LED blink task: the eight-entry colour table behind the
    `switch (pattern)` of `led_blink_task`, and the `pattern` counter that picks one
    entry per pass of its loop. Everything here is pure; the pins it drives are
    modelled in module LedDriver. */
module LedPattern {

  /** An unsigned 8-bit value: the C type `uint8_t` of the `pattern` counter. */
  type Uint8 = x: int | 0 <= x < 256

  /** A pin output level as the callers pass it: 1 drives the LED on, 0 drives it off. */
  type Level = l: int | 0 <= l <= 1

  /** The levels of the red, green and blue channels of the tri-colour LED. */
  datatype Rgb = Rgb(red: Level, green: Level, blue: Level)

  datatype Option<T> = None | Some(value: T)

  /** Number of `case`s of the switch; the counter runs modulo this. */
  const PatternCount: nat := 8

  /** The `switch (pattern)` of the blink loop: the triple it hands to `led_set_rgb`,
      or None when no `case` label matches (the switch has no `default`, so then
      no pin is written). */
  function Table(pattern: Uint8): (entry: Option<Rgb>)
    ensures entry.Some? <==> pattern < PatternCount
  {
    match pattern
    case 0 => Some(Rgb(1, 0, 0))  // red
    case 1 => Some(Rgb(0, 1, 0))  // green
    case 2 => Some(Rgb(0, 0, 1))  // blue
    case 3 => Some(Rgb(1, 1, 1))  // white
    case 4 => Some(Rgb(1, 1, 0))  // yellow: red + green
    case 5 => Some(Rgb(0, 1, 1))  // cyan: green + blue
    case 6 => Some(Rgb(1, 0, 1))  // magenta: red + blue
    case 7 => Some(Rgb(0, 0, 0))  // all off
    case _ => None
  }

  /** The inverse of the table: the index whose entry is `colour`. Every on/off
      combination of the three channels has one. */
  function IndexOf(colour: Rgb): (pattern: Uint8)
    ensures pattern < PatternCount
    ensures Table(pattern) == Some(colour)
  {
    match colour
    case Rgb(1, 0, 0) => 0
    case Rgb(0, 1, 0) => 1
    case Rgb(0, 0, 1) => 2
    case Rgb(1, 1, 1) => 3
    case Rgb(1, 1, 0) => 4
    case Rgb(0, 1, 1) => 5
    case Rgb(1, 0, 1) => 6
    case Rgb(0, 0, 0) => 7
  }

  /** Looking up a table entry and then its index gives back the index: no two
      indices share an entry. */
  lemma IndexOfTable(pattern: Uint8)
    requires pattern < PatternCount
    ensures Table(pattern).Some? && IndexOf(Table(pattern).value) == pattern
  {
  }

  /** The eight entries are pairwise distinct. */
  lemma TableEntriesDistinct(i: Uint8, j: Uint8)
    requires i < PatternCount && j < PatternCount && i != j
    ensures Table(i) != Table(j)
  {
  }

  /** Together the entries cover all eight on/off combinations of the three channels. */
  lemma TableCoversAllColours(colour: Rgb)
    ensures exists pattern: Uint8 :: pattern < PatternCount && Table(pattern) == Some(colour)
  {
    var pattern := IndexOf(colour);
    assert Table(pattern) == Some(colour);
  }

  /** `pattern = (pattern + 1) % 8`. C promotes the `uint8_t` to `int` before the
      addition, so the sum never wraps at 8 bits and the remainder fits back into
      `uint8_t`. */
  function Advance(pattern: Uint8): (next: Uint8)
    ensures next < PatternCount
    ensures pattern + 1 < PatternCount ==> next == pattern + 1
    ensures pattern + 1 == PatternCount ==> next == 0
  {
    (pattern + 1) % PatternCount
  }

  /** The value of `pattern` at the top of the loop after `k` passes: it starts at 0
      and each pass advances it once. */
  function CounterAfter(k: nat): (pattern: Uint8)
    ensures pattern < PatternCount
  {
    if k == 0 then 0 else Advance(CounterAfter(k - 1))
  }

  /** After `k` passes the counter is `k mod 8`. */
  lemma {:induction false} CounterIsModulo(k: nat)
    ensures CounterAfter(k) == k % PatternCount
  {
    if k > 0 {
      CounterIsModulo(k - 1);
    }
  }

  /** The counter is back at 0 after eight passes, and from then on repeats itself
      with period eight. */
  lemma CounterCycles(k: nat)
    ensures CounterAfter(PatternCount) == 0
    ensures CounterAfter(k + PatternCount) == CounterAfter(k)
  {
    CounterIsModulo(PatternCount);
    CounterIsModulo(k);
    CounterIsModulo(k + PatternCount);
  }

  /** Consecutive passes neither repeat nor skip an index: the next counter value is
      the current one plus one, modulo eight. */
  lemma CounterNoSkipNoRepeat(k: nat)
    ensures CounterAfter(k + 1) != CounterAfter(k)
    ensures (CounterAfter(k) + 1) % PatternCount == CounterAfter(k + 1)
  {
  }

  /** Within any eight consecutive passes, no index occurs twice ... */
  lemma CounterDistinctInCycle(i: nat, j: nat)
    requires i < j < i + PatternCount
    ensures CounterAfter(i) != CounterAfter(j)
  {
    CounterIsModulo(i);
    CounterIsModulo(j);
  }

  /** ... and every index occurs once. */
  lemma CounterVisitsEveryIndex(start: nat, pattern: Uint8)
    requires pattern < PatternCount
    ensures exists k :: start <= k < start + PatternCount && CounterAfter(k) == pattern
  {
    var k := start + (pattern - start) % PatternCount;
    CounterIsModulo(k);
    assert CounterAfter(k) == pattern;
  }

  /** The counter always holds a value some `case` label matches, so the missing
      `default` of the switch is never needed. */
  lemma SwitchAlwaysMatches(k: nat)
    ensures Table(CounterAfter(k)).Some?
  {
  }

  /** The first pass lights red only and the second green only; the ninth lights red
      again. */
  lemma FirstPatterns()
    ensures Table(CounterAfter(0)) == Some(Rgb(1, 0, 0))
    ensures Table(CounterAfter(1)) == Some(Rgb(0, 1, 0))
    ensures Table(CounterAfter(PatternCount)) == Some(Rgb(1, 0, 0))
  {
  }
}
