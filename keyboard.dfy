/**
 * The interrupt side of the 4x4 keypad in main.c: the row-strobe timer
 * tick and the debounce tick (pwmIRQ), the column-edge capture
 * (keyboardCallback), and the debounce block the foreground loop runs
 * when the debounce tick has fired.
 *
 * Each handler is one atomic step. `Lines` is the value the state takes
 * and the functions on it are the specification; the class `Scanner`
 * holds the same state in fields, as the C globals and peripheral enables
 * do, and its methods are proved against those functions.
 */
module Keyboard {
  import opened Common

  /** GPIO 10..13 drive the rows. */
  const RowMask: bv32 := 0x3C00

  /** GPIO 14..17 read the columns. */
  const ColMask: bv32 := 0x3C000

  /** The column pins whose rising edge can raise keyboardCallback. */
  const Columns: set<int> := {14, 15, 16, 17}

  /** The interrupt-side state. */
  datatype Lines = Lines(
    gSeqCnt: bv8,         // row strobe position (uint8_t)
    gDZero: bool,         // first debounce sample taken
    gKeyCap: bv32,        // GPIO snapshot at the last capture
    keyFlag: bool,        // gFlags.B.keyFlag: a key was captured
    keyDbnc: bool,        // gFlags.B.keyDbnc: the debounce tick fired
    rowTimer: bool,       // PWM slice 0 (row strobe, 2 ms) enabled
    debounceTimer: bool,  // PWM slice 1 (debounce, 100 ms) enabled
    columnIrqs: set<int>, // column pins with the rising-edge interrupt enabled
    gpioOut: bv32)        // the GPIO output latch

  /** gpio_put_masked: the bits of `mask` take their values from `value`, the others keep theirs. */
  function PutMasked(out: bv32, mask: bv32, value: bv32): bv32
  {
    (out & !mask) | (value & mask)
  }

  /** Whether row `r` (GPIO 10 + r) is driven high. */
  predicate RowHigh(out: bv32, r: bv8)
    requires r < 4
  {
    (out >> (10 + r)) & 1 == 1
  }

  /** The row-strobe and edge interrupts are on, the debounce tick off: waiting for a key. */
  predicate Armed(s: Lines)
  {
    s.rowTimer && !s.debounceTimer && s.columnIrqs == Columns
  }

  /** Row strobe and edge interrupts off, the debounce tick on: waiting for the release. */
  predicate Frozen(s: Lines)
  {
    !s.rowTimer && s.debounceTimer && s.columnIrqs == {}
  }

  /** The byte the foreground decodes from a capture: GPIO 10..17, rows in the low nibble, columns in the high one. */
  function KeyData(cap: bv32): (keyc: int)
    ensures 0 <= keyc < 0x100
  {
    ((cap >> 10) & 0xFF) as int
  }

  /** The states the handlers keep the keypad in. */
  predicate Valid(s: Lines)
  {
    s.gSeqCnt < 4 && (Armed(s) || Frozen(s)) && (s.keyDbnc ==> Frozen(s))
  }

  /** The state once the keypad is initialised: rows low, row strobe and edge interrupts on. */
  function Initial(): Lines
  {
    Lines(0, false, 0, false, false, true, false, Columns, 0)
  }

  /** keyboardCallback: snapshot the pins, flag the key, stop the strobe, start the debounce tick, mask all four columns. */
  function Capture(s: Lines, pins: bv32): Lines
  {
    s.(gKeyCap := pins, keyFlag := true, rowTimer := false, debounceTimer := true,
       columnIrqs := s.columnIrqs - Columns)
  }

  /** pwmIRQ, given the pending-interrupt mask of the PWM block. */
  function PwmIrq(s: Lines, status: bv32): Lines
  {
    if status == 0x01 then
      var c := (s.gSeqCnt + 1) % 4;
      s.(gSeqCnt := c, gpioOut := PutMasked(s.gpioOut, RowMask, (1 as bv32) << (c + 10)))
    else if status == 0x02 then
      s.(keyDbnc := true)
    else
      s
  }

  /**
   * The mask pwmIRQ reads: bit 0 when the row timer wrapped, bit 1 when the
   * debounce timer wrapped; a timer that is not enabled does not wrap
   * (a wrap already latched when its slice is disabled is not modelled).
   */
  function PendingMask(s: Lines, rowWrapped: bool, debounceWrapped: bool): bv32
  {
    (if rowWrapped && s.rowTimer then 0x01 else 0x00) | (if debounceWrapped && s.debounceTimer then 0x02 else 0x00)
  }

  /**
   * The debounce block of the foreground loop: on the second of two ticks,
   * and only if the columns read 0, turn the strobe and edge interrupts back
   * on and the debounce tick off; every run flips the phase.
   */
  function Debounce(s: Lines, pins: bv32): Lines
  {
    var keyc := pins & ColMask;
    var s1 := if s.gDZero && keyc == 0
              then s.(rowTimer := true, debounceTimer := false, columnIrqs := s.columnIrqs + Columns)
              else s;
    s1.(gDZero := !s.gDZero, keyDbnc := false)
  }

  // ---------------------------------------------------------------------
  // Properties
  // ---------------------------------------------------------------------

  lemma InitialValid()
    ensures Valid(Initial())
  {
  }

  /** A row tick keeps the position in 0..3 and drives exactly that row high, leaving the other pins alone. */
  lemma RowTickStrobesOneRow(s: Lines)
    ensures var t := PwmIrq(s, 0x01);
            t.gSeqCnt == (s.gSeqCnt + 1) % 4
            && (forall r: bv8 :: r < 4 ==> (RowHigh(t.gpioOut, r) <==> r == t.gSeqCnt))
            && t.gpioOut & !RowMask == s.gpioOut & !RowMask
  {
  }

  /** A capture stops the strobe, masks every column and starts the debounce tick; the next edge is ignored. */
  lemma CaptureFreezes(s: Lines, pins: bv32)
    requires Valid(s) && Armed(s)
    ensures var t := Capture(s, pins); Frozen(t) && Valid(t) && t.keyFlag && t.gKeyCap == pins
  {
  }

  /** Every debounce run flips the phase flag and consumes the tick. */
  lemma DebounceToggles(s: Lines, pins: bv32)
    ensures Debounce(s, pins).gDZero == !s.gDZero && !Debounce(s, pins).keyDbnc
  {
  }

  /**
   * From the frozen state, the keypad is re-armed by a debounce run exactly
   * when the phase flag was already set and the columns read 0; otherwise
   * the enables do not change.
   */
  lemma {:induction false} RearmOnlyOnSecondIdleSample(s: Lines, pins: bv32)
    requires Valid(s) && Frozen(s)
    ensures var t := Debounce(s, pins);
            Valid(t)
            && (Armed(t) <==> s.gDZero && pins & ColMask == 0)
            && (!Armed(t) ==> Frozen(t))
  {
    assert Columns != {} by { assert 14 in Columns; }
  }

  /**
   * The timer interrupt keeps the state valid, and the mask it reads is
   * never 0x03; the default branch is taken only for an empty mask, where
   * it changes nothing.
   */
  lemma {:induction false} PwmIrqPreservesValid(s: Lines, rowWrapped: bool, debounceWrapped: bool)
    requires Valid(s)
    ensures PendingMask(s, rowWrapped, debounceWrapped) != 0x03
    ensures PendingMask(s, rowWrapped, debounceWrapped) !in {0x01, 0x02} ==>
              PendingMask(s, rowWrapped, debounceWrapped) == 0 && PwmIrq(s, 0) == s
    ensures Valid(PwmIrq(s, PendingMask(s, rowWrapped, debounceWrapped)))
  {
  }

  // ---------------------------------------------------------------------
  // The handlers, over the global state
  // ---------------------------------------------------------------------

  class Scanner {
    var gSeqCnt: bv8
    var gDZero: bool
    var gKeyCap: bv32
    var keyFlag: bool
    var keyDbnc: bool
    var rowTimer: bool
    var debounceTimer: bool
    var columnIrqs: set<int>
    var gpioOut: bv32

    function Snapshot(): Lines
      reads this
    {
      Lines(gSeqCnt, gDZero, gKeyCap, keyFlag, keyDbnc, rowTimer, debounceTimer, columnIrqs, gpioOut)
    }

    /** The state after start-up: both timers configured, slice 0 running, edge interrupts on. */
    constructor ()
      ensures Snapshot() == Initial()
    {
      gSeqCnt, gDZero, gKeyCap := 0, false, 0;
      keyFlag, keyDbnc := false, false;
      rowTimer, debounceTimer := true, false;
      columnIrqs := Columns;
      gpioOut := PutMasked(0, RowMask, 0);
    }

    /** keyboardCallback */
    method KeyboardCallback(pins: bv32)
      modifies this
      ensures Snapshot() == Capture(old(Snapshot()), pins)
    {
      gKeyCap := pins;
      keyFlag := true;
      rowTimer := false;
      debounceTimer := true;
      columnIrqs := columnIrqs - {14};
      columnIrqs := columnIrqs - {15};
      columnIrqs := columnIrqs - {16};
      columnIrqs := columnIrqs - {17};
    }

    /** pwmIRQ */
    method PwmIrqHandler(status: bv32)
      modifies this
      ensures Snapshot() == PwmIrq(old(Snapshot()), status)
    {
      if status == 0x01 {
        gSeqCnt := (gSeqCnt + 1) % 4;
        gpioOut := PutMasked(gpioOut, RowMask, (1 as bv32) << (gSeqCnt + 10));
      } else if status == 0x02 {
        keyDbnc := true;
      }
    }

    /** The foreground debounce block, run when `keyDbnc` is set; `pins` is `gpio_get_all()`. */
    method DebounceBlock(pins: bv32)
      modifies this
      ensures Snapshot() == Debounce(old(Snapshot()), pins)
    {
      var keyc := pins & ColMask;
      if gDZero {
        if keyc == 0 {
          rowTimer := true;
          debounceTimer := false;
          columnIrqs := columnIrqs + {14};
          columnIrqs := columnIrqs + {15};
          columnIrqs := columnIrqs + {16};
          columnIrqs := columnIrqs + {17};
        }
        gDZero := false;
      } else {
        gDZero := true;
      }
      keyDbnc := false;
    }
  }
}
