/**
 * The foreground of main.c over the globals it updates in place: the
 * keypad loop with its three key branches and the debounce block, the
 * fingerprint stage with its retry loops, and the relay.
 *
 * Each method is proved against the value-level model in `Safe`: a key
 * moves `Snapshot()` by `KeyStep`, a stage by `Stage`. The sensor's side of
 * every command is an `Exchange` (the clock and the poll script its read
 * sees), and `Responses` turns the exchanges of a stage into the replies
 * `Safe` works with.
 */
module Firmware {
  import opened Common
  import opened Frames
  import opened As608
  import opened Keypad
  import opened Safe
  import Keyboard

  /** The replies the driver reads from a stage's exchanges, for either response length. */
  function Responses(link: seq<Exchange>): seq<Response>
  {
    seq(|link|, i requires 0 <= i < |link| => Response(Answer(link[i], 12), Answer(link[i], 16)))
  }

  /** Every exchange decides its read before its poll script runs out. */
  predicate Settles(link: seq<Exchange>)
  {
    forall i :: 0 <= i < |link| ==> Settled(link[i])
  }

  /**
   * Every exchange of `link` decides its read, and `line` holds, for each,
   * the replies the driver reads from it.
   */
  ghost predicate Agrees(link: seq<Exchange>, line: seq<Response>)
  {
    |line| == |link|
    && forall i {:trigger link[i]} :: 0 <= i < |link| ==>
         Settled(link[i]) && line[i] == Response(Answer(link[i], 12), Answer(link[i], 16))
  }

  /** The replies of settled exchanges are the ones `Responses` reads. */
  lemma ResponsesAgree(link: seq<Exchange>)
    requires Settles(link)
    ensures Agrees(link, Responses(link))
  {
  }

  /** The sensor commands of a trace, in order: relay switches issue none. */
  function Calls(t: seq<Event>): seq<Cmd>
  {
    if t == [] then [] else (if t[0].Call? then [t[0].cmd] else []) + Calls(t[1..])
  }

  lemma {:induction false} CallsAppend(a: seq<Event>, b: seq<Event>)
    ensures Calls(a + b) == Calls(a) + Calls(b)
    decreases |a|
  {
    if a == [] {
      assert a + b == b;
    } else {
      var head := if a[0].Call? then [a[0].cmd] else [];
      assert (a + b)[0] == a[0] && (a + b)[1..] == a[1..] + b;
      assert Calls(a + b) == head + Calls(a[1..] + b);
      CallsAppend(a[1..], b);
      assert Calls(a) == head + Calls(a[1..]);
    }
  }

  /** The frames of a list of commands, in order. */
  function FramesOf(cmds: seq<Cmd>): seq<seq<uint8>>
  {
    seq(|cmds|, i requires 0 <= i < |cmds| => Frame(cmds[i]))
  }

  /**
   * `sent` is what the driver has written to the sensor's line over the
   * trace `t`: one frame per sensor call, in order.
   */
  ghost predicate Wired(sent: seq<seq<uint8>>, t: seq<Event>)
  {
    var cs := Calls(t);
    |sent| == |cs| && forall i {:trigger sent[i]} :: 0 <= i < |sent| ==> sent[i] == Frame(cs[i])
  }

  /** A sensor call writes its command's frame. */
  lemma WiredCall(sent: seq<seq<uint8>>, t: seq<Event>, c: Cmd, r: uint8)
    requires Wired(sent, t)
    ensures Wired(sent + [Frame(c)], t + [Call(c, r)])
  {
    CallsAppend(t, [Call(c, r)]);
    assert Calls([Call(c, r)]) == [c] + Calls([]);
  }

  /** A relay switch writes nothing to the sensor's line. */
  lemma WiredRelay(sent: seq<seq<uint8>>, t: seq<Event>, on: bool)
    requires Wired(sent, t)
    ensures Wired(sent, t + [Relay(on)])
  {
    CallsAppend(t, [Relay(on)]);
    assert Calls([Relay(on)]) == [] + Calls([]);
  }

  /** Between two points of a run, the line grew by the frames of the commands issued in between. */
  lemma WiredExtend(sent0: seq<seq<uint8>>, t0: seq<Event>, sent1: seq<seq<uint8>>, t: seq<Event>)
    requires Wired(sent0, t0) && Wired(sent1, t0 + t)
    ensures sent1 == sent0 + FramesOf(Calls(t))
  {
    CallsAppend(t0, t);
    var cs := Calls(t0 + t);
    forall i | 0 <= i < |sent1|
      ensures sent1[i] == (sent0 + FramesOf(Calls(t)))[i]
    {
      if i < |sent0| {
        assert sent0[i] == Frame(Calls(t0)[i]);
      }
    }
  }

  /**
   * Issuing command `k` of a chain whose first `k` commands replied 0
   * extends its trace by that call and its frames by that frame.
   */
  lemma ChainNext(cmds: seq<Cmd>, line: seq<Response>, n: nat, k: nat)
    requires k < |cmds| && RepliedZero(cmds, line, n, k)
    ensures var t := Chain(cmds, line, n).events;
            k < |t| && t[..k + 1] == t[..k] + [Call(cmds[k], Reply(line, n + k, cmds[k]))]
            && (Reply(line, n + k, cmds[k]) == 0 ==> RepliedZero(cmds, line, n, k + 1))
  {
    ChainShape(cmds, line, n);
    ChainReaches(cmds, line, n, k);
    var t := Chain(cmds, line, n).events;
    assert t[..k + 1] == t[..k] + [t[k]];
  }

  /**
   * The first `k` commands of a chain have been issued and replied 0: the
   * log has grown from `log0` by the chain's first `k` events.
   */
  ghost predicate Reached(cmds: seq<Cmd>, line: seq<Response>, n: nat, k: nat,
                          log0: seq<Event>, log: seq<Event>)
  {
    k <= |cmds| && RepliedZero(cmds, line, n, k) && k <= |Chain(cmds, line, n).events|
    && log == log0 + Chain(cmds, line, n).events[..k]
  }

  /**
   * Command `k` of a chain has been issued and replied `r`: the log has
   * grown by the chain's first `k + 1` events; a reply of 0 lets the chain go on.
   */
  ghost predicate Issued(cmds: seq<Cmd>, line: seq<Response>, n: nat, k: nat, r: uint8,
                         log0: seq<Event>, log: seq<Event>)
  {
    k < |Chain(cmds, line, n).events| && k < |cmds| && r == Reply(line, n + k, cmds[k])
    && log == log0 + Chain(cmds, line, n).events[..k + 1]
    && (r == 0 ==> Reached(cmds, line, n, k + 1, log0, log))
  }

  /**
   * A chain that issued command `k` and either failed there or had no
   * command left is over: its trace is the first `k + 1` calls, and it is
   * complete exactly when
   * the last command replied 0.
   */
  lemma ChainDone(cmds: seq<Cmd>, line: seq<Response>, n: nat, k: nat)
    requires k < |Chain(cmds, line, n).events|
    requires k + 1 == |cmds| || Reply(line, n + k, cmds[k]) != 0
    ensures var r := Chain(cmds, line, n);
            |r.events| == k + 1 && r.events[..k + 1] == r.events
            && (r.ok <==> k + 1 == |cmds| && Reply(line, n + k, cmds[k]) == 0)
  {
    var t := Chain(cmds, line, n).events;
    if Reply(line, n + k, cmds[k]) != 0 {
      ChainStopsAt(cmds, line, n, k);
    } else {
      ChainEndsAt(cmds, line, n);
    }
    assert t[..k + 1] == t;
  }

  /** The relay pulse of a retry-loop pass: only a matching pass of the opening loop has one. */
  function PassRelays(open: bool, ok: bool): seq<Event>
  {
    if open && ok then [Relay(true), Relay(false)] else []
  }

  /**
   * A retry loop resumed at exchange `n` with counters `rep` and `mala`
   * finishes the whole loop `whole` after the events `done`.
   */
  ghost predicate Resumes(whole: Outcome, done: seq<Event>, cmds: seq<Cmd>, open: bool, line: seq<Response>, n: nat, rep: uint8, mala: uint8)
  {
    var rest := Attempts(cmds, open, line, n, rep, mala);
    done + rest.events == whole.events && rest.mala == whole.mala && rest.used == whole.used
  }

  /** A pass of a retry loop that has not stopped uses exchanges the whole loop accounts for. */
  lemma ResumesRoom(whole: Outcome, done: seq<Event>, cmds: seq<Cmd>, open: bool, line: seq<Response>, n: nat, rep: uint8, mala: uint8)
    requires rep != 3 && Resumes(whole, done, cmds, open, line, n, rep, mala)
    ensures n + |Chain(cmds, line, n).events| <= whole.used
  {
    var run := Chain(cmds, line, n);
    if !run.ok {
      var rest := Attempts(cmds, open, line, n + |run.events|, (rep + 1) % 0x100, mala);
      assert rest.used == whole.used;
    }
  }

  /**
   * One pass of a retry loop: after its chain and relay pulse, with the
   * counters the pass leaves, the loop resumes at the first unused exchange.
   */
  lemma ResumesNext(whole: Outcome, done: seq<Event>, cmds: seq<Cmd>, open: bool, line: seq<Response>, n: nat, rep: uint8, mala: uint8,
                    done': seq<Event>, n': nat, rep': uint8, mala': uint8)
    requires rep != 3 && Resumes(whole, done, cmds, open, line, n, rep, mala)
    requires var run := Chain(cmds, line, n);
             done' == done + (run.events + PassRelays(open, run.ok)) && n' == n + |run.events|
             && if run.ok then rep' == 3 && mala' == 0 else rep' == (rep + 1) % 0x100 && mala' == mala
    ensures Resumes(whole, done', cmds, open, line, n', rep', mala')
  {
    var run := Chain(cmds, line, n);
    var rest := Attempts(cmds, open, line, n', rep', mala');
    if run.ok {
      assert done' + [] == whole.events;
    } else {
      assert done' + rest.events == done + (run.events + rest.events);
    }
  }

  /** A retry loop that has stopped has produced the whole loop's events, counters and exchanges. */
  lemma ResumesEnd(whole: Outcome, done: seq<Event>, cmds: seq<Cmd>, open: bool, line: seq<Response>, n: nat, rep: uint8, mala: uint8)
    requires rep == 3 && Resumes(whole, done, cmds, open, line, n, rep, mala)
    ensures done == whole.events && mala == whole.mala && n == whole.used
  {
    assert done + [] == done;
  }

  /** An interrupt that may fire between two passes of the keypad loop. */
  datatype Irq =
    | Quiet
    | ColumnEdge(pin: int, pins: bv32)                // a rising edge on a column pin, with the GPIO levels
    | TimerWrap(rowWrapped: bool, debounceWrapped: bool) // the PWM slices that wrapped

  /** What an interrupt does to the keypad state: a masked edge and a disabled timer raise nothing. */
  function Fire(l: Keyboard.Lines, irq: Irq): Keyboard.Lines
  {
    match irq
    case Quiet => l
    case ColumnEdge(pin, pins) => if pin in l.columnIrqs then Keyboard.Capture(l, pins) else l
    case TimerWrap(rw, dw) => Keyboard.PwmIrq(l, Keyboard.PendingMask(l, rw, dw))
  }

  /** No interrupt takes the keypad out of its valid states. */
  lemma FireValid(l: Keyboard.Lines, irq: Irq)
    requires Keyboard.Valid(l)
    ensures Keyboard.Valid(Fire(l, irq))
  {
    match irq
    case Quiet =>
    case ColumnEdge(pin, pins) =>
      if pin in l.columnIrqs {
        assert !Keyboard.Frozen(l);
        Keyboard.CaptureFreezes(l, pins);
      }
    case TimerWrap(rw, dw) =>
      Keyboard.PwmIrqPreservesValid(l, rw, dw);
  }

  /** Delivers one interrupt to the handlers, as an atomic step. */
  method Interrupt(sc: Keyboard.Scanner, irq: Irq)
    modifies sc
    ensures sc.Snapshot() == Fire(old(sc.Snapshot()), irq)
  {
    match irq
    case Quiet =>
    case ColumnEdge(pin, pins) =>
      if pin in sc.columnIrqs {
        sc.KeyboardCallback(pins);
      }
    case TimerWrap(rw, dw) =>
      sc.PwmIrqHandler(Keyboard.PendingMask(sc.Snapshot(), rw, dw));
  }

  /** The globals of main.c, the sensor driver and the relay. */
  class Controller {
    var inicio: bool
    var opciones: bool
    var etapaLector: bool
    var passwordAcept: bool
    var tarea: uint8
    var rep: uint8
    var mala: uint8
    var ubicacion: uint8
    var keyCnt: uint8
    /** `hKeys`: the last valid key of the slot and mode branches. */
    const hKeys: array<uint8>
    /** `InPasswords`: the typed password, newest key first. */
    const inPasswords: array<uint8>
    const sensor: Sensor
    /** The level of the relay pin: the relay is active low, so high leaves it off. */
    var relayPin: bool
    /** Every sensor call with its reply and every relay switch, oldest first. */
    ghost var log: seq<Event>

    predicate Valid()
    {
      hKeys.Length == 1 && inPasswords.Length == 4
    }

    /** The sensor's line holds the frames of the logged calls, in order. */
    ghost predicate Coupled()
      reads this, sensor
    {
      Wired(sensor.sent, log)
    }

    /** The globals as a `Safe.State`. */
    function Snapshot(): State
      requires Valid()
      reads this, hKeys, inPasswords
    {
      State(inicio, opciones, etapaLector, passwordAcept, tarea, rep, mala, ubicacion, keyCnt,
            hKeys[0], inPasswords[..])
    }

    /** The globals at power-up, the relay pin high. */
    constructor ()
      ensures Valid() && Snapshot() == Init() && relayPin
      ensures fresh(sensor) && sensor.sent == [] && log == [] && Coupled()
    {
      inicio, opciones, etapaLector, passwordAcept := true, true, false, false;
      tarea, rep, mala, ubicacion, keyCnt := 0, 0, 1, 0, 0;
      hKeys := new uint8[1] [Invalid];
      inPasswords := new uint8[4] [Invalid, Invalid, Invalid, Invalid];
      sensor := new Sensor();
      relayPin := true;
      log := [];
    }

    // -------------------------------------------------------------------
    // The keypad
    // -------------------------------------------------------------------

    /** insertKey: the key becomes the last valid key. */
    method InsertKey(key: uint8)
      requires Valid()
      modifies hKeys
      ensures hKeys[0] == key
    {
      hKeys[0] := key;
    }

    /** insertPswd: every key moves one place back, the oldest drops out, the new key goes in front. */
    method InsertPswd(key: uint8)
      requires Valid()
      modifies inPasswords
      ensures inPasswords[..] == ShiftIn(old(inPasswords[..]), key)
    {
      var i := 2;
      while i >= 0
        invariant -1 <= i <= 2
        invariant forall j :: 0 <= j <= i + 1 ==> inPasswords[j] == old(inPasswords[j])
        invariant forall j :: i + 2 <= j < 4 ==> inPasswords[j] == old(inPasswords[j - 1])
        decreases i + 1
      {
        inPasswords[i + 1] := inPasswords[i];
        i := i - 1;
      }
      inPasswords[0] := key;
    }

    /** The password branch of the `keyFlag` block, on the key lines `keyData` of the capture. */
    method PasswordBlock(keyData: int)
      requires Valid() && (PasswordEntry(Snapshot()) ==> 1 <= ubicacion <= 9)
      modifies this`keyCnt, this`passwordAcept, this`etapaLector, inPasswords
      ensures Valid() && Snapshot() == PasswordBranch(old(Snapshot()), KeyDecode(keyData))
    {
      if !opciones && !passwordAcept && tarea == 2 {
        var keyd := KeyDecode(keyData);
        if keyd != Invalid {
          InsertPswd(keyd);
        }
        PasswordKeyCount();
      }
    }

    /** The `key_cnt` half of the password branch, once the key is in `InPasswords`. */
    method PasswordKeyCount()
      requires Valid() && 1 <= ubicacion <= 9
      modifies this`keyCnt, this`passwordAcept, this`etapaLector
      ensures Valid() && Snapshot() == PasswordCount(old(Snapshot()))
    {
      ghost var s0 := Snapshot();
      keyCnt := (keyCnt + 1) % 0x100;
      if keyCnt == 4 {
        assert inPasswords[..] == s0.inPasswords;
        var idxPW := CheckPsw2(VecPSWD, inPasswords[..], ubicacion - 1);
        if idxPW != -1 {
          passwordAcept := true;
          etapaLector := true;
        }
        keyCnt := 0;
      }
    }

    /** The slot branch of the `keyFlag` block. */
    method SlotBlock(keyData: int)
      requires Valid()
      modifies this`keyCnt, this`opciones, this`ubicacion, this`etapaLector, hKeys
      ensures Valid() && Snapshot() == SlotBranch(old(Snapshot()), KeyDecode(keyData))
    {
      if opciones && !inicio {
        var keyd := KeyDecode(keyData);
        if keyd != Invalid {
          InsertKey(keyd);
        }
        keyCnt := (keyCnt + 1) % 0x100;
        if keyCnt == 1 {
          var idxID := CheckIDlector(IDlector, hKeys[0]);
          if 1 <= idxID <= 9 {
            opciones := false;
            ubicacion := idxID;
            if tarea != 2 {
              etapaLector := true;
            }
          }
          keyCnt := 0;
        }
      }
    }

    /** The mode branch of the `keyFlag` block. */
    method ModeBlock(keyData: int)
      requires Valid()
      modifies this`keyCnt, this`inicio, this`opciones, this`tarea, this`etapaLector, hKeys
      ensures Valid() && Snapshot() == ModeBranch(old(Snapshot()), KeyDecode(keyData))
    {
      if inicio {
        var keyd := KeyDecode(keyData);
        if keyd != Invalid {
          InsertKey(keyd);
        }
        keyCnt := (keyCnt + 1) % 0x100;
        if keyCnt == 1 {
          var idxID := CheckID(VecIDs, hKeys[0]);
          if idxID == 0 {
            inicio := false;
            tarea := 1;
          } else if idxID == 1 {
            inicio := false;
            tarea := 2;
          } else if idxID == 2 {
            inicio := false;
            tarea := 3;
          } else if idxID == 3 {
            inicio := false;
            opciones := false;
            tarea := 4;
            etapaLector := true;
          }
          keyCnt := 0;
        }
      }
    }

    /** The `keyFlag` block: the password, slot and mode branches, in that order, on the captured GPIO levels. */
    method HandleKey(cap: bv32)
      requires Valid() && (PasswordEntry(Snapshot()) ==> 1 <= ubicacion <= 9)
      modifies this, hKeys, inPasswords
      ensures Valid() && Snapshot() == KeyStep(old(Snapshot()), KeyDecode(Keyboard.KeyData(cap)))
      ensures log == old(log) && relayPin == old(relayPin)
    {
      var keyData := Keyboard.KeyData(cap);
      PasswordBlock(keyData);
      SlotBlock(keyData);
      ModeBlock(keyData);
    }

    /** `if (keyFlag)`: the key captured by the interrupt is handled and the flag cleared. */
    method KeyFlagBlock(sc: Keyboard.Scanner)
      requires Valid() && Inv(Snapshot()) && !etapaLector
      modifies this, hKeys, inPasswords, sc`keyFlag
      ensures Valid() && Inv(Snapshot())
      ensures Snapshot() == if old(sc.keyFlag) then KeyStep(old(Snapshot()), KeyDecode(Keyboard.KeyData(sc.gKeyCap)))
                            else old(Snapshot())
      ensures sc.Snapshot() == old(sc.Snapshot()).(keyFlag := false)
      ensures log == old(log) && relayPin == old(relayPin)
    {
      if sc.keyFlag {
        KeyStepInv(Snapshot(), KeyDecode(Keyboard.KeyData(sc.gKeyCap)));
        HandleKey(sc.gKeyCap);
        sc.keyFlag := false;
      }
    }

    /** One pass of `while (gFlags.W && !EtapaLector)`: the `keyFlag` block, then the debounce block on the GPIO levels `pins`. */
    method KeypadPass(sc: Keyboard.Scanner, pins: bv32)
      requires Valid() && Inv(Snapshot()) && !etapaLector
      modifies this, hKeys, inPasswords, sc
      ensures Valid() && Inv(Snapshot())
      ensures Snapshot() == if old(sc.keyFlag) then KeyStep(old(Snapshot()), KeyDecode(Keyboard.KeyData(old(sc.gKeyCap))))
                            else old(Snapshot())
      ensures var l := old(sc.Snapshot()).(keyFlag := false);
              sc.Snapshot() == if l.keyDbnc then Keyboard.Debounce(l, pins) else l
      ensures log == old(log) && relayPin == old(relayPin)
    {
      KeyFlagBlock(sc);
      ghost var s1 := Snapshot();
      if sc.keyDbnc {
        sc.DebounceBlock(pins);
      }
      assert Snapshot() == s1;
    }

    /**
     * `while (gFlags.W && !EtapaLector)`: pass `k` reads the GPIO levels
     * `pins[k]` and is followed by the interrupt `irqs[k]`. The loop keeps
     * the foreground and the keypad in their invariants and stops when no
     * flag is pending, when the fingerprint stage is due, or when the
     * inputs run out.
     */
    method KeypadLoop(sc: Keyboard.Scanner, pins: seq<bv32>, irqs: seq<Irq>) returns (k: nat)
      requires |pins| == |irqs|
      requires Valid() && Inv(Snapshot()) && Keyboard.Valid(sc.Snapshot())
      modifies this, hKeys, inPasswords, sc
      ensures Valid() && Inv(Snapshot()) && Keyboard.Valid(sc.Snapshot())
      ensures k <= |pins| && (k < |pins| ==> !(sc.keyFlag || sc.keyDbnc) || etapaLector)
      ensures log == old(log) && relayPin == old(relayPin)
    {
      k := 0;
      while (sc.keyFlag || sc.keyDbnc) && !etapaLector && k < |pins|
        invariant k <= |pins|
        invariant Valid() && Inv(Snapshot()) && Keyboard.Valid(sc.Snapshot())
        invariant log == old(log) && relayPin == old(relayPin)
        decreases |pins| - k
      {
        KeypadRound(sc, pins[k], irqs[k]);
        k := k + 1;
      }
    }

    /** One pass of the loop on the levels `pins`, then the interrupt `irq`: both keep their invariants. */
    method KeypadRound(sc: Keyboard.Scanner, pins: bv32, irq: Irq)
      requires Valid() && Inv(Snapshot()) && Keyboard.Valid(sc.Snapshot()) && !etapaLector
      modifies this, hKeys, inPasswords, sc
      ensures Valid() && Inv(Snapshot()) && Keyboard.Valid(sc.Snapshot())
      ensures log == old(log) && relayPin == old(relayPin)
    {
      ghost var l := sc.Snapshot().(keyFlag := false);
      assert Keyboard.Valid(l);
      if l.keyDbnc {
        Keyboard.RearmOnlyOnSecondIdleSample(l, pins);
      }
      KeypadPass(sc, pins);
      FireValid(sc.Snapshot(), irq);
      Interrupt(sc, irq);
    }

    // -------------------------------------------------------------------
    // The sensor and the relay
    // -------------------------------------------------------------------

    /** Calls the driver operation for `c` on exchange `n`; the reply is the confirmation the read returns. */
    method Issue(c: Cmd, link: seq<Exchange>, ghost line: seq<Response>, n: nat) returns (r: uint8)
      requires Agrees(link, line) && n < |link| && Coupled()
      modifies this`log, sensor
      ensures r == Reply(line, n, c)
      ensures log == old(log) + [Call(c, r)]
      ensures sensor.sent == old(sensor.sent) + [Frame(c)] && Coupled()
      ensures sensor.index == IndexAfter(Receive(link[n].polls, ResponseLength(c), link[n].start + TimeoutMs, []), ResponseLength(c))
    {
      var x := link[n];
      match c {
        case GetImage => r := sensor.GetImage(x.polls, x.start);
        case ImageToTemplate(slot) => r := sensor.ImageToTemplate(slot, x.polls, x.start);
        case CreateModel => r := sensor.CreateModel(x.polls, x.start);
        case StoreModel(id) => r := sensor.StoreModel(id, x.polls, x.start);
        case SearchModel => r := sensor.SearchModel(x.polls, x.start);
        case DeleteModel(id) => r := sensor.DeleteModel(id, x.polls, x.start);
        case EmptyDatabase => r := sensor.EmptyDatabase(x.polls, x.start);
      }
      WiredCall(old(sensor.sent), log, c, r);
      log := log + [Call(c, r)];
    }

    /**
     * Command `k` of a nested chain, issued because every command before
     * it replied 0.
     */
    method Step(cmds: seq<Cmd>, link: seq<Exchange>, ghost line: seq<Response>, n: nat, k: nat,
                ghost log0: seq<Event>)
      returns (r: uint8)
      requires Agrees(link, line) && k < |cmds| && n + |Chain(cmds, line, n).events| <= |link|
      requires Reached(cmds, line, n, k, log0, log) && Coupled()
      modifies this`log, sensor
      ensures Issued(cmds, line, n, k, r, log0, log) && Coupled()
    {
      ChainNext(cmds, line, n, k);
      r := Issue(cmds[k], link, line, n + k);
    }

    /** encender_rele: the pin goes low and the relay closes. */
    method RelayOn()
      requires Coupled()
      modifies this`relayPin, this`log
      ensures !relayPin && log == old(log) + [Relay(true)] && Coupled()
    {
      WiredRelay(sensor.sent, log, true);
      relayPin := false;
      log := log + [Relay(true)];
    }

    /** apagar_rele: the pin goes high and the relay opens. */
    method RelayOff()
      requires Coupled()
      modifies this`relayPin, this`log
      ensures relayPin && log == old(log) + [Relay(false)] && Coupled()
    {
      WiredRelay(sensor.sent, log, false);
      relayPin := true;
      log := log + [Relay(false)];
    }

    // -------------------------------------------------------------------
    // The fingerprint stage
    // -------------------------------------------------------------------

    /**
     * The nested calls of an enrolment pass: two captures, two conversions,
     * a model and its store, each issued only if the one before replied 0.
     * The chain ends at call `k`, with reply `r`: the first that did not
     * reply 0, or the store.
     */
    method EnrollChain(link: seq<Exchange>, ghost line: seq<Response>, n: nat) returns (r: uint8, k: nat)
      requires Agrees(link, line) && Coupled()
      requires n + |Chain(EnrollCmds(ubicacion), line, n).events| <= |link|
      modifies this`log, sensor
      ensures var cmds := EnrollCmds(ubicacion);
              Issued(cmds, line, n, k, r, old(log), log) && (k + 1 == |cmds| || r != 0) && Coupled()
    {
      var cmds := EnrollCmds(ubicacion);
      assert Chain(cmds, line, n).events[..0] == [];
      // as608_get_image
      r := Step(cmds, link, line, n, 0, old(log));
      k := 0;
      if r == 0 {
        // as608_image_to_template into buffer 1
        r := Step(cmds, link, line, n, 1, old(log));
        k := 1;
        if r == 0 {
          // as608_get_image
          r := Step(cmds, link, line, n, 2, old(log));
          k := 2;
          if r == 0 {
            // as608_image_to_template into buffer 2
            r := Step(cmds, link, line, n, 3, old(log));
            k := 3;
            if r == 0 {
              // as608_create_model
              r := Step(cmds, link, line, n, 4, old(log));
              k := 4;
              if r == 0 {
                // as608_store_model into slot ubicacion
                r := Step(cmds, link, line, n, 5, old(log));
                k := 5;
              }
            }
          }
        }
      }
    }

    /**
     * One pass of the enrolment loop: the nested chain; a complete chain
     * sets `rep = 3` and `mala = 0`, a broken one counts a failure. `next`
     * is the first exchange the pass left unused.
     */
    method EnrollPass(link: seq<Exchange>, ghost line: seq<Response>, n: nat) returns (next: nat)
      requires Agrees(link, line) && Coupled()
      requires n + |Chain(EnrollCmds(ubicacion), line, n).events| <= |link|
      modifies this`log, this`rep, this`mala, sensor
      ensures var run := Chain(EnrollCmds(ubicacion), line, n);
              next == n + |run.events|
              && log == old(log) + run.events
              && Coupled()
              && if run.ok then rep == 3 && mala == 0 else rep == (old(rep) + 1) % 0x100 && mala == old(mala)
    {
      var r, k := EnrollChain(link, line, n);
      ChainDone(EnrollCmds(ubicacion), line, n, k);
      next := n + k + 1;
      if r == 0 {
        rep := 3;
        mala := 0;
      } else {
        rep := (rep + 1) % 0x100;
      }
    }

    /**
     * The nested calls of an opening pass: a capture, a conversion and a
     * search, each issued only if the one before replied 0. The chain ends
     * at call `k`, with reply `r`.
     */
    method OpenChain(link: seq<Exchange>, ghost line: seq<Response>, n: nat) returns (r: uint8, k: nat)
      requires Agrees(link, line) && Coupled()
      requires n + |Chain(VerifyCmds, line, n).events| <= |link|
      modifies this`log, sensor
      ensures Issued(VerifyCmds, line, n, k, r, old(log), log) && (k + 1 == |VerifyCmds| || r != 0) && Coupled()
    {
      var cmds := VerifyCmds;
      assert Chain(cmds, line, n).events[..0] == [];
      // as608_get_image
      r := Step(cmds, link, line, n, 0, old(log));
      k := 0;
      if r == 0 {
        // as608_image_to_template into buffer 1
        r := Step(cmds, link, line, n, 1, old(log));
        k := 1;
        if r == 0 {
          // as608_search
          r := Step(cmds, link, line, n, 2, old(log));
          k := 2;
        }
      }
    }

    /**
     * One pass of the opening loop: the nested chain; a match switches the
     * relay on and off again and sets `mala = 0`, `rep = 3`, a miss counts
     * a failure.
     */
    method OpenPass(link: seq<Exchange>, ghost line: seq<Response>, n: nat) returns (next: nat)
      requires Agrees(link, line) && Coupled()
      requires n + |Chain(VerifyCmds, line, n).events| <= |link|
      modifies this`log, this`rep, this`mala, this`relayPin, sensor
      ensures var run := Chain(VerifyCmds, line, n);
              next == n + |run.events|
              && log == old(log) + run.events + PassRelays(true, run.ok)
              && Coupled()
              && if run.ok then rep == 3 && mala == 0 && relayPin
                 else rep == (old(rep) + 1) % 0x100 && mala == old(mala) && relayPin == old(relayPin)
    {
      var r, k := OpenChain(link, line, n);
      ChainDone(VerifyCmds, line, n, k);
      next := n + k + 1;
      if r == 0 {
        RelayOn();
        RelayOff();
        mala := 0;
        rep := 3;
      } else {
        rep := (rep + 1) % 0x100;
      }
    }

    /**
     * One iteration of the enrolment loop, stated against the whole loop:
     * the pass's events extend `done`, and the loop resumes after them one
     * pass closer to its end.
     */
    method EnrollRound(link: seq<Exchange>, ghost line: seq<Response>, n: nat,
                       ghost whole: Outcome, ghost done: seq<Event>, ghost log0: seq<Event>)
      returns (next: nat, ghost done': seq<Event>)
      requires Agrees(link, line) && Coupled() && rep != 3 && whole.used <= |link|
      requires Resumes(whole, done, EnrollCmds(ubicacion), false, line, n, rep, mala) && log == log0 + done
      modifies this`log, this`rep, this`mala, sensor
      ensures Resumes(whole, done', EnrollCmds(ubicacion), false, line, next, rep, mala) && log == log0 + done'
      ensures Coupled() && Remaining(rep) < Remaining(old(rep))
    {
      ghost var cmds := EnrollCmds(ubicacion);
      ghost var run := Chain(cmds, line, n);
      RemainingStep(rep);
      ResumesRoom(whole, done, cmds, false, line, n, rep, mala);
      next := EnrollPass(link, line, n);
      assert run.events + PassRelays(false, run.ok) == run.events;
      done' := done + (run.events + PassRelays(false, run.ok));
      ResumesNext(whole, done, cmds, false, line, n, old(rep), old(mala), done', next, rep, mala);
    }

    /** `while (rep != 3)` of the enrolment task. */
    method EnrollTask(link: seq<Exchange>, ghost line: seq<Response>)
      requires Agrees(link, line) && Coupled()
      requires Attempts(EnrollCmds(ubicacion), false, line, 0, rep, mala).used <= |link|
      modifies this`log, this`rep, this`mala, sensor
      ensures var o := Attempts(EnrollCmds(ubicacion), false, line, 0, old(rep), old(mala));
              rep == o.rep && mala == o.mala && log == old(log) + o.events && Coupled()
    {
      ghost var cmds := EnrollCmds(ubicacion);
      ghost var whole := Attempts(cmds, false, line, 0, rep, mala);
      ghost var done: seq<Event> := [];
      var n: nat := 0;
      assert done + whole.events == whole.events;
      while rep != 3
        invariant Resumes(whole, done, cmds, false, line, n, rep, mala) && whole.used <= |link|
        invariant log == old(log) + done && Coupled()
        decreases Remaining(rep)
      {
        n, done := EnrollRound(link, line, n, whole, done, old(log));
      }
      ResumesEnd(whole, done, cmds, false, line, n, rep, mala);
    }

    /**
     * One iteration of the opening loop, stated against the whole loop:
     * the pass's events, relay pulse included, extend `done`, and the loop
     * resumes after them one pass closer to its end.
     */
    method OpenRound(link: seq<Exchange>, ghost line: seq<Response>, n: nat,
                     ghost whole: Outcome, ghost done: seq<Event>, ghost log0: seq<Event>)
      returns (next: nat, ghost done': seq<Event>)
      requires Agrees(link, line) && Coupled() && relayPin && rep != 3 && whole.used <= |link|
      requires Resumes(whole, done, VerifyCmds, true, line, n, rep, mala) && log == log0 + done
      modifies this`log, this`rep, this`mala, this`relayPin, sensor
      ensures Resumes(whole, done', VerifyCmds, true, line, next, rep, mala) && log == log0 + done'
      ensures Coupled() && relayPin && Remaining(rep) < Remaining(old(rep))
    {
      ghost var cmds := VerifyCmds;
      ghost var run := Chain(cmds, line, n);
      ghost var pulse := PassRelays(true, run.ok);
      RemainingStep(rep);
      ResumesRoom(whole, done, cmds, true, line, n, rep, mala);
      next := OpenPass(link, line, n);
      assert done + (run.events + pulse) == done + run.events + pulse;
      done' := done + (run.events + pulse);
      ResumesNext(whole, done, cmds, true, line, n, old(rep), old(mala), done', next, rep, mala);
    }

    /** `while (rep != 3)` of the opening task. */
    method OpenTask(link: seq<Exchange>, ghost line: seq<Response>)
      requires Agrees(link, line) && relayPin && Coupled()
      requires Attempts(VerifyCmds, true, line, 0, rep, mala).used <= |link|
      modifies this`log, this`rep, this`mala, this`relayPin, sensor
      ensures var o := Attempts(VerifyCmds, true, line, 0, old(rep), old(mala));
              rep == o.rep && mala == o.mala && log == old(log) + o.events
              && Coupled() && relayPin
    {
      ghost var cmds := VerifyCmds;
      ghost var whole := Attempts(cmds, true, line, 0, rep, mala);
      ghost var done: seq<Event> := [];
      var n: nat := 0;
      assert done + whole.events == whole.events;
      while rep != 3
        invariant Resumes(whole, done, cmds, true, line, n, rep, mala) && whole.used <= |link|
        invariant log == old(log) + done && Coupled() && relayPin
        decreases Remaining(rep)
      {
        n, done := OpenRound(link, line, n, whole, done, old(log));
      }
      ResumesEnd(whole, done, cmds, true, line, n, rep, mala);
    }

    /** The deletion task: one `as608_delete_model` on the selected slot, with no retry. */
    method DeleteTask(link: seq<Exchange>, ghost line: seq<Response>)
      requires Agrees(link, line) && 1 <= |link| && Coupled()
      modifies this`log, sensor
      ensures log == old(log) + [Call(DeleteModel(ubicacion), Reply(line, 0, DeleteModel(ubicacion)))]
      ensures sensor.sent == old(sensor.sent) + [DeleteModelFrame(ubicacion)] && Coupled()
    {
      var r := Issue(DeleteModel(ubicacion), link, line, 0);
    }

    /** The wipe task: one `as608_empty_database`, with no retry. */
    method WipeTask(link: seq<Exchange>, ghost line: seq<Response>)
      requires Agrees(link, line) && 1 <= |link| && Coupled()
      modifies this`log, sensor
      ensures log == old(log) + [Call(EmptyDatabase, Reply(line, 0, EmptyDatabase))]
      ensures sensor.sent == old(sensor.sent) + [EmptyDatabaseFrame()] && Coupled()
    {
      var r := Issue(EmptyDatabase, link, line, 0);
    }

    /** The chosen task's block: enrolment, opening, deletion or wipe, on the exchanges `link`. */
    method RunTask(link: seq<Exchange>, ghost line: seq<Response>)
      requires Valid() && relayPin && Agrees(link, line) && 18 <= |link| && Coupled()
      requires rep == 0 && mala == 1
      modifies this`log, this`rep, this`mala, this`relayPin, sensor
      ensures relayPin && Coupled()
      ensures log == old(log) + Stage(old(Snapshot()), line).events
      ensures tarea == 1 ==> var o := Attempts(EnrollCmds(ubicacion), false, line, 0, 0, 1); rep == o.rep && mala == o.mala
      ensures tarea == 2 ==> var o := Attempts(VerifyCmds, true, line, 0, 0, 1); rep == o.rep && mala == o.mala
      ensures tarea != 1 && tarea != 2 ==> rep == 0 && mala == 1
    {
      ghost var s0 := Snapshot();
      if tarea == 1 {
        ThreePasses(EnrollCmds(ubicacion), false, line);
        EnrollTask(link, line);
      }
      if tarea == 2 {
        ThreePasses(VerifyCmds, true, line);
        OpenTask(link, line);
      }
      if tarea == 3 {
        DeleteTask(link, line);
      }
      if tarea == 4 {
        WipeTask(link, line);
      }
    }

    /** One pass of `while (EtapaLector)`: the chosen task, then back to mode selection. */
    method StageBody(link: seq<Exchange>, ghost line: seq<Response>)
      requires Valid() && relayPin && Agrees(link, line) && 18 <= |link| && Coupled()
      requires rep == 0 && mala == 1
      modifies this, sensor
      ensures Valid() && relayPin && Coupled()
      ensures var st := Stage(old(Snapshot()), line);
              Snapshot() == st.after && log == old(log) + st.events
    {
      RunTask(link, line);
      inicio := true;
      opciones := true;
      etapaLector := false;
      tarea := 0;
      rep := 0;
      mala := 1;
      ubicacion := 0;
    }

    /**
     * `while (EtapaLector)`: when the stage is due, the chosen task's
     * block runs on the exchanges `link` and the flags are reset; the
     * stage's calls, replies and relay switching are appended to the log.
     */
    method ReaderStage(link: seq<Exchange>)
      requires Valid() && Inv(Snapshot()) && relayPin && Coupled()
      requires Settles(link) && 18 <= |link|
      modifies this, sensor
      ensures Valid() && relayPin && Coupled()
      ensures var st := Stage(old(Snapshot()), Responses(link));
              if old(etapaLector) then Snapshot() == st.after && log == old(log) + st.events
              else Snapshot() == old(Snapshot()) && log == old(log)
    {
      ghost var s0 := Snapshot();
      ghost var line := Responses(link);
      ResponsesAgree(link);
      while etapaLector
        invariant Valid() && relayPin && Coupled()
        invariant etapaLector ==> Snapshot() == s0 && log == old(log)
        invariant !etapaLector && s0.etapaLector ==>
                    Snapshot() == Stage(s0, line).after && log == old(log) + Stage(s0, line).events
        invariant !s0.etapaLector ==> Snapshot() == s0 && log == old(log)
        decreases if etapaLector then 1 else 0
      {
        StageBody(link, line);
      }
    }

    /**
     * One turn of `while (1)`: the keypad loop, then the fingerprint stage.
     * Whatever the keys and the sensor do, the turn keeps the invariants,
     * ends with no stage pending when the keypad loop left one due, and
     * adds to the log only a stage trace in which every store follows a
     * complete enrolment sequence and the relay is only pulsed right after
     * a successful search, and only by an opening past the password.
     */
    method MainTurn(sc: Keyboard.Scanner, pins: seq<bv32>, irqs: seq<Irq>, link: seq<Exchange>)
      requires |pins| == |irqs| && Settles(link) && 18 <= |link|
      requires Valid() && Inv(Snapshot()) && Keyboard.Valid(sc.Snapshot()) && relayPin && Coupled()
      modifies this, hKeys, inPasswords, sc, sensor
      ensures Valid() && Inv(Snapshot()) && Keyboard.Valid(sc.Snapshot()) && relayPin && Coupled()
      ensures !etapaLector
      ensures |old(log)| <= |log| && log[..|old(log)|] == old(log)
      ensures var t := log[|old(log)|..];
              StoreGuarded(t) && RelayGuarded(t) && MatchOpens(t)
              && (!NoRelay(t) ==> passwordAcept)
              && sensor.sent == old(sensor.sent) + FramesOf(Calls(t))
    {
      var k := KeypadLoop(sc, pins, irqs);
      ghost var s := Snapshot();
      ghost var before := log;
      if etapaLector {
        StageGuarded(s, Responses(link));
        StageInv(s, Responses(link));
      }
      ReaderStage(link);
      assert log[..|before|] == before;
      if !s.etapaLector {
        assert log[|before|..] == [];
      } else {
        assert log[|before|..] == Stage(s, Responses(link)).events;
      }
      assert old(log) + log[|old(log)|..] == log;
      WiredExtend(old(sensor.sent), old(log), sensor.sent, log[|old(log)|..]);
    }
  }
}
