/**
 * The safe's control flow in main.c, as values.
 *
 * `State` holds the globals the foreground loop reads and writes. A
 * decoded key moves it through three branches that main.c tests one after
 * the other on the updated globals (password entry, slot selection, mode
 * selection). When `EtapaLector` is set, the fingerprint stage runs the
 * task that was chosen against the sensor and then resets the flags.
 *
 * The sensor is a sequence of exchanges, one per command issued in the
 * stage, and the stage yields the trace of commands with their replies
 * and the relay switching.
 */
module Safe {
  import opened Common
  import opened Frames
  import opened Keypad

  /** The foreground globals of main.c. */
  datatype State = State(
    inicio: bool,           // Inicio: waiting for a mode key
    opciones: bool,         // opciones: waiting for a slot key
    etapaLector: bool,      // EtapaLector: the fingerprint stage is due
    passwordAcept: bool,    // PasswordAcept: a password was accepted
    tarea: uint8,           // tarea: 1 enrol, 2 open, 3 delete, 4 wipe
    rep: uint8,             // rep: failed attempts in the stage
    mala: uint8,            // mala: 1 until an attempt succeeds
    ubicacion: uint8,       // UbicacionLector: the selected slot
    keyCnt: uint8,          // key_cnt
    hKey: uint8,            // hKeys[0]: the last valid key
    inPasswords: seq<uint8> // InPasswords: the typed password, newest first
  )

  /** The globals as main.c initialises them. */
  function Init(): State
  {
    State(true, true, false, false, 0, 0, 1, 0, 0, Invalid, [Invalid, Invalid, Invalid, Invalid])
  }

  /** The guard of the password branch. */
  predicate PasswordEntry(s: State)
  {
    !s.opciones && !s.passwordAcept && s.tarea == 2
  }

  /** What the foreground keeps true between keys and stages. */
  predicate Inv(s: State)
  {
    |s.inPasswords| == 4 && s.rep == 0 && s.mala == 1 && s.tarea <= 4
    && (s.inicio <==> s.tarea == 0)
    && (s.inicio ==> s.opciones)
    && (s.opciones ==> !s.etapaLector && s.ubicacion == 0 && s.tarea != 4)
    && (!s.opciones && !s.etapaLector ==> s.tarea == 2)
    && (!s.opciones && s.tarea != 4 ==> 1 <= s.ubicacion <= 8)
    && (s.tarea == 4 ==> s.etapaLector)
    && (s.etapaLector && s.tarea == 2 ==> s.passwordAcept)
    && s.keyCnt < 4
    && (s.keyCnt != 0 ==> PasswordEntry(s) && !s.etapaLector)
  }

  // ---------------------------------------------------------------------
  // The keypad loop: one decoded key
  // ---------------------------------------------------------------------

  /**
   * Password entry: a valid key is shifted into the register; every key,
   * valid or not, counts; the fourth is compared with the selected
   * slot's row of the password table, which on a match sets
   * `PasswordAcept` and starts the fingerprint stage.
   */
  function PasswordBranch(s: State, keyd: uint8): (t: State)
    requires |s.inPasswords| == 4
    requires PasswordEntry(s) ==> 1 <= s.ubicacion <= 9
    ensures |t.inPasswords| == 4
    ensures t.inicio == s.inicio && t.opciones == s.opciones && t.tarea == s.tarea
  {
    if PasswordEntry(s) then
      var typed := if keyd != Invalid then ShiftIn(s.inPasswords, keyd) else s.inPasswords;
      PasswordCount(s.(inPasswords := typed))
    else
      s
  }

  /**
   * The second half of the password branch, once the key is shifted in:
   * `key_cnt` counts it, and the fourth key compares the typed password
   * with the slot's row and starts the count again.
   */
  function PasswordCount(s: State): State
    requires |s.inPasswords| == 4 && 1 <= s.ubicacion <= 9
  {
    var count := (s.keyCnt + 1) % 0x100;
    if count == 4 then
      if CheckPsw2(VecPSWD, s.inPasswords, s.ubicacion - 1) == -1 then
        s.(keyCnt := 0)
      else
        s.(keyCnt := 0, passwordAcept := true, etapaLector := true)
    else
      s.(keyCnt := count)
  }

  /**
   * Slot selection: the key (or, if it is invalid, the last valid key) is
   * looked up among the slots; a hit records the slot, leaves slot
   * selection and, unless the task is opening, starts the fingerprint stage.
   */
  function SlotBranch(s: State, keyd: uint8): (t: State)
    ensures t.inPasswords == s.inPasswords && t.passwordAcept == s.passwordAcept
    ensures t.inicio == s.inicio && t.tarea == s.tarea
  {
    if s.opciones && !s.inicio then
      var h := if keyd != Invalid then keyd else s.hKey;
      var count := (s.keyCnt + 1) % 0x100;
      if count == 1 then
        var idx := CheckIDlector(IDlector, h);
        if 1 <= idx <= 9 then
          s.(hKey := h, keyCnt := 0, opciones := false, ubicacion := idx,
             etapaLector := if s.tarea == 2 then s.etapaLector else true)
        else
          s.(hKey := h, keyCnt := 0)
      else
        s.(hKey := h, keyCnt := count)
    else
      s
  }

  /** Mode selection: A, B, C, D (or the last valid key) choose the task; D starts the wipe at once. */
  function ModeBranch(s: State, keyd: uint8): (t: State)
    ensures t.inPasswords == s.inPasswords && t.passwordAcept == s.passwordAcept
  {
    if s.inicio then
      var h := if keyd != Invalid then keyd else s.hKey;
      var count := (s.keyCnt + 1) % 0x100;
      if count == 1 then
        var idx := CheckID(VecIDs, h);
        var t := s.(hKey := h, keyCnt := 0);
        if idx == 0 then t.(inicio := false, tarea := 1)
        else if idx == 1 then t.(inicio := false, tarea := 2)
        else if idx == 2 then t.(inicio := false, tarea := 3)
        else if idx == 3 then t.(inicio := false, opciones := false, tarea := 4, etapaLector := true)
        else t
      else
        s.(hKey := h, keyCnt := count)
    else
      s
  }

  /** One pass of the `keyFlag` block: the three branches in the order main.c tests them. */
  function KeyStep(s: State, keyd: uint8): State
    requires |s.inPasswords| == 4
    requires PasswordEntry(s) ==> 1 <= s.ubicacion <= 9
  {
    ModeBranch(SlotBranch(PasswordBranch(s, keyd), keyd), keyd)
  }

  /** The key the slot and mode branches act on. */
  function Effective(s: State, keyd: uint8): uint8
  {
    if keyd != Invalid then keyd else s.hKey
  }

  // ---------------------------------------------------------------------
  // The fingerprint stage
  // ---------------------------------------------------------------------

  /** The sensor operations the stage calls. */
  datatype Cmd =
    | GetImage
    | ImageToTemplate(slot: uint8)
    | CreateModel
    | StoreModel(id: uint16)
    | SearchModel
    | DeleteModel(id: uint16)
    | EmptyDatabase

  /** What the stage does that can be seen from outside: a sensor command and its reply, or the relay. */
  datatype Event = Call(cmd: Cmd, reply: uint8) | Relay(on: bool)

  /** The length of the response each operation reads. */
  function ResponseLength(c: Cmd): nat
  {
    if c.SearchModel? then 16 else 12
  }

  /** The bytes each operation transmits. */
  function Frame(c: Cmd): seq<uint8>
  {
    match c
    case GetImage => GetImageFrame()
    case ImageToTemplate(slot) => ImageToTemplateFrame(slot)
    case CreateModel => CreateModelFrame()
    case StoreModel(id) => StoreModelFrame(id)
    case SearchModel => SearchModelFrame()
    case DeleteModel(id) => DeleteModelFrame(id)
    case EmptyDatabase => EmptyDatabaseFrame()
  }

  /**
   * What the sensor answers to one command: the confirmation byte the
   * driver returns when it reads a 12-byte response, and when it reads a
   * 16-byte one (0xFF if the line stays silent past the deadline).
   */
  datatype Response = Response(confirm12: uint8, confirm16: uint8)

  /** The reply to the `n`-th command of the stage; past the end of the responses the line stays silent. */
  function Reply(line: seq<Response>, n: nat, c: Cmd): uint8
  {
    if n >= |line| then 0xFF
    else if ResponseLength(c) == 16 then line[n].confirm16
    else line[n].confirm12
  }

  /** The commands of one enrolment attempt, storing into slot `id`. */
  function EnrollCmds(id: uint16): seq<Cmd>
  {
    [GetImage, ImageToTemplate(1), GetImage, ImageToTemplate(2), CreateModel, StoreModel(id)]
  }

  /** The commands of one opening attempt. */
  const VerifyCmds: seq<Cmd> := [GetImage, ImageToTemplate(1), SearchModel]

  /** The events of a chain of nested calls, and whether every call replied 0. */
  datatype Run = Run(events: seq<Event>, ok: bool)

  /**
   * The nested `if (as608_x() == 0)` chain: issue the commands in order,
   * stopping after the first that does not reply 0.
   */
  function Chain(cmds: seq<Cmd>, line: seq<Response>, n: nat): (r: Run)
    ensures |r.events| <= |cmds| && (cmds != [] ==> 1 <= |r.events|)
    decreases |cmds|
  {
    if cmds == [] then Run([], true)
    else
      var answer := Reply(line, n, cmds[0]);
      if answer != 0 then Run([Call(cmds[0], answer)], false)
      else
        var rest := Chain(cmds[1..], line, n + 1);
        Run([Call(cmds[0], 0)] + rest.events, rest.ok)
  }

  /**
   * A chain's trace is a prefix of its command list, each call with the
   * reply its exchange gives; every call but the last replied 0, and the
   * chain is complete exactly when it issued every command and each
   * replied 0.
   */
  lemma {:induction false} ChainShape(cmds: seq<Cmd>, line: seq<Response>, n: nat)
    ensures var r := Chain(cmds, line, n);
            (forall i :: 0 <= i < |r.events| ==> r.events[i] == Call(cmds[i], Reply(line, n + i, cmds[i])))
            && (forall i :: 0 <= i < |r.events| - 1 ==> r.events[i].reply == 0)
            && (r.ok <==> |r.events| == |cmds| && forall i :: 0 <= i < |cmds| ==> Reply(line, n + i, cmds[i]) == 0)
    decreases |cmds|
  {
    if cmds != [] && Reply(line, n, cmds[0]) == 0 {
      ChainShape(cmds[1..], line, n + 1);
    }
  }

  /** The result of the retry loop: its events, the final `rep` and `mala`, and the next exchange. */
  datatype Outcome = Outcome(events: seq<Event>, rep: uint8, mala: uint8, used: nat)

  /** How many more passes `while (rep != 3)` makes if every one fails, counting `rep` modulo 256. */
  function Remaining(rep: uint8): nat
  {
    if rep <= 3 then 3 - rep else 259 - rep
  }

  /** A failed pass brings the loop one pass closer to its end, wrapping 255 to 0. */
  lemma RemainingStep(rep: uint8)
    requires rep != 3
    ensures Remaining((rep + 1) % 0x100) + 1 == Remaining(rep)
  {
    if rep == 255 {
      assert (rep + 1) % 0x100 == 0;
    } else {
      assert (rep + 1) % 0x100 == rep + 1;
    }
  }

  /**
   * `while (rep != 3)`: each pass runs the chain; a complete chain ends
   * the loop with `rep = 3`, `mala = 0` (and, when opening, switches the
   * relay on and off); a broken one counts a failure.
   */
  function Attempts(cmds: seq<Cmd>, open: bool, line: seq<Response>, n: nat, rep: uint8, mala: uint8): (o: Outcome)
    ensures o.rep == 3
    ensures o.mala == mala || o.mala == 0
    ensures n <= o.used
    decreases Remaining(rep)
  {
    if rep == 3 then Outcome([], rep, mala, n)
    else
      var run := Chain(cmds, line, n);
      if run.ok then
        Outcome(run.events + (if open then [Relay(true), Relay(false)] else []), 3, 0, n + |run.events|)
      else
        var rest := Attempts(cmds, open, line, n + |run.events|, (rep + 1) % 0x100, mala);
        Outcome(run.events + rest.events, rest.rep, rest.mala, rest.used)
  }

  /** The end of every stage: back to mode selection, with `PasswordAcept`, `key_cnt` and the key registers untouched. */
  function Reset(s: State): State
  {
    s.(inicio := true, opciones := true, etapaLector := false, tarea := 0, rep := 0, mala := 1, ubicacion := 0)
  }

  /** The events of one stage and the state it leaves. */
  datatype StageResult = StageResult(events: seq<Event>, after: State)

  /** One pass of `while (EtapaLector)`: the chosen task's block, then the reset. */
  function Stage(s: State, line: seq<Response>): StageResult
  {
    var o :=
      if s.tarea == 1 then Attempts(EnrollCmds(s.ubicacion), false, line, 0, s.rep, s.mala)
      else if s.tarea == 2 then Attempts(VerifyCmds, true, line, 0, s.rep, s.mala)
      else if s.tarea == 3 then Outcome([Call(DeleteModel(s.ubicacion), Reply(line, 0, DeleteModel(s.ubicacion)))], s.rep, s.mala, 1)
      else if s.tarea == 4 then Outcome([Call(EmptyDatabase, Reply(line, 0, EmptyDatabase))], s.rep, s.mala, 1)
      else Outcome([], s.rep, s.mala, 0);
    StageResult(o.events, Reset(s))
  }

  // ---------------------------------------------------------------------
  // Trace properties
  // ---------------------------------------------------------------------

  /** The calls that must all have replied 0 right before a model is stored. */
  const EnrollPrefix: seq<Event> :=
    [Call(GetImage, 0), Call(ImageToTemplate(1), 0), Call(GetImage, 0), Call(ImageToTemplate(2), 0), Call(CreateModel, 0)]

  /** The calls that must all have replied 0 right before the relay is switched on. */
  const VerifyPrefix: seq<Event> := [Call(GetImage, 0), Call(ImageToTemplate(1), 0), Call(SearchModel, 0)]

  /** A call that stores a model. */
  predicate IsStore(e: Event)
  {
    e.Call? && e.cmd.StoreModel?
  }

  /**
   * The event at `i` is not a store, or it is a store issued right after
   * two captures, two conversions and a model creation that all replied 0.
   */
  predicate StoreAt(t: seq<Event>, i: nat)
    requires i < |t|
  {
    IsStore(t[i]) ==> 5 <= i && t[i - 5..i] == EnrollPrefix
  }

  /** Every store in the trace is guarded by `EnrollPrefix`. */
  predicate StoreGuarded(t: seq<Event>)
  {
    forall i: nat :: i < |t| ==> StoreAt(t, i)
  }

  /** The relay pulse that follows a successful search. */
  const Pulse: seq<Event> := VerifyPrefix + [Relay(true), Relay(false)]

  /**
   * The event at `i` is not relay-on, or it comes right after a capture, a
   * conversion and a search that all replied 0 and right before relay-off:
   * the five events around it are `Pulse`.
   */
  predicate RelayAt(t: seq<Event>, i: nat)
    requires i < |t|
  {
    t[i] == Relay(true) ==> 3 <= i && i + 2 <= |t| && t[i - 3..i + 2] == Pulse
  }

  /** Every relay-on in the trace sits inside a `Pulse`. */
  predicate RelayGuarded(t: seq<Event>)
  {
    forall i: nat :: i < |t| ==> RelayAt(t, i)
  }

  /** The event at `i` is not a successful search, or the relay switches on right after it. */
  predicate MatchAt(t: seq<Event>, i: nat)
    requires i < |t|
  {
    t[i] == Call(SearchModel, 0) ==> i + 1 < |t| && t[i + 1] == Relay(true)
  }

  /** Every successful search is followed by the relay switching on. */
  predicate MatchOpens(t: seq<Event>)
  {
    forall i: nat :: i < |t| ==> MatchAt(t, i)
  }

  /** The relay is never touched. */
  predicate NoRelay(t: seq<Event>)
  {
    forall e :: e in t ==> e.Call?
  }

  /** The number of calls of `c` in a trace. */
  function Count(t: seq<Event>, c: Cmd): (k: nat)
    ensures k <= |t|
  {
    if t == [] then 0 else (if t[0].Call? && t[0].cmd == c then 1 else 0) + Count(t[1..], c)
  }

  // ---------------------------------------------------------------------
  // The keypad: lemmas
  // ---------------------------------------------------------------------

  lemma InitInv()
    ensures Inv(Init())
  {
  }

  /** With the invariant, exactly the branch that matches the state acts: the later ones never see a state the earlier one made. */
  lemma KeyDispatch(s: State, keyd: uint8)
    requires Inv(s) && !s.etapaLector
    ensures KeyStep(s, keyd) ==
      if s.inicio then ModeBranch(s, keyd)
      else if s.opciones then SlotBranch(s, keyd)
      else PasswordBranch(s, keyd)
  {
    if s.inicio {
      assert PasswordBranch(s, keyd) == s && SlotBranch(s, keyd) == s;
    } else if s.opciones {
      assert PasswordBranch(s, keyd) == s;
      assert ModeBranch(SlotBranch(s, keyd), keyd) == SlotBranch(s, keyd);
    } else {
      var t := PasswordBranch(s, keyd);
      assert SlotBranch(t, keyd) == t && ModeBranch(t, keyd) == t;
    }
  }

  /** A key keeps the invariant. */
  lemma KeyStepInv(s: State, keyd: uint8)
    requires Inv(s) && !s.etapaLector
    ensures Inv(KeyStep(s, keyd))
  {
    KeyDispatch(s, keyd);
    if s.inicio {
      ModeBranchInv(s, keyd);
    } else if s.opciones {
      SlotBranchInv(s, keyd);
    } else {
      PasswordBranchInv(s, keyd);
    }
  }

  lemma ModeBranchInv(s: State, keyd: uint8)
    requires Inv(s) && s.inicio
    ensures Inv(ModeBranch(s, keyd))
  {
    ModeTable(Effective(s, keyd));
  }

  lemma SlotBranchInv(s: State, keyd: uint8)
    requires Inv(s) && !s.inicio && s.opciones
    ensures Inv(SlotBranch(s, keyd))
  {
    SlotTable(Effective(s, keyd));
  }

  lemma PasswordBranchInv(s: State, keyd: uint8)
    requires Inv(s) && !s.etapaLector && !s.opciones
    ensures Inv(PasswordBranch(s, keyd))
  {
    if PasswordEntry(s) {
      var typed := if keyd != Invalid then ShiftIn(s.inPasswords, keyd) else s.inPasswords;
      assert PasswordBranch(s, keyd) == PasswordCount(s.(inPasswords := typed));
    }
  }

  /**
   * Mode selection: A, B, C and D choose tasks 1..4 (D also starts the wipe
   * and skips slot selection); any other key leaves the safe waiting for a
   * mode. An invalid key reuses the last valid one.
   */
  lemma ModeSelection(s: State, keyd: uint8)
    requires Inv(s) && s.inicio
    ensures var h := Effective(s, keyd);
            var t := KeyStep(s, keyd);
            Inv(t) && t.hKey == h && t.keyCnt == 0
            && (0x0A <= h <= 0x0D ==>
                  !t.inicio && t.tarea == h - 0x09 && (t.etapaLector <==> h == 0x0D) && (t.opciones <==> h != 0x0D))
            && (!(0x0A <= h <= 0x0D) ==> t == s.(hKey := h))
  {
    KeyDispatch(s, keyd);
    KeyStepInv(s, keyd);
    ModeTable(Effective(s, keyd));
  }

  /**
   * Slot selection: keys 1..8 select that slot; opening then waits for the
   * password, the other tasks go straight to the fingerprint stage; any
   * other key, 9 included, leaves the safe waiting for a slot.
   */
  lemma SlotSelection(s: State, keyd: uint8)
    requires Inv(s) && s.opciones && !s.inicio
    ensures var h := Effective(s, keyd);
            var t := KeyStep(s, keyd);
            Inv(t) && t.hKey == h && t.keyCnt == 0 && t.tarea == s.tarea
            && (1 <= h <= 8 ==> !t.opciones && t.ubicacion == h && (t.etapaLector <==> s.tarea != 2))
            && (!(1 <= h <= 8) ==> t == s.(hKey := h))
  {
    KeyDispatch(s, keyd);
    KeyStepInv(s, keyd);
    SlotTable(Effective(s, keyd));
  }

  /** While the safe waits for a mode or a slot, an invalid key acts as the last valid key pressed again. */
  lemma InvalidKeyRepeatsLast(s: State)
    requires Inv(s) && s.opciones
    ensures KeyStep(s, Invalid) == KeyStep(s, s.hKey)
  {
    KeyDispatch(s, Invalid);
    KeyDispatch(s, s.hKey);
  }

  /** One key during password entry before the fourth: shifted in if valid, counted either way, nothing else changes. */
  lemma PasswordKey(s: State, keyd: uint8)
    requires Inv(s) && PasswordEntry(s) && !s.etapaLector && s.keyCnt < 3
    ensures KeyStep(s, keyd) ==
      s.(inPasswords := if keyd != Invalid then ShiftIn(s.inPasswords, keyd) else s.inPasswords,
         keyCnt := s.keyCnt + 1)
  {
    KeyDispatch(s, keyd);
    var typed := if keyd != Invalid then ShiftIn(s.inPasswords, keyd) else s.inPasswords;
    assert PasswordBranch(s, keyd) == PasswordCount(s.(inPasswords := typed));
    assert (s.keyCnt + 1) % 0x100 == s.keyCnt + 1 != 4;
  }

  /**
   * Four valid keys typed from the start of password entry: the register
   * holds them newest first, and the password is accepted (which starts
   * the fingerprint stage) exactly when that register equals the selected
   * slot's row of the table; otherwise the safe stays in password entry.
   */
  lemma {:induction false} PasswordAfterFourKeys(s: State, k1: uint8, k2: uint8, k3: uint8, k4: uint8)
    requires Inv(s) && PasswordEntry(s) && !s.etapaLector && s.keyCnt == 0
    requires k1 != Invalid && k2 != Invalid && k3 != Invalid && k4 != Invalid
    ensures var t := KeyStep(KeyStep(KeyStep(KeyStep(s, k1), k2), k3), k4);
            var row := VecPSWD[4 * (s.ubicacion - 1)..4 * s.ubicacion];
            Inv(t) && t.keyCnt == 0 && t.inPasswords == [k4, k3, k2, k1]
            && (t.passwordAcept <==> [k4, k3, k2, k1] == row)
            && (t.passwordAcept ==> t == s.(inPasswords := [k4, k3, k2, k1], passwordAcept := true, etapaLector := true))
            && (!t.passwordAcept ==> t == s.(inPasswords := [k4, k3, k2, k1]))
  {
    var s1 := KeyStep(s, k1);
    PasswordKey(s, k1);
    KeyStepInv(s, k1);
    var s2 := KeyStep(s1, k2);
    PasswordKey(s1, k2);
    KeyStepInv(s1, k2);
    var s3 := KeyStep(s2, k3);
    PasswordKey(s2, k3);
    KeyStepInv(s2, k3);
    assert s3 == s.(inPasswords := ShiftIn(ShiftIn(ShiftIn(s.inPasswords, k1), k2), k3), keyCnt := 3);
    FourthKey(s3, k4);
    KeyStepInv(s3, k4);
    TypingFourKeys(s.inPasswords, k1, k2, k3, k4);
  }

  /**
   * The fourth key of a password, valid or not: a valid key is shifted in,
   * an invalid one leaves the register as it is, and either way the
   * register is compared with the slot's row; a match starts the stage, and
   * the count goes back to 0.
   */
  lemma FourthKey(s: State, k: uint8)
    requires Inv(s) && PasswordEntry(s) && !s.etapaLector && s.keyCnt == 3
    ensures var typed := if k != Invalid then ShiftIn(s.inPasswords, k) else s.inPasswords;
            KeyStep(s, k) ==
              if typed == VecPSWD[4 * (s.ubicacion - 1)..4 * s.ubicacion]
              then s.(inPasswords := typed, keyCnt := 0, passwordAcept := true, etapaLector := true)
              else s.(inPasswords := typed, keyCnt := 0)
  {
    KeyDispatch(s, k);
    var typed := if k != Invalid then ShiftIn(s.inPasswords, k) else s.inPasswords;
    assert PasswordBranch(s, k) == PasswordCount(s.(inPasswords := typed));
    FourthCountCompares(s.(inPasswords := typed));
  }

  /** The fourth counted key accepts exactly when the register equals the slot's row. */
  lemma FourthCountCompares(t: State)
    requires |t.inPasswords| == 4 && 1 <= t.ubicacion <= 8 && t.keyCnt == 3
    ensures PasswordCount(t) ==
              if t.inPasswords == VecPSWD[4 * (t.ubicacion - 1)..4 * t.ubicacion]
              then t.(keyCnt := 0, passwordAcept := true, etapaLector := true)
              else t.(keyCnt := 0)
  {
    var i := t.ubicacion - 1;
    var hit := CheckPsw2(VecPSWD, t.inPasswords, i) != -1;
    assert PasswordCount(t) == if hit then t.(keyCnt := 0, passwordAcept := true, etapaLector := true) else t.(keyCnt := 0);
    CheckPsw2Row(VecPSWD, t.inPasswords, i);
    RowMatch(t.inPasswords, i);
    assert hit <==> t.inPasswords == VecPSWD[4 * i..4 * i + 4];
  }

  /** Comparing a register with row `i` entry by entry is comparing it with the row's slice. */
  lemma RowMatch(typed: seq<uint8>, i: nat)
    requires |typed| == 4 && 4 * i + 4 <= |VecPSWD|
    ensures (forall j :: 0 <= j < 4 ==> VecPSWD[4 * i + j] == typed[j]) <==> typed == VecPSWD[4 * i..4 * i + 4]
  {
    var row := VecPSWD[4 * i..4 * i + 4];
    if forall j :: 0 <= j < 4 ==> VecPSWD[4 * i + j] == typed[j] {
      assert forall j :: 0 <= j < 4 ==> row[j] == typed[j];
    }
  }

  /**
   * Once `PasswordAcept` is set it is never cleared, so after a later
   * opening's slot is chosen no branch applies any more: every key leaves
   * the state as it is, and the fingerprint stage never starts.
   */
  lemma StuckAfterAcceptance(s: State, keyd: uint8)
    requires Inv(s) && !s.opciones && !s.etapaLector && s.passwordAcept
    ensures KeyStep(s, keyd) == s
  {
    KeyDispatch(s, keyd);
  }

  // ---------------------------------------------------------------------
  // The fingerprint stage: lemmas
  // ---------------------------------------------------------------------

  /** The stage keeps the invariant, returns to mode selection, and leaves `PasswordAcept` and the key registers as they were. */
  lemma StageInv(s: State, line: seq<Response>)
    requires Inv(s) && s.etapaLector
    ensures var t := Stage(s, line).after;
            Inv(t) && t.inicio && t.tarea == 0
            && t.passwordAcept == s.passwordAcept && t.keyCnt == s.keyCnt
            && t.hKey == s.hKey && t.inPasswords == s.inPasswords
  {
  }

  lemma {:induction false} CountAppend(a: seq<Event>, b: seq<Event>, c: Cmd)
    ensures Count(a + b, c) == Count(a, c) + Count(b, c)
    decreases |a|
  {
    if a == [] {
      assert a + b == b;
    } else {
      assert (a + b)[1..] == a[1..] + b;
      CountAppend(a[1..], b, c);
    }
  }

  /** The number of times `c` occurs in a command list. */
  function Occurs(cmds: seq<Cmd>, c: Cmd): (k: nat)
    ensures k <= |cmds|
  {
    if cmds == [] then 0 else (if cmds[0] == c then 1 else 0) + Occurs(cmds[1..], c)
  }

  /** A chain issues each command at most as often as the list holds it. */
  lemma {:induction false} ChainCount(cmds: seq<Cmd>, line: seq<Response>, n: nat, c: Cmd)
    ensures Count(Chain(cmds, line, n).events, c) <= Occurs(cmds, c)
    decreases |cmds|
  {
    if cmds != [] {
      var r := Chain(cmds, line, n);
      if Reply(line, n, cmds[0]) == 0 {
        ChainCount(cmds[1..], line, n + 1, c);
        assert r.events[1..] == Chain(cmds[1..], line, n + 1).events;
      } else {
        assert r.events[1..] == [];
      }
    }
  }

  /** The retry loop, started at `rep`, issues each command at most `Remaining(rep)` times as often as one attempt does. */
  lemma {:induction false} AttemptsCount(cmds: seq<Cmd>, open: bool, line: seq<Response>, n: nat, rep: uint8, mala: uint8, c: Cmd)
    ensures Count(Attempts(cmds, open, line, n, rep, mala).events, c) <= Times(Remaining(rep), Occurs(cmds, c))
    decreases Remaining(rep)
  {
    var k := Occurs(cmds, c);
    if rep == 3 {
      assert Attempts(cmds, open, line, n, rep, mala).events == [];
    } else {
      var m := Remaining((rep + 1) % 0x100);
      RemainingStep(rep);
      assert Times(Remaining(rep), k) == k + Times(m, k);
      if Chain(cmds, line, n).ok {
        SuccessCount(cmds, open, line, n, rep, mala, c);
      } else {
        var next := (rep + 1) % 0x100;
        var used := n + |Chain(cmds, line, n).events|;
        AttemptsCount(cmds, open, line, used, next, mala, c);
        FailureCount(cmds, open, line, n, rep, mala, c);
      }
    }
  }

  /** A complete attempt ends the loop: its calls are those of one chain. */
  lemma SuccessCount(cmds: seq<Cmd>, open: bool, line: seq<Response>, n: nat, rep: uint8, mala: uint8, c: Cmd)
    requires rep != 3 && Chain(cmds, line, n).ok
    ensures Count(Attempts(cmds, open, line, n, rep, mala).events, c) <= Occurs(cmds, c)
  {
    var run := Chain(cmds, line, n);
    var relays: seq<Event> := if open then [Relay(true), Relay(false)] else [];
    assert Attempts(cmds, open, line, n, rep, mala).events == run.events + relays;
    ChainCount(cmds, line, n, c);
    CountAppend(run.events, relays, c);
    if open {
      assert relays[1..] == [Relay(false)];
      assert relays[1..][1..] == [];
    }
  }

  /** A broken attempt adds the calls of one chain to those of the remaining passes. */
  lemma FailureCount(cmds: seq<Cmd>, open: bool, line: seq<Response>, n: nat, rep: uint8, mala: uint8, c: Cmd)
    requires rep != 3 && !Chain(cmds, line, n).ok
    ensures var used := n + |Chain(cmds, line, n).events|;
            Count(Attempts(cmds, open, line, n, rep, mala).events, c)
            <= Occurs(cmds, c) + Count(Attempts(cmds, open, line, used, (rep + 1) % 0x100, mala).events, c)
  {
    var run := Chain(cmds, line, n);
    var rest := Attempts(cmds, open, line, n + |run.events|, (rep + 1) % 0x100, mala);
    assert Attempts(cmds, open, line, n, rep, mala).events == run.events + rest.events;
    ChainCount(cmds, line, n, c);
    CountAppend(run.events, rest.events, c);
  }

  /** `m` copies of `k` added up. */
  function Times(m: nat, k: nat): nat
  {
    if m == 0 then 0 else k + Times(m - 1, k)
  }

  /** From the start of a stage, the loop issues a command at most three times as often as one attempt does. */
  lemma ThreeAttempts(cmds: seq<Cmd>, open: bool, line: seq<Response>, c: Cmd, b: nat)
    requires Occurs(cmds, c) <= b
    ensures Count(Attempts(cmds, open, line, 0, 0, 1).events, c) <= 3 * b
  {
    AttemptsCount(cmds, open, line, 0, 0, 1, c);
    var k := Occurs(cmds, c);
    assert Times(3, k) == k + k + k by {
      assert Times(1, k) == k + Times(0, k);
    }
  }

  /** A stage makes at most three attempts: at most six captures, three searches and three stores. */
  lemma StageBounded(s: State, line: seq<Response>)
    requires Inv(s) && s.etapaLector
    ensures var t := Stage(s, line).events;
            Count(t, GetImage) <= 6 && Count(t, SearchModel) <= 3 && Count(t, StoreModel(s.ubicacion)) <= 3
  {
    var t := Stage(s, line).events;
    if s.tarea == 1 {
      var cmds := EnrollCmds(s.ubicacion);
      assert Count(t, GetImage) <= 6 by {
        OccursEnroll(s.ubicacion, GetImage);
        ThreeAttempts(cmds, false, line, GetImage, 2);
      }
      assert Count(t, SearchModel) <= 3 by {
        OccursEnroll(s.ubicacion, SearchModel);
        ThreeAttempts(cmds, false, line, SearchModel, 1);
      }
      assert Count(t, StoreModel(s.ubicacion)) <= 3 by {
        OccursEnroll(s.ubicacion, StoreModel(s.ubicacion));
        ThreeAttempts(cmds, false, line, StoreModel(s.ubicacion), 1);
      }
    } else if s.tarea == 2 {
      forall c | c == GetImage || c == SearchModel || c == StoreModel(s.ubicacion)
        ensures Count(t, c) <= 3
      {
        OccursVerify(c);
        ThreeAttempts(VerifyCmds, true, line, c, 1);
      }
    } else {
      assert |t| == 1 && t[1..] == [];
    }
  }

  /** An opening attempt issues each command once. */
  lemma OccursVerify(c: Cmd)
    ensures Occurs(VerifyCmds, c) <= 1
  {
    OccursCons(SearchModel, [], c);
    assert [SearchModel] + [] == [SearchModel];
    OccursCons(ImageToTemplate(1), [SearchModel], c);
    OccursCons(GetImage, [ImageToTemplate(1), SearchModel], c);
    assert [GetImage] + ([ImageToTemplate(1)] + [SearchModel]) == VerifyCmds;
  }

  lemma OccursCons(x: Cmd, t: seq<Cmd>, c: Cmd)
    ensures Occurs([x] + t, c) == (if x == c then 1 else 0) + Occurs(t, c)
  {
    assert ([x] + t)[1..] == t;
  }

  /** An enrolment attempt captures twice and stores once. */
  lemma OccursEnroll(id: uint16, c: Cmd)
    ensures Occurs(EnrollCmds(id), c) <= (if c == GetImage then 2 else 1)
  {
    var t5: seq<Cmd> := [StoreModel(id)];
    var t4 := [CreateModel] + t5;
    var t3 := [ImageToTemplate(2)] + t4;
    var t2 := [GetImage] + t3;
    var t1 := [ImageToTemplate(1)] + t2;
    var t0 := [GetImage] + t1;
    OccursCons(StoreModel(id), [], c);
    assert [StoreModel(id)] + [] == t5;
    assert Occurs(t5, c) <= 1;
    OccursCons(CreateModel, t5, c);
    OccursCons(ImageToTemplate(2), t4, c);
    OccursCons(GetImage, t3, c);
    OccursCons(ImageToTemplate(1), t2, c);
    OccursCons(GetImage, t1, c);
    assert c != GetImage ==> Occurs(t4, c) <= 1 && Occurs(t0, c) <= 1;
    assert t0 == EnrollCmds(id);
  }

  // ---------------------------------------------------------------------
  // What the stage's traces guarantee
  // ---------------------------------------------------------------------

  lemma StoreGuardedAppend(a: seq<Event>, b: seq<Event>)
    requires StoreGuarded(a) && StoreGuarded(b)
    ensures StoreGuarded(a + b)
  {
    var t := a + b;
    forall i: nat | i < |t| ensures StoreAt(t, i) {
      if i < |a| {
        assert t[i] == a[i] && StoreAt(a, i);
        if IsStore(t[i]) { assert t[i - 5..i] == a[i - 5..i]; }
      } else {
        var k := i - |a|;
        assert t[i] == b[k] && StoreAt(b, k);
        if IsStore(t[i]) { assert t[i - 5..i] == b[k - 5..k]; }
      }
    }
  }

  lemma RelayGuardedAppend(a: seq<Event>, b: seq<Event>)
    requires RelayGuarded(a) && RelayGuarded(b)
    ensures RelayGuarded(a + b)
  {
    var t := a + b;
    forall i: nat | i < |t| ensures RelayAt(t, i) {
      if i < |a| {
        assert t[i] == a[i] && RelayAt(a, i);
        if t[i] == Relay(true) { assert t[i - 3..i + 2] == a[i - 3..i + 2]; }
      } else {
        var k := i - |a|;
        assert t[i] == b[k] && RelayAt(b, k);
        if t[i] == Relay(true) { assert t[i - 3..i + 2] == b[k - 3..k + 2]; }
      }
    }
  }

  lemma MatchOpensAppend(a: seq<Event>, b: seq<Event>)
    requires MatchOpens(a) && MatchOpens(b)
    ensures MatchOpens(a + b)
  {
    var t := a + b;
    forall i: nat | i < |t| ensures MatchAt(t, i) {
      if i < |a| {
        assert t[i] == a[i] && MatchAt(a, i);
        if t[i] == Call(SearchModel, 0) { assert t[i + 1] == a[i + 1]; }
      } else {
        var k := i - |a|;
        assert t[i] == b[k] && MatchAt(b, k);
        if t[i] == Call(SearchModel, 0) { assert t[i + 1] == b[k + 1]; }
      }
    }
  }

  lemma NoRelayAppend(a: seq<Event>, b: seq<Event>)
    requires NoRelay(a) && NoRelay(b)
    ensures NoRelay(a + b)
  {
  }

  /** One enrolment attempt stores only after the five calls before it all replied 0, and never touches the relay. */
  lemma EnrollAttemptGuarded(id: uint16, line: seq<Response>, n: nat)
    ensures var t := Chain(EnrollCmds(id), line, n).events;
            StoreGuarded(t) && RelayGuarded(t) && MatchOpens(t) && NoRelay(t)
  {
    var cmds := EnrollCmds(id);
    ChainShape(cmds, line, n);
    var t := Chain(cmds, line, n).events;
    forall i: nat | i < |t| ensures StoreAt(t, i) && RelayAt(t, i) && MatchAt(t, i) && t[i].Call? {
      assert t[i] == Call(cmds[i], Reply(line, n + i, cmds[i]));
      if IsStore(t[i]) {
        assert i == 5;
        forall j | 0 <= j < 5 ensures t[j] == EnrollPrefix[j] {
          assert t[j] == Call(cmds[j], Reply(line, n + j, cmds[j]));
        }
        assert t[0..5] == EnrollPrefix;
      }
    }
  }

  /** The relay pulse itself is guarded. */
  lemma PulseGuarded()
    ensures StoreGuarded(Pulse) && RelayGuarded(Pulse) && MatchOpens(Pulse)
  {
    forall i: nat | i < |Pulse| ensures StoreAt(Pulse, i) && RelayAt(Pulse, i) && MatchAt(Pulse, i) {
      if i == 3 { assert Pulse[0..5] == Pulse; }
    }
  }

  /** The events of one opening attempt: the chain, then the relay pulse if the chain completed. */
  function VerifyAttempt(line: seq<Response>, n: nat): seq<Event>
  {
    var run := Chain(VerifyCmds, line, n);
    run.events + if run.ok then [Relay(true), Relay(false)] else []
  }

  /** One opening attempt pulses the relay exactly when capture, conversion and search all replied 0. */
  lemma VerifyAttemptGuarded(line: seq<Response>, n: nat)
    ensures var t := VerifyAttempt(line, n);
            StoreGuarded(t) && RelayGuarded(t) && MatchOpens(t)
  {
    var run := Chain(VerifyCmds, line, n);
    var t := VerifyAttempt(line, n);
    if run.ok {
      assert |run.events| == 3;
      forall j | 0 <= j < 3 ensures t[j] == VerifyPrefix[j] {
        assert t[j] == Call(VerifyCmds[j], Reply(line, n + j, VerifyCmds[j]));
      }
      assert t == Pulse;
      PulseGuarded();
    } else {
      assert t == run.events;
      forall i: nat | i < |t| ensures StoreAt(t, i) && RelayAt(t, i) && MatchAt(t, i) {
        assert t[i] == Call(VerifyCmds[i], Reply(line, n + i, VerifyCmds[i]));
        if i == 2 {
          assert i == |t| - 1 && t[i].reply != 0;
        }
      }
    }
  }

  /** The events of the loop's first pass, when there is one. */
  function FirstPass(cmds: seq<Cmd>, open: bool, line: seq<Response>, n: nat): seq<Event>
  {
    var run := Chain(cmds, line, n);
    run.events + if open && run.ok then [Relay(true), Relay(false)] else []
  }

  /** The loop is its first pass followed, if that pass broke off, by the remaining passes. */
  lemma AttemptsUnfold(cmds: seq<Cmd>, open: bool, line: seq<Response>, n: nat, rep: uint8, mala: uint8)
    requires rep != 3
    ensures var run := Chain(cmds, line, n);
            Attempts(cmds, open, line, n, rep, mala).events ==
              FirstPass(cmds, open, line, n)
              + if run.ok then [] else Attempts(cmds, open, line, n + |run.events|, (rep + 1) % 0x100, mala).events
  {
    var run := Chain(cmds, line, n);
    var o := Attempts(cmds, open, line, n, rep, mala);
    if run.ok {
      assert o.events == FirstPass(cmds, open, line, n);
      assert o.events + [] == o.events;
    } else {
      var rest := Attempts(cmds, open, line, n + |run.events|, (rep + 1) % 0x100, mala);
      assert o.events == run.events + rest.events;
      assert FirstPass(cmds, open, line, n) == run.events + [] == run.events;
    }
  }

  /** The first pass of the loop is guarded, and for an enrolment it never touches the relay. */
  lemma FirstPassGuarded(cmds: seq<Cmd>, open: bool, line: seq<Response>, n: nat, id: uint16)
    requires cmds == if open then VerifyCmds else EnrollCmds(id)
    ensures var t := FirstPass(cmds, open, line, n);
            StoreGuarded(t) && RelayGuarded(t) && MatchOpens(t) && (!open ==> NoRelay(t))
  {
    if open {
      VerifyAttemptGuarded(line, n);
    } else {
      EnrollAttemptGuarded(id, line, n);
      assert FirstPass(cmds, open, line, n) == Chain(cmds, line, n).events;
    }
  }

  /* The retry loop keeps, over all its passes, each guarantee that holds of every single pass. */

  /** A broken pass followed by the remaining passes. */
  lemma StoreGuardedStep(cmds: seq<Cmd>, open: bool, line: seq<Response>, n: nat, rep: uint8, mala: uint8)
    requires rep != 3
    requires StoreGuarded(FirstPass(cmds, open, line, n))
    requires !Chain(cmds, line, n).ok ==>
               StoreGuarded(Attempts(cmds, open, line, n + |Chain(cmds, line, n).events|, (rep + 1) % 0x100, mala).events)
    ensures StoreGuarded(Attempts(cmds, open, line, n, rep, mala).events)
  {
    AttemptsUnfold(cmds, open, line, n, rep, mala);
    if !Chain(cmds, line, n).ok {
      StoreGuardedAppend(FirstPass(cmds, open, line, n),
        Attempts(cmds, open, line, n + |Chain(cmds, line, n).events|, (rep + 1) % 0x100, mala).events);
    }
  }

  lemma {:induction false} AttemptsStoreGuarded(cmds: seq<Cmd>, open: bool, line: seq<Response>, n: nat, rep: uint8, mala: uint8)
    requires forall m: nat :: StoreGuarded(FirstPass(cmds, open, line, m))
    ensures StoreGuarded(Attempts(cmds, open, line, n, rep, mala).events)
    decreases Remaining(rep)
  {
    if rep != 3 {
      var used := n + |Chain(cmds, line, n).events|;
      var next := (rep + 1) % 0x100;
      if !Chain(cmds, line, n).ok {
        RemainingStep(rep);
        AttemptsStoreGuarded(cmds, open, line, used, next, mala);
      }
      StoreGuardedStep(cmds, open, line, n, rep, mala);
    }
  }

  /** A broken pass followed by the remaining passes. */
  lemma RelayGuardedStep(cmds: seq<Cmd>, open: bool, line: seq<Response>, n: nat, rep: uint8, mala: uint8)
    requires rep != 3
    requires RelayGuarded(FirstPass(cmds, open, line, n))
    requires !Chain(cmds, line, n).ok ==>
               RelayGuarded(Attempts(cmds, open, line, n + |Chain(cmds, line, n).events|, (rep + 1) % 0x100, mala).events)
    ensures RelayGuarded(Attempts(cmds, open, line, n, rep, mala).events)
  {
    AttemptsUnfold(cmds, open, line, n, rep, mala);
    if !Chain(cmds, line, n).ok {
      RelayGuardedAppend(FirstPass(cmds, open, line, n),
        Attempts(cmds, open, line, n + |Chain(cmds, line, n).events|, (rep + 1) % 0x100, mala).events);
    }
  }

  lemma {:induction false} AttemptsRelayGuarded(cmds: seq<Cmd>, open: bool, line: seq<Response>, n: nat, rep: uint8, mala: uint8)
    requires forall m: nat :: RelayGuarded(FirstPass(cmds, open, line, m))
    ensures RelayGuarded(Attempts(cmds, open, line, n, rep, mala).events)
    decreases Remaining(rep)
  {
    if rep != 3 {
      var used := n + |Chain(cmds, line, n).events|;
      var next := (rep + 1) % 0x100;
      if !Chain(cmds, line, n).ok {
        RemainingStep(rep);
        AttemptsRelayGuarded(cmds, open, line, used, next, mala);
      }
      RelayGuardedStep(cmds, open, line, n, rep, mala);
    }
  }

  /** A broken pass followed by the remaining passes. */
  lemma MatchOpensStep(cmds: seq<Cmd>, open: bool, line: seq<Response>, n: nat, rep: uint8, mala: uint8)
    requires rep != 3
    requires MatchOpens(FirstPass(cmds, open, line, n))
    requires !Chain(cmds, line, n).ok ==>
               MatchOpens(Attempts(cmds, open, line, n + |Chain(cmds, line, n).events|, (rep + 1) % 0x100, mala).events)
    ensures MatchOpens(Attempts(cmds, open, line, n, rep, mala).events)
  {
    AttemptsUnfold(cmds, open, line, n, rep, mala);
    if !Chain(cmds, line, n).ok {
      MatchOpensAppend(FirstPass(cmds, open, line, n),
        Attempts(cmds, open, line, n + |Chain(cmds, line, n).events|, (rep + 1) % 0x100, mala).events);
    }
  }

  lemma {:induction false} AttemptsMatchOpens(cmds: seq<Cmd>, open: bool, line: seq<Response>, n: nat, rep: uint8, mala: uint8)
    requires forall m: nat :: MatchOpens(FirstPass(cmds, open, line, m))
    ensures MatchOpens(Attempts(cmds, open, line, n, rep, mala).events)
    decreases Remaining(rep)
  {
    if rep != 3 {
      var used := n + |Chain(cmds, line, n).events|;
      var next := (rep + 1) % 0x100;
      if !Chain(cmds, line, n).ok {
        RemainingStep(rep);
        AttemptsMatchOpens(cmds, open, line, used, next, mala);
      }
      MatchOpensStep(cmds, open, line, n, rep, mala);
    }
  }

  /** A broken pass followed by the remaining passes. */
  lemma NoRelayStep(cmds: seq<Cmd>, open: bool, line: seq<Response>, n: nat, rep: uint8, mala: uint8)
    requires rep != 3
    requires NoRelay(FirstPass(cmds, open, line, n))
    requires !Chain(cmds, line, n).ok ==>
               NoRelay(Attempts(cmds, open, line, n + |Chain(cmds, line, n).events|, (rep + 1) % 0x100, mala).events)
    ensures NoRelay(Attempts(cmds, open, line, n, rep, mala).events)
  {
    AttemptsUnfold(cmds, open, line, n, rep, mala);
    if !Chain(cmds, line, n).ok {
      NoRelayAppend(FirstPass(cmds, open, line, n),
        Attempts(cmds, open, line, n + |Chain(cmds, line, n).events|, (rep + 1) % 0x100, mala).events);
    }
  }

  lemma {:induction false} AttemptsNoRelay(cmds: seq<Cmd>, open: bool, line: seq<Response>, n: nat, rep: uint8, mala: uint8)
    requires forall m: nat :: NoRelay(FirstPass(cmds, open, line, m))
    ensures NoRelay(Attempts(cmds, open, line, n, rep, mala).events)
    decreases Remaining(rep)
  {
    if rep != 3 {
      var used := n + |Chain(cmds, line, n).events|;
      var next := (rep + 1) % 0x100;
      if !Chain(cmds, line, n).ok {
        RemainingStep(rep);
        AttemptsNoRelay(cmds, open, line, used, next, mala);
      }
      NoRelayStep(cmds, open, line, n, rep, mala);
    }
  }

  /** Every pass of an enrolment or opening loop is guarded, wherever in the exchanges it starts. */
  lemma EveryPassGuarded(cmds: seq<Cmd>, open: bool, line: seq<Response>, id: uint16)
    requires cmds == if open then VerifyCmds else EnrollCmds(id)
    ensures forall m: nat :: StoreGuarded(FirstPass(cmds, open, line, m))
    ensures forall m: nat :: RelayGuarded(FirstPass(cmds, open, line, m))
    ensures forall m: nat :: MatchOpens(FirstPass(cmds, open, line, m))
    ensures !open ==> forall m: nat :: NoRelay(FirstPass(cmds, open, line, m))
  {
    forall m: nat ensures var t := FirstPass(cmds, open, line, m);
                          StoreGuarded(t) && RelayGuarded(t) && MatchOpens(t) && (!open ==> NoRelay(t)) {
      FirstPassGuarded(cmds, open, line, m, id);
    }
  }

  /** The whole retry loop of an enrolment or an opening is guarded, and an enrolment never touches the relay. */
  lemma LoopGuarded(cmds: seq<Cmd>, open: bool, line: seq<Response>, id: uint16)
    requires cmds == if open then VerifyCmds else EnrollCmds(id)
    ensures var t := Attempts(cmds, open, line, 0, 0, 1).events;
            StoreGuarded(t) && RelayGuarded(t) && MatchOpens(t) && (!open ==> NoRelay(t))
  {
    EveryPassGuarded(cmds, open, line, id);
    AttemptsStoreGuarded(cmds, open, line, 0, 0, 1);
    AttemptsRelayGuarded(cmds, open, line, 0, 0, 1);
    AttemptsMatchOpens(cmds, open, line, 0, 0, 1);
    if !open {
      AttemptsNoRelay(cmds, open, line, 0, 0, 1);
    }
  }

  /**
   * In every stage a model is stored only after a complete enrolment
   * sequence, the relay is switched on exactly after a successful search
   * and straight off again, and only an opening that got past the
   * password touches the relay.
   */
  lemma StageGuarded(s: State, line: seq<Response>)
    requires Inv(s) && s.etapaLector
    ensures var t := Stage(s, line).events;
            StoreGuarded(t) && RelayGuarded(t) && MatchOpens(t)
            && (!NoRelay(t) ==> s.tarea == 2 && s.passwordAcept)
  {
    if s.tarea == 1 {
      LoopGuarded(EnrollCmds(s.ubicacion), false, line, s.ubicacion);
    } else if s.tarea == 2 {
      LoopGuarded(VerifyCmds, true, line, 0);
    } else {
      var t := Stage(s, line).events;
      assert |t| == 1 && t[0].Call? && !t[0].cmd.StoreModel? && t[0] != Call(SearchModel, 0);
      assert StoreAt(t, 0) && RelayAt(t, 0) && MatchAt(t, 0);
    }
  }

  /** A pass whose first command fails issues only that command. */
  lemma FailedPass(cmds: seq<Cmd>, open: bool, line: seq<Response>, n: nat, rep: uint8, mala: uint8)
    requires rep != 3 && cmds != [] && Reply(line, n, cmds[0]) != 0
    ensures Attempts(cmds, open, line, n, rep, mala).events ==
            [Call(cmds[0], Reply(line, n, cmds[0]))] + Attempts(cmds, open, line, n + 1, (rep + 1) % 0x100, mala).events
  {
    AttemptsUnfold(cmds, open, line, n, rep, mala);
  }

  /** A loop whose passes all start with a capture, three of which fail in a row, issues only those three captures. */
  lemma ThreeFailedCaptures(cmds: seq<Cmd>, open: bool, line: seq<Response>)
    requires cmds != [] && cmds[0] == GetImage
    requires Reply(line, 0, GetImage) != 0 && Reply(line, 1, GetImage) != 0 && Reply(line, 2, GetImage) != 0
    ensures Attempts(cmds, open, line, 0, 0, 1).events ==
      [Call(GetImage, Reply(line, 0, GetImage)), Call(GetImage, Reply(line, 1, GetImage)), Call(GetImage, Reply(line, 2, GetImage))]
  {
    FailedPass(cmds, open, line, 0, 0, 1);
    FailedPass(cmds, open, line, 1, 1, 1);
    FailedPass(cmds, open, line, 2, 2, 1);
    assert Attempts(cmds, open, line, 3, 3, 1).events == [];
  }

  /** With no finger on the glass every capture fails: three captures, nothing else, and the lockout message. */
  lemma NoFingerLocksOut(s: State, line: seq<Response>)
    requires Inv(s) && s.etapaLector && (s.tarea == 1 || s.tarea == 2)
    requires Reply(line, 0, GetImage) != 0 && Reply(line, 1, GetImage) != 0 && Reply(line, 2, GetImage) != 0
    ensures Stage(s, line).events ==
      [Call(GetImage, Reply(line, 0, GetImage)), Call(GetImage, Reply(line, 1, GetImage)), Call(GetImage, Reply(line, 2, GetImage))]
  {
    if s.tarea == 1 {
      ThreeFailedCaptures(EnrollCmds(s.ubicacion), false, line);
    } else {
      ThreeFailedCaptures(VerifyCmds, true, line);
    }
  }

  // ---------------------------------------------------------------------
  // Runs from power-up
  // ---------------------------------------------------------------------

  /** The state in which B, slot 1 and user 1's password 1,2,3,4 leave the safe after power-up. */
  function OpeningState(): State
  {
    Init().(inicio := false, opciones := false, tarea := 2, ubicacion := 1, hKey := 1,
            inPasswords := [4, 3, 2, 1], passwordAcept := true, etapaLector := true)
  }

  /** From power-up, B, slot 1 and user 1's password 1,2,3,4 start the fingerprint stage for opening. */
  lemma PowerUpToOpening()
    ensures KeyStep(KeyStep(KeyStep(KeyStep(KeyStep(KeyStep(Init(), 0x0B), 1), 1), 2), 3), 4) == OpeningState()
    ensures Inv(OpeningState())
  {
    var s1 := KeyStep(Init(), 0x0B);
    var s2 := KeyStep(s1, 1);
    assert s2 == Init().(inicio := false, opciones := false, tarea := 2, ubicacion := 1, hKey := 1) by {
      ModeSelection(Init(), 0x0B);
      SlotSelection(s1, 1);
    }
    PasswordAfterFourKeys(s2, 1, 2, 3, 4);
    assert VecPSWD[0..4] == [4, 3, 2, 1];
  }

  /** An opening whose capture, conversion and search reply 0 pulses the relay once and ends the stage. */
  lemma OpeningPulses(line: seq<Response>)
    requires Reply(line, 0, GetImage) == 0 && Reply(line, 1, ImageToTemplate(1)) == 0 && Reply(line, 2, SearchModel) == 0
    ensures Attempts(VerifyCmds, true, line, 0, 0, 1).events == Pulse
  {
    var run := Chain(VerifyCmds, line, 0);
    assert run.ok;
    forall j | 0 <= j < 3 ensures run.events[j] == VerifyPrefix[j] {
    }
    assert run.events == VerifyPrefix;
    AttemptsUnfold(VerifyCmds, true, line, 0, 0, 1);
  }

  /**
   * The stage those keys start: if capture, conversion and search reply 0
   * the relay pulses once, and the safe returns to mode selection with
   * `PasswordAcept` still set.
   */
  lemma OpeningStage(line: seq<Response>)
    requires Reply(line, 0, GetImage) == 0 && Reply(line, 1, ImageToTemplate(1)) == 0 && Reply(line, 2, SearchModel) == 0
    ensures Stage(OpeningState(), line).events == Pulse
    ensures Stage(OpeningState(), line).after == Init().(passwordAcept := true, hKey := 1, inPasswords := [4, 3, 2, 1])
  {
    OpeningPulses(line);
  }

  /**
   * The next opening after that can never finish: B and a slot key leave
   * the safe in a state that no key changes and that never starts the
   * fingerprint stage.
   */
  lemma SecondOpeningSticks(s: State, slot: uint8)
    requires s == Init().(passwordAcept := true, hKey := 1, inPasswords := [4, 3, 2, 1])
    requires 1 <= slot <= 8
    ensures var u := KeyStep(KeyStep(s, 0x0B), slot);
            Inv(u) && !u.etapaLector && !u.inicio
            && forall keyd: uint8 :: KeyStep(u, keyd) == u
  {
    var s1 := KeyStep(s, 0x0B);
    ModeSelection(s, 0x0B);
    SlotSelection(s1, slot);
    var u := KeyStep(s1, slot);
    forall keyd: uint8 ensures KeyStep(u, keyd) == u {
      StuckAfterAcceptance(u, keyd);
    }
  }

  /**
   * D wipes the database at once; after the stage an invalid key (two keys
   * at once, say) is read as the last valid key, D, and starts a second wipe.
   */
  lemma WipeRepeatsOnInvalidKey(line: seq<Response>)
    ensures var s := KeyStep(Init(), 0x0D);
            var r := Stage(s, line);
            Inv(s) && s.etapaLector && s.tarea == 4
            && r.events == [Call(EmptyDatabase, Reply(line, 0, EmptyDatabase))]
            && r.after == Init().(hKey := 0x0D)
            && KeyStep(r.after, Invalid) == s
  {
    ModeSelection(Init(), 0x0D);
    var s := KeyStep(Init(), 0x0D);
    StageInv(s, line);
    InvalidKeyRepeatsLast(Stage(s, line).after);
    ModeSelection(Stage(s, line).after, 0x0D);
  }

  // ---------------------------------------------------------------------
  // What the retry loop consumes and reports
  // ---------------------------------------------------------------------

  /** The first `k` commands of a chain starting at exchange `n` all reply 0. */
  predicate RepliedZero(cmds: seq<Cmd>, line: seq<Response>, n: nat, k: nat)
    requires k <= |cmds|
  {
    forall j :: 0 <= j < k ==> Reply(line, n + j, cmds[j]) == 0
  }

  /** A chain whose first `k` commands all replied 0 goes on to issue command `k`. */
  lemma {:induction false} ChainReaches(cmds: seq<Cmd>, line: seq<Response>, n: nat, k: nat)
    requires k < |cmds| && RepliedZero(cmds, line, n, k)
    ensures k < |Chain(cmds, line, n).events|
    decreases k
  {
    if k > 0 {
      assert Reply(line, n, cmds[0]) == 0;
      forall j | 0 <= j < k - 1
        ensures Reply(line, n + 1 + j, cmds[1..][j]) == 0
      {
        assert cmds[1..][j] == cmds[j + 1];
      }
      ChainReaches(cmds[1..], line, n + 1, k - 1);
    }
  }

  /** A chain that reaches a command which does not reply 0 stops right there, incomplete. */
  lemma ChainStopsAt(cmds: seq<Cmd>, line: seq<Response>, n: nat, k: nat)
    requires k < |Chain(cmds, line, n).events|
    requires Reply(line, n + k, cmds[k]) != 0
    ensures |Chain(cmds, line, n).events| == k + 1 && !Chain(cmds, line, n).ok
  {
    ChainShape(cmds, line, n);
    var t := Chain(cmds, line, n).events;
    assert t[k].reply != 0;
  }

  /** A chain that reaches its last command completes exactly when that command replies 0. */
  lemma ChainEndsAt(cmds: seq<Cmd>, line: seq<Response>, n: nat)
    requires cmds != [] && |cmds| - 1 < |Chain(cmds, line, n).events|
    ensures Chain(cmds, line, n).ok <==> Reply(line, n + |cmds| - 1, cmds[|cmds| - 1]) == 0
  {
    ChainShape(cmds, line, n);
    var t := Chain(cmds, line, n).events;
    var last := |cmds| - 1;
    if Reply(line, n + last, cmds[last]) == 0 {
      forall j | 0 <= j < |cmds|
        ensures Reply(line, n + j, cmds[j]) == 0
      {
        assert t[j].reply == Reply(line, n + j, cmds[j]);
      }
    }
  }

  /** When the last command occurs only at the end of the list, the chain completed exactly when that command replied 0. */
  lemma ChainCompletes(cmds: seq<Cmd>, line: seq<Response>, n: nat)
    requires cmds != [] && cmds[|cmds| - 1] !in cmds[..|cmds| - 1]
    ensures var r := Chain(cmds, line, n);
            r.ok <==> Call(cmds[|cmds| - 1], 0) in r.events
  {
    ChainShape(cmds, line, n);
    var r := Chain(cmds, line, n);
    var last := |cmds| - 1;
    if Call(cmds[last], 0) in r.events {
      var i :| 0 <= i < |r.events| && r.events[i] == Call(cmds[last], 0);
      assert i == last && |r.events| == |cmds|;
      forall j | 0 <= j < |cmds|
        ensures Reply(line, n + j, cmds[j]) == 0
      {
        assert r.events[j].reply == Reply(line, n + j, cmds[j]);
      }
    }
    if r.ok {
      assert r.events[last] == Call(cmds[last], 0);
    }
  }

  /**
   * The loop ends with `mala == 0` exactly when a pass completed: for a
   * command list whose last command occurs only at its end, when the trace
   * holds that command replying 0.
   */
  lemma {:induction false} AttemptsMala(cmds: seq<Cmd>, open: bool, line: seq<Response>, n: nat, rep: uint8, mala: uint8)
    requires cmds != [] && cmds[|cmds| - 1] !in cmds[..|cmds| - 1]
    requires mala != 0
    ensures var o := Attempts(cmds, open, line, n, rep, mala);
            o.mala == 0 <==> Call(cmds[|cmds| - 1], 0) in o.events
    decreases Remaining(rep)
  {
    if rep != 3 {
      var run := Chain(cmds, line, n);
      ChainCompletes(cmds, line, n);
      var relays: seq<Event> := if open then [Relay(true), Relay(false)] else [];
      if run.ok {
        assert Attempts(cmds, open, line, n, rep, mala).events == run.events + relays;
      } else {
        var next := (rep + 1) % 0x100;
        RemainingStep(rep);
        AttemptsMala(cmds, open, line, n + |run.events|, next, mala);
        var rest := Attempts(cmds, open, line, n + |run.events|, next, mala);
        assert Attempts(cmds, open, line, n, rep, mala).events == run.events + rest.events;
      }
    }
  }

  /**
   * At the end of an enrolment loop `mala` is 0 exactly when a store
   * replied 0, and at the end of an opening loop exactly when a search did.
   */
  lemma LoopMala(cmds: seq<Cmd>, open: bool, line: seq<Response>, id: uint16)
    requires cmds == if open then VerifyCmds else EnrollCmds(id)
    ensures var o := Attempts(cmds, open, line, 0, 0, 1);
            o.mala == 0 <==> Call(if open then SearchModel else StoreModel(id), 0) in o.events
  {
    assert cmds[|cmds| - 1] == if open then SearchModel else StoreModel(id);
    AttemptsMala(cmds, open, line, 0, 0, 1);
  }

  /** Every pass issues at most `|cmds|` commands, so the loop takes at most `Remaining(rep)` times that many exchanges. */
  lemma {:induction false} AttemptsUsed(cmds: seq<Cmd>, open: bool, line: seq<Response>, n: nat, rep: uint8, mala: uint8)
    ensures Attempts(cmds, open, line, n, rep, mala).used <= n + Times(Remaining(rep), |cmds|)
    decreases Remaining(rep)
  {
    if rep != 3 {
      var run := Chain(cmds, line, n);
      var next := (rep + 1) % 0x100;
      RemainingStep(rep);
      assert Times(Remaining(rep), |cmds|) == |cmds| + Times(Remaining(next), |cmds|);
      if !run.ok {
        AttemptsUsed(cmds, open, line, n + |run.events|, next, mala);
      }
    }
  }

  /** A stage's retry loop takes at most three exchanges per command of one attempt. */
  lemma ThreePasses(cmds: seq<Cmd>, open: bool, line: seq<Response>)
    ensures Attempts(cmds, open, line, 0, 0, 1).used <= 3 * |cmds|
  {
    AttemptsUsed(cmds, open, line, 0, 0, 1);
    var k := |cmds|;
    assert Times(3, k) == k + k + k by {
      assert Times(1, k) == k + Times(0, k);
    }
  }
}
