/**
 * The pure keypad helpers of main.c: decoding a captured row/column mask
 * into a key code, the look-up searches over the mode, slot and password
 * tables, and the password shift register's update.
 */
module Keypad {
  import opened Common

  /** The code keyDecode gives a mask that is not a key. */
  const Invalid: uint8 := 0xFF

  /** `vecIDs`: the mode keys A, B, C and D. */
  const VecIDs: seq<uint8> := [0x0A, 0x0B, 0x0C, 0x0D]

  /** `IDlector[10]`: nine slots initialised, the tenth left 0. */
  const IDlector: seq<uint8> := [0x01, 0x02, 0x03, 0x04, 0x05, 0x06, 0x07, 0x08, 0x09, 0x00]

  /** `vecPSWD`: four key codes per user, most recent key first, users 1 to 9. */
  const VecPSWD: seq<uint8> := [
    0x4, 0x3, 0x2, 0x1,
    0x1, 0x2, 0x3, 0x4,
    0x0, 0x0, 0x0, 0x0,
    0x1, 0x1, 0x1, 0x1,
    0x2, 0x2, 0x2, 0x2,
    0x3, 0x3, 0x3, 0x3,
    0x4, 0x4, 0x4, 0x4,
    0x5, 0x5, 0x5, 0x5,
    0x6, 0x6, 0x6, 0x6
  ]

  // ---------------------------------------------------------------------
  // keyDecode
  // ---------------------------------------------------------------------

  /**
   * keyDecode: GPIO bits 10..17 of a capture, shifted down, so the row lines
   * (10..13) are the low nibble and the column lines (14..17) the high one.
   */
  function KeyDecode(keyc: int): (keyd: uint8)
    ensures keyd == Invalid || keyd < 0x10
  {
    match keyc
    case 0x88 => 0x01
    case 0x48 => 0x02
    case 0x28 => 0x03
    case 0x18 => 0x0A
    case 0x84 => 0x04
    case 0x44 => 0x05
    case 0x24 => 0x06
    case 0x14 => 0x0B
    case 0x82 => 0x07
    case 0x42 => 0x08
    case 0x22 => 0x09
    case 0x12 => 0x0C
    case 0x81 => 0x0E
    case 0x41 => 0x00
    case 0x21 => 0x0F
    case 0x11 => 0x0D
    case _ => Invalid
  }

  /** The mask of the key with code `k`: the inverse of the decode table. */
  function KeyMask(k: uint8): int
    requires k < 0x10
  {
    match k
    case 0x01 => 0x88
    case 0x02 => 0x48
    case 0x03 => 0x28
    case 0x0A => 0x18
    case 0x04 => 0x84
    case 0x05 => 0x44
    case 0x06 => 0x24
    case 0x0B => 0x14
    case 0x07 => 0x82
    case 0x08 => 0x42
    case 0x09 => 0x22
    case 0x0C => 0x12
    case 0x0E => 0x81
    case 0x00 => 0x41
    case 0x0F => 0x21
    case 0x0D => 0x11
  }

  /** A nibble with exactly one bit set. */
  predicate OneHot(n: int)
  {
    n == 1 || n == 2 || n == 4 || n == 8
  }

  /** Every key code 0..15 has a mask, and decoding that mask gives the code back. */
  lemma DecodeKeyMask(k: uint8)
    requires k < 0x10
    ensures KeyDecode(KeyMask(k)) == k
  {
  }

  /** Every mask that decodes is the mask of the code it decodes to. */
  lemma KeyMaskOfDecode(m: int)
    requires KeyDecode(m) != Invalid
    ensures KeyMask(KeyDecode(m)) == m
  {
  }

  /** No two masks decode to the same key. */
  lemma {:induction false} KeyDecodeInjective(m1: int, m2: int)
    requires KeyDecode(m1) != Invalid && KeyDecode(m1) == KeyDecode(m2)
    ensures m1 == m2
  {
    KeyMaskOfDecode(m1);
    KeyMaskOfDecode(m2);
  }

  /**
   * A mask decodes exactly when it is one byte with one bit in the column
   * nibble and one bit in the row nibble; the 16 such masks are the keys.
   */
  lemma {:induction false} KeyDecodeValid(m: int)
    ensures KeyDecode(m) != Invalid <==> 0 <= m < 0x100 && OneHot(m / 0x10) && OneHot(m % 0x10)
  {
    if 0 <= m < 0x100 && OneHot(m / 0x10) && OneHot(m % 0x10) {
      var col, row := m / 0x10, m % 0x10;
      assert m == 0x10 * col + row;
    }
  }

  // ---------------------------------------------------------------------
  // Table searches
  // ---------------------------------------------------------------------

  /** The first index in `[i, bound)` at which `t` holds `key`, or -1. */
  function Find(t: seq<uint8>, key: uint8, i: nat, bound: nat): (r: int)
    requires i <= bound <= |t|
    ensures r == -1 || i <= r < bound
    ensures r == -1 <==> forall k :: i <= k < bound ==> t[k] != key
    ensures r != -1 ==> t[r] == key && forall k :: i <= k < r ==> t[k] != key
    decreases bound - i
  {
    if i == bound then -1
    else if t[i] == key then i
    else Find(t, key, i + 1, bound)
  }

  /** checkID: the index of `id` among the first four entries, or -1. */
  function CheckID(vecID: seq<uint8>, id: uint8): (r: int)
    requires |vecID| >= 4
    ensures -1 <= r < 4
  {
    Find(vecID, id, 0, 4)
  }

  /** checkID finds the first of the four entries holding `id`, and gives -1 exactly when none does. */
  lemma CheckIDFinds(vecID: seq<uint8>, id: uint8)
    requires |vecID| >= 4
    ensures var r := CheckID(vecID, id);
            (r >= 0 ==> vecID[r] == id && forall k :: 0 <= k < r ==> vecID[k] != id)
            && (r == -1 <==> forall k :: 0 <= k < 4 ==> vecID[k] != id)
  {
    assert CheckID(vecID, id) == Find(vecID, id, 0, 4);
  }

  /** checkIDlector: one more than the index of `id` among the first EIGHT entries, or -1. */
  function CheckIDlector(ids: seq<uint8>, id: uint8): (r: int)
    requires |ids| >= 8
    ensures r == -1 || 1 <= r <= 8
  {
    var k := Find(ids, id, 0, 8);
    if k == -1 then -1 else k + 1
  }

  /** checkIDlector gives one more than the first of the eight entries holding `id`, and -1 exactly when none does. */
  lemma CheckIDlectorFinds(ids: seq<uint8>, id: uint8)
    requires |ids| >= 8
    ensures var r := CheckIDlector(ids, id);
            (r >= 1 ==> ids[r - 1] == id && forall k :: 0 <= k < r - 1 ==> ids[k] != id)
            && (r == -1 <==> forall k :: 0 <= k < 8 ==> ids[k] != id)
  {
    var k := Find(ids, id, 0, 8);
    assert CheckIDlector(ids, id) == if k == -1 then -1 else k + 1;
  }

  /** Whether `v[base + k] == p[k]` for every k in `[j, 4)`, stopping at the first difference. */
  function RowMatches(v: seq<uint8>, p: seq<uint8>, base: nat, j: nat): (b: bool)
    requires base + 4 <= |v| && |p| >= 4 && j <= 4
    ensures b <==> forall k :: j <= k < 4 ==> v[base + k] == p[k]
    decreases 4 - j
  {
    j == 4 || (v[base + j] == p[j] && RowMatches(v, p, base, j + 1))
  }

  /** checkPSW2: `i` when row `i` of the table equals the entered password, else -1. */
  function CheckPsw2(v: seq<uint8>, p: seq<uint8>, i: uint8): (r: int)
    requires 4 * i + 4 <= |v| && |p| >= 4
    ensures r == i || r == -1
  {
    if RowMatches(v, p, 4 * i, 0) then i else -1
  }

  /** checkPSW2 accepts exactly when row `i` of the table equals the entered password, key by key. */
  lemma CheckPsw2Row(v: seq<uint8>, p: seq<uint8>, i: uint8)
    requires 4 * i + 4 <= |v| && |p| >= 4
    ensures CheckPsw2(v, p, i) == i <==> forall j :: 0 <= j < 4 ==> v[4 * i + j] == p[j]
  {
    assert CheckPsw2(v, p, i) == i <==> RowMatches(v, p, 4 * i, 0);
  }

  /** The password register after insertPswd: the new key in front, the oldest dropped. */
  function ShiftIn(p: seq<uint8>, key: uint8): (q: seq<uint8>)
    requires |p| == 4
    ensures |q| == 4
  {
    [key] + p[..3]
  }

  // ---------------------------------------------------------------------
  // Consequences for the given tables
  // ---------------------------------------------------------------------

  /** The mode keys A, B, C, D select entries 0..3; every other code is refused. */
  lemma ModeTable(k: uint8)
    ensures CheckID(VecIDs, k) == if 0x0A <= k <= 0x0D then k - 0x0A else -1
  {
    CheckIDFinds(VecIDs, k);
  }

  /** Only slots 1..8 are accepted: the search stops before the ninth entry, so key 9 is refused. */
  lemma {:induction false} SlotTable(k: uint8)
    ensures CheckIDlector(IDlector, k) == if 1 <= k <= 8 then k else -1
  {
    CheckIDlectorFinds(IDlector, k);
    if 1 <= k <= 8 {
      assert IDlector[k - 1] == k;
    } else {
      assert forall j :: 0 <= j < 8 ==> IDlector[j] == j + 1;
    }
  }

  /** Four keys typed in a row leave the register holding them newest first, whatever it held before. */
  lemma {:induction false} TypingFourKeys(p: seq<uint8>, k1: uint8, k2: uint8, k3: uint8, k4: uint8)
    requires |p| == 4
    ensures ShiftIn(ShiftIn(ShiftIn(ShiftIn(p, k1), k2), k3), k4) == [k4, k3, k2, k1]
  {
    var q1 := ShiftIn(p, k1);
    var q2 := ShiftIn(q1, k2);
    var q3 := ShiftIn(q2, k3);
    assert q1[0] == k1;
    assert q2[..2] == [k2, k1];
    assert q3[..3] == [k3, k2, k1];
  }

  /** User 1's stored row 4,3,2,1 accepts the typed keys 1,2,3,4 and no other four keys. */
  lemma {:induction false} User1Password(p: seq<uint8>, k1: uint8, k2: uint8, k3: uint8, k4: uint8)
    requires |p| == 4
    ensures CheckPsw2(VecPSWD, ShiftIn(ShiftIn(ShiftIn(ShiftIn(p, k1), k2), k3), k4), 0) == 0
            <==> [k1, k2, k3, k4] == [1, 2, 3, 4]
  {
    TypingFourKeys(p, k1, k2, k3, k4);
    var q := [k4, k3, k2, k1];
    CheckPsw2Row(VecPSWD, q, 0);
    User1Row();
    assert (forall j :: 0 <= j < 4 ==> VecPSWD[j] == q[j]) <==> k4 == 4 && k3 == 3 && k2 == 2 && k1 == 1;
  }

  /** User 1's row of the password table. */
  lemma User1Row()
    ensures VecPSWD[0] == 4 && VecPSWD[1] == 3 && VecPSWD[2] == 2 && VecPSWD[3] == 1
  {
  }
}
