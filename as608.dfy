/**
 * The AS608 driver of as608.c: the bounded polling read of a response,
 * the transmit of a command, and the operations that chain them.
 *
 * The UART and the clock are replaced by a finite poll script: entry k
 * says whether a byte was readable on the k-th pass of the read loop,
 * which byte it was, and the clock reading (in ms) at which that pass
 * would test the deadline. Transmitting a command appends its bytes to a
 * log of everything sent.
 */
module As608 {
  import opened Common
  import opened Frames

  /** `TIMEOUT_MS`: the read gives up 10 s after it started. */
  const TimeoutMs: int := 10000

  /** One pass of the read loop: `uart_is_readable`, the byte `uart_getc` gives, and the clock. */
  datatype Poll = Poll(readable: bool, data: uint8, now: int)

  /** What a read comes to: all bytes arrived, the deadline struck, or the script ran out first. */
  datatype Reception = Received(bytes: seq<uint8>) | TimedOut | Pending

  /**
   * The outcome of the read loop started with `got` already in the buffer:
   * it stops once `len` bytes are in; a readable pass takes one byte, even
   * after the deadline; a pass with nothing readable gives up if the
   * deadline has been reached and otherwise polls again.
   */
  function Receive(polls: seq<Poll>, len: nat, deadline: int, got: seq<uint8>): (o: Reception)
    requires |got| <= len
    ensures o.Received? ==> |o.bytes| == len && o.bytes[..|got|] == got
    decreases |polls|
  {
    if |got| == len then Received(got)
    else if polls == [] then Pending
    else if polls[0].readable then Receive(polls[1..], len, deadline, got + [polls[0].data])
    else if deadline <= polls[0].now then TimedOut
    else Receive(polls[1..], len, deadline, got)
  }

  /** The bytes that arrive during the script, in arrival order. */
  function Arrived(polls: seq<Poll>): seq<uint8>
  {
    if polls == [] then []
    else (if polls[0].readable then [polls[0].data] else []) + Arrived(polls[1..])
  }

  /**
   * The value `as608_read_response` returns: the confirmation byte (index 9)
   * of a complete response, or `-1` converted to `uint8_t` on timeout.
   */
  function Confirmation(o: Reception): uint8
    requires o.Received? ==> |o.bytes| >= 10
  {
    if o.Received? then o.bytes[9] else (-1) % 0x100
  }

  /** The value `index` holds once a read of `len` bytes has ended: `len` when it completed, 0 after a timeout. */
  function IndexAfter(o: Reception, len: nat): nat
  {
    if o.Received? then len else 0
  }

  /** One command's turn on the line: the clock when the read starts, and what the read loop then sees. */
  datatype Exchange = Exchange(start: int, polls: seq<Poll>)

  /** The exchange decides a read of either response length (12 or 16 bytes) before its script runs out. */
  predicate Settled(x: Exchange)
  {
    Receive(x.polls, 12, x.start + TimeoutMs, []) != Pending
    && Receive(x.polls, 16, x.start + TimeoutMs, []) != Pending
  }

  /** The value an operation expecting a `len`-byte response returns on exchange `x`. */
  function Answer(x: Exchange, len: nat): uint8
    requires 10 <= len
  {
    Confirmation(Receive(x.polls, len, x.start + TimeoutMs, []))
  }

  // ---------------------------------------------------------------------
  // What the read loop promises
  // ---------------------------------------------------------------------

  /** A complete response holds the bytes in the order they arrived. */
  lemma {:induction false} ReceivedInArrivalOrder(polls: seq<Poll>, len: nat, deadline: int, got: seq<uint8>)
    requires |got| <= len
    requires Receive(polls, len, deadline, got).Received?
    ensures |got + Arrived(polls)| >= len
    ensures Receive(polls, len, deadline, got).bytes == (got + Arrived(polls))[..len]
  {
    if |got| < len {
      var p := polls[0];
      var rest := polls[1..];
      assert Arrived(polls) == (if p.readable then [p.data] else []) + Arrived(rest);
      if p.readable {
        ReceivedInArrivalOrder(rest, len, deadline, got + [p.data]);
        assert got + Arrived(polls) == got + [p.data] + Arrived(rest);
      } else {
        ReceivedInArrivalOrder(rest, len, deadline, got);
      }
    }
  }

  /**
   * A timeout happens only on a pass where nothing was readable, the clock
   * had reached the deadline, and fewer than `len` bytes had come in.
   */
  lemma {:induction false} TimeoutNeedsIdleLatePass(polls: seq<Poll>, len: nat, deadline: int, got: seq<uint8>)
    requires |got| <= len
    requires Receive(polls, len, deadline, got) == TimedOut
    ensures exists k :: 0 <= k < |polls| && !polls[k].readable && deadline <= polls[k].now
                        && |got| + |Arrived(polls[..k])| < len
  {
    var p := polls[0];
    var rest := polls[1..];
    if !p.readable && deadline <= p.now {
      assert polls[..0] == [];
    } else {
      var got' := if p.readable then got + [p.data] else got;
      TimeoutNeedsIdleLatePass(rest, len, deadline, got');
      var k :| 0 <= k < |rest| && !rest[k].readable && deadline <= rest[k].now
               && |got'| + |Arrived(rest[..k])| < len;
      assert polls[..k + 1][1..] == rest[..k];
      assert Arrived(polls[..k + 1]) == (if p.readable then [p.data] else []) + Arrived(rest[..k]);
      assert polls[k + 1] == rest[k];
    }
  }

  /** Bytes keep being accepted after the deadline: a script of readable passes always completes. */
  lemma {:induction false} LateBytesAccepted(polls: seq<Poll>, len: nat, deadline: int, got: seq<uint8>)
    requires |got| <= len
    requires |got| + |polls| >= len
    requires forall k :: 0 <= k < |polls| ==> polls[k].readable
    ensures Receive(polls, len, deadline, got).Received?
  {
    if |got| < len {
      LateBytesAccepted(polls[1..], len, deadline, got + [polls[0].data]);
    }
  }

  /** A line on which nothing ever arrives times out at the first pass past the deadline. */
  lemma {:induction false} SilentLineTimesOut(polls: seq<Poll>, len: nat, deadline: int, got: seq<uint8>)
    requires |got| < len
    requires forall k :: 0 <= k < |polls| ==> !polls[k].readable
    requires exists k :: 0 <= k < |polls| && deadline <= polls[k].now
    ensures Receive(polls, len, deadline, got) == TimedOut
  {
    if polls[0].now < deadline {
      var k :| 0 <= k < |polls| && deadline <= polls[k].now;
      assert polls[1..][k - 1] == polls[k];
      SilentLineTimesOut(polls[1..], len, deadline, got);
    }
  }

  /** A 0 result means the whole response arrived and its confirmation byte was 0; a timeout never reads as success. */
  lemma ZeroMeansConfirmed(o: Reception)
    requires o.Received? ==> |o.bytes| >= 10
    ensures Confirmation(o) == 0 ==> o.Received? && o.bytes[9] == 0
    ensures o.TimedOut? ==> Confirmation(o) == 0xFF
  {
  }

  // ---------------------------------------------------------------------
  // The driver
  // ---------------------------------------------------------------------

  /** The accumulator loop that sums `cmd[from..to)` into a `uint16_t`. */
  method Checksum(cmd: array<uint8>, from: nat, to: nat) returns (checksum: uint16)
    requires from <= to <= cmd.Length
    ensures checksum == Sum16(cmd[from..to])
  {
    checksum := 0;
    for i := from to to
      invariant checksum == Sum16(cmd[from..i])
    {
      assert cmd[from..i + 1] == cmd[from..i] + [cmd[i]];
      Sum16Snoc(cmd[from..i], cmd[i]);
      checksum := (checksum + cmd[i]) % 0x1_0000;
    }
  }

  /** The state as608.c keeps between calls: the receive index, and the commands sent so far. */
  class Sensor {
    /** `volatile int index`, the number of response bytes received. */
    var index: int
    /** Every command written to the UART, oldest first. */
    var sent: seq<seq<uint8>>

    constructor ()
      ensures index == 0 && sent == []
    {
      index := 0;
      sent := [];
    }

    /** as608_send_command: writes the command bytes to the UART, in order. */
    method SendCommand(command: array<uint8>)
      modifies this`sent
      ensures sent == old(sent) + [command[..]]
    {
      sent := sent + [command[..]];
    }

    /**
     * as608_read_response: fills `response[0..len)` from the line and returns
     * the confirmation byte `response[9]`, or 0xFF once a pass finds nothing
     * to read after the deadline `start + TimeoutMs`.
     */
    method ReadResponse(response: array<uint8>, len: nat, polls: seq<Poll>, start: int) returns (r: uint8)
      requires 10 <= len <= response.Length
      requires Receive(polls, len, start + TimeoutMs, []) != Pending
      modifies this`index, response
      ensures var o := Receive(polls, len, start + TimeoutMs, []);
              r == Confirmation(o)
              && (o.Received? ==> index == len && response[..len] == o.bytes)
              && (o.TimedOut? ==> index == 0)
      ensures response[len..] == old(response[len..])
    {
      var deadline := start + TimeoutMs;
      index := 0;
      var k := 0;
      while index < len
        invariant 0 <= index <= len && 0 <= k <= |polls|
        invariant Receive(polls[k..], len, deadline, response[..index]) == Receive(polls, len, deadline, [])
        invariant index < len ==> k < |polls|
        invariant response[len..] == old(response[len..])
        decreases |polls| - k
      {
        if polls[k].readable {
          response[index] := polls[k].data;
          assert response[..index + 1] == response[..index] + [polls[k].data];
          index := index + 1;
        } else if deadline <= polls[k].now {
          index := 0;
          r := (-1) % 0x100;
          return;
        }
        assert polls[k..][1..] == polls[k + 1..];
        k := k + 1;
      }
      r := response[9];
    }

    /** as608_get_image */
    method GetImage(polls: seq<Poll>, start: int) returns (r: uint8)
      requires Receive(polls, 12, start + TimeoutMs, []) != Pending
      modifies this
      ensures sent == old(sent) + [GetImageFrame()]
      ensures r == Confirmation(Receive(polls, 12, start + TimeoutMs, []))
      ensures index == IndexAfter(Receive(polls, 12, start + TimeoutMs, []), 12)
    {
      var cmd := new uint8[12] [0xEF, 0x01, 0xFF, 0xFF, 0xFF, 0xFF, 0x01, 0x00, 0x03, 0x01, 0x00, 0x05];
      assert cmd[..] == GetImageFrame();
      var response := new uint8[12];
      SendCommand(cmd);
      r := ReadResponse(response, 12, polls, start);
    }

    /** as608_image_to_template */
    method ImageToTemplate(slot: uint8, polls: seq<Poll>, start: int) returns (r: uint8)
      requires Receive(polls, 12, start + TimeoutMs, []) != Pending
      modifies this
      ensures sent == old(sent) + [ImageToTemplateFrame(slot)]
      ensures r == Confirmation(Receive(polls, 12, start + TimeoutMs, []))
      ensures index == IndexAfter(Receive(polls, 12, start + TimeoutMs, []), 12)
    {
      var cmd := new uint8[13] [0xEF, 0x01, 0xFF, 0xFF, 0xFF, 0xFF, 0x01, 0x00, 0x04, 0x02, slot, 0x00, (0x07 + slot) % 0x100];
      assert cmd[..] == ImageToTemplateFrame(slot);
      var response := new uint8[12];
      SendCommand(cmd);
      r := ReadResponse(response, 12, polls, start);
    }

    /** as608_create_model */
    method CreateModel(polls: seq<Poll>, start: int) returns (r: uint8)
      requires Receive(polls, 12, start + TimeoutMs, []) != Pending
      modifies this
      ensures sent == old(sent) + [CreateModelFrame()]
      ensures r == Confirmation(Receive(polls, 12, start + TimeoutMs, []))
      ensures index == IndexAfter(Receive(polls, 12, start + TimeoutMs, []), 12)
    {
      var cmd := new uint8[12] [0xEF, 0x01, 0xFF, 0xFF, 0xFF, 0xFF, 0x01, 0x00, 0x03, 0x05, 0x00, 0x09];
      assert cmd[..] == CreateModelFrame();
      var response := new uint8[12];
      SendCommand(cmd);
      r := ReadResponse(response, 12, polls, start);
    }

    /** as608_store_model */
    method StoreModel(id: uint16, polls: seq<Poll>, start: int) returns (r: uint8)
      requires Receive(polls, 12, start + TimeoutMs, []) != Pending
      modifies this
      ensures sent == old(sent) + [StoreModelFrame(id)]
      ensures r == Confirmation(Receive(polls, 12, start + TimeoutMs, []))
      ensures index == IndexAfter(Receive(polls, 12, start + TimeoutMs, []), 12)
    {
      var cmd := StoreModelCommand(id);
      var response := new uint8[12];
      SendCommand(cmd);
      r := ReadResponse(response, 12, polls, start);
    }

    /** The command array as608_store_model fills in: the id's two bytes, then the checksum over bytes 6..12. */
    static method StoreModelCommand(id: uint16) returns (cmd: array<uint8>)
      ensures fresh(cmd) && cmd[..] == StoreModelFrame(id)
    {
      var idHigh: uint8 := (id / 0x100) % 0x100;
      var idLow: uint8 := id % 0x100;
      cmd := new uint8[15] [0xEF, 0x01, 0xFF, 0xFF, 0xFF, 0xFF, 0x01, 0x00, 0x06, 0x06, 0x01, idHigh, idLow, 0x00, 0x00];
      assert idHigh == Hi(id) && idLow == Lo(id);
      var checksum: uint16 := (0x01 + 0x00 + 0x06 + 0x06 + 0x01 + idHigh + idLow) % 0x1_0000;
      cmd[13] := (checksum / 0x100) % 0x100;
      cmd[14] := checksum % 0x100;
      assert cmd[..] == [0xEF, 0x01, 0xFF, 0xFF, 0xFF, 0xFF, 0x01, 0x00, 0x06, 0x06, 0x01, idHigh, idLow, Hi(checksum), Lo(checksum)];
    }

    /** as608_search_model: its response is 16 bytes long. */
    method SearchModel(polls: seq<Poll>, start: int) returns (r: uint8)
      requires Receive(polls, 16, start + TimeoutMs, []) != Pending
      modifies this
      ensures sent == old(sent) + [SearchModelFrame()]
      ensures r == Confirmation(Receive(polls, 16, start + TimeoutMs, []))
      ensures index == IndexAfter(Receive(polls, 16, start + TimeoutMs, []), 16)
    {
      var cmd := new uint8[17] [0xEF, 0x01, 0xFF, 0xFF, 0xFF, 0xFF, 0x01, 0x00, 0x08, 0x04, 0x01, 0x00, 0x00, 0x00, 0x64, 0x00, 0x00];
      ghost var template: seq<uint8> := cmd[..];
      assert template == SearchModelTemplate();
      var checksum := Checksum(cmd, 6, 15);
      assert checksum == Sum16(template[6..15]);
      cmd[15] := (checksum / 0x100) % 0x100;
      cmd[16] := checksum % 0x100;
      assert cmd[..] == template[15 := Hi(checksum)][16 := Lo(checksum)];
      var response := new uint8[16];
      SendCommand(cmd);
      r := ReadResponse(response, 16, polls, start);
    }

    /** as608_delete_model */
    method DeleteModel(id: uint16, polls: seq<Poll>, start: int) returns (r: uint8)
      requires Receive(polls, 12, start + TimeoutMs, []) != Pending
      modifies this
      ensures sent == old(sent) + [DeleteModelFrame(id)]
      ensures r == Confirmation(Receive(polls, 12, start + TimeoutMs, []))
      ensures index == IndexAfter(Receive(polls, 12, start + TimeoutMs, []), 12)
    {
      var idHigh: uint8 := (id / 0x100) % 0x100;
      var idLow: uint8 := id % 0x100;
      var cmd := new uint8[16] [0xEF, 0x01, 0xFF, 0xFF, 0xFF, 0xFF, 0x01, 0x00, 0x07, 0x0C, idHigh, idLow, 0x00, 0x01, 0x00, 0x00];
      ghost var template: seq<uint8> := cmd[..];
      assert template == DeleteModelTemplate(id);
      var checksum := Checksum(cmd, 6, 14);
      assert checksum == Sum16(template[6..14]);
      cmd[14] := (checksum / 0x100) % 0x100;
      cmd[15] := checksum % 0x100;
      assert cmd[..] == template[14 := Hi(checksum)][15 := Lo(checksum)];
      var response := new uint8[12];
      SendCommand(cmd);
      r := ReadResponse(response, 12, polls, start);
    }

    /** as608_empty_database */
    method EmptyDatabase(polls: seq<Poll>, start: int) returns (r: uint8)
      requires Receive(polls, 12, start + TimeoutMs, []) != Pending
      modifies this
      ensures sent == old(sent) + [EmptyDatabaseFrame()]
      ensures r == Confirmation(Receive(polls, 12, start + TimeoutMs, []))
      ensures index == IndexAfter(Receive(polls, 12, start + TimeoutMs, []), 12)
    {
      var cmd := new uint8[12] [0xEF, 0x01, 0xFF, 0xFF, 0xFF, 0xFF, 0x01, 0x00, 0x03, 0x0D, 0x00, 0x11];
      assert cmd[..] == EmptyDatabaseFrame();
      var response := new uint8[12];
      SendCommand(cmd);
      r := ReadResponse(response, 12, polls, start);
    }
  }
}
