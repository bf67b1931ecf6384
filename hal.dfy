/** An in-memory stand-in for the STM32 HAL I2C master interface and HAL_Delay.

    The drivers talk to one shared bus handle. Here that handle is a FakeBus: it
    records every transmit, receive and delay in a log, and answers each transfer
    with the next reply of a script fixed by the test that built it. Timeouts,
    real timing and the electrical bus are not modelled. */
module Hal {

  /** HAL_StatusTypeDef: HAL_OK, HAL_ERROR, HAL_BUSY, HAL_TIMEOUT. */
  datatype Status = Ok | Error | Busy | Timeout

  /** One observable action of a driver on the bus. */
  datatype Event =
    | Sent(addr: nat, bytes: seq<bv8>)     // HAL_I2C_Master_Transmit of these bytes
    | Requested(addr: nat, count: nat)     // HAL_I2C_Master_Receive of count bytes
    | Waited(ms: nat)                      // HAL_Delay(ms)

  /** What the fake answers to one transfer: a status and, for a receive, the bytes. */
  datatype Reply = Reply(status: Status, data: seq<bv8>)

  /** Status of the k-th upcoming transfer; a device past the end of the script acknowledges. */
  function StatusAt(replies: seq<Reply>, k: nat): Status
  {
    if k < |replies| then replies[k].status else Ok
  }

  /** Bytes offered to the k-th upcoming transfer (none past the end of the script). */
  function DataAt(replies: seq<Reply>, k: nat): seq<bv8>
  {
    if k < |replies| then replies[k].data else []
  }

  /** The script left after k transfers. */
  function Drop(replies: seq<Reply>, k: nat): seq<Reply>
  {
    if k < |replies| then replies[k..] else []
  }

  /** The first n bytes of data, filled up with zero bytes when data is shorter. */
  function Pad(data: seq<bv8>, n: nat): (r: seq<bv8>)
    ensures |r| == n
    ensures forall i :: 0 <= i < n && i < |data| ==> r[i] == data[i]
    ensures forall i :: |data| <= i < n ==> r[i] == 0
  {
    if n == 0 then []
    else if data == [] then [0] + Pad([], n - 1)
    else [data[0]] + Pad(data[1..], n - 1)
  }

  lemma {:induction false} DropDrop(replies: seq<Reply>, j: nat, k: nat)
    ensures Drop(Drop(replies, j), k) == Drop(replies, j + k)
    ensures StatusAt(Drop(replies, j), k) == StatusAt(replies, j + k)
    ensures DataAt(Drop(replies, j), k) == DataAt(replies, j + k)
  {
    if j < |replies| && k < |replies| - j {
      assert replies[j..][k..] == replies[j + k..];
    }
  }

  class FakeBus {
    /** Everything the drivers did, oldest first. */
    var log: seq<Event>
    /** Replies still to be handed out, one per transmit or receive. */
    var replies: seq<Reply>

    constructor (script: seq<Reply>)
      ensures log == [] && replies == script
    {
      log := [];
      replies := script;
    }

    /** HAL_I2C_Master_Transmit(handle, addr, buf, size, timeout). */
    method Transmit(addr: nat, buf: array<bv8>, size: nat) returns (st: Status)
      requires size <= buf.Length
      modifies this
      ensures st == StatusAt(old(replies), 0)
      ensures log == old(log) + [Sent(addr, buf[..size])]
      ensures replies == Drop(old(replies), 1)
    {
      st := StatusAt(replies, 0);
      log := log + [Sent(addr, buf[..size])];
      replies := Drop(replies, 1);
    }

    /** HAL_I2C_Master_Receive(handle, addr, buf, size, timeout): on success the
        first size bytes of buf receive the scripted data; on failure buf is untouched. */
    method Receive(addr: nat, buf: array<bv8>, size: nat) returns (st: Status)
      requires size <= buf.Length
      modifies this, buf
      ensures st == StatusAt(old(replies), 0)
      ensures log == old(log) + [Requested(addr, size)]
      ensures replies == Drop(old(replies), 1)
      ensures st == Ok ==> buf[..size] == Pad(DataAt(old(replies), 0), size)
      ensures st == Ok ==> buf[size..] == old(buf[size..])
      ensures st != Ok ==> buf[..] == old(buf[..])
    {
      st := StatusAt(replies, 0);
      if st == Ok {
        var incoming := Pad(DataAt(replies, 0), size);
        forall i | 0 <= i < size {
          buf[i] := incoming[i];
        }
      }
      log := log + [Requested(addr, size)];
      replies := Drop(replies, 1);
    }

    /** HAL_Delay(ms): only recorded. */
    method Delay(ms: nat)
      modifies this
      ensures log == old(log) + [Waited(ms)]
      ensures replies == old(replies)
    {
      log := log + [Waited(ms)];
    }
  }
}
