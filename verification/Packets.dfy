/** What the driver shares with the network stack and with foreign objects. */
module Packets {
  import opened Bytes

  const POOL_BUFFER_SIZE := 2048
  /** No mapped buffer of the driver's address space lies below this address. */
  const LOWEST_MAPPED := 0x10_0000

  type Buffer = s: seq<Byte> | |s| == POOL_BUFFER_SIZE witness seq(POOL_BUFFER_SIZE, _ => 0)

  /** A network packet: its buffer and where it is mapped, and which part of it is the frame. */
  datatype Packet = Packet(id: nat, base: nat, dataOff: nat, dataLen: nat, buffer: Buffer)

  /** The frame lies inside the packet's buffer. */
  predicate Fits(p: Packet)
  {
    p.dataOff + p.dataLen <= POOL_BUFFER_SIZE
  }

  function FrameOf(p: Packet): (frame: seq<Byte>)
    requires Fits(p)
    ensures |frame| == p.dataLen
  {
    p.buffer[p.dataOff..p.dataOff + p.dataLen]
  }

  /** The packet once `payload` is copied to its data offset and its length is set. */
  function Filled(p: Packet, payload: seq<Byte>): (q: Packet)
    requires p.dataOff + |payload| <= POOL_BUFFER_SIZE
    ensures Fits(q) && FrameOf(q) == payload
  {
    var end := p.dataOff + |payload|;
    var buffer := p.buffer[..p.dataOff] + payload + p.buffer[end..];
    assert buffer[p.dataOff..end] == payload;
    p.(dataLen := |payload|, buffer := buffer)
  }

  /** The packets of log entries, in their order. */
  function PacketsOf<T>(entries: seq<T>, packet: T -> Packet): (ps: seq<Packet>)
    ensures |ps| == |entries|
  {
    if entries == [] then []
    else PacketsOf(entries[..|entries| - 1], packet) + [packet(entries[|entries| - 1])]
  }

  lemma PacketsOfMore<T>(entries: seq<T>, e: T, packet: T -> Packet)
    ensures PacketsOf(entries + [e], packet) == PacketsOf(entries, packet) + [packet(e)]
  {
    assert (entries + [e])[..|entries|] == entries;
  }

  /** A foreign object: pipe, queue, pool, timer or action. The environment chooses every answer. */
  class Foreign {
    constructor ()
    {
    }

    method Call<T>(answer: T) returns (r: T)
      ensures r == answer
    {
      r := answer;
    }
  }

  /** Completion statuses the driver tells apart; every other status is `Failed`. */
  datatype Status = Success | Aborted | Stalled | Failed
}
