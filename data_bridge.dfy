/**
 * `DataBridge`: the pair of byte queues between a network client and the
 * serial port. The network side fills `ToPortBuffer` and the serial side
 * drains it; the serial side fills `ToNetBuffer` and the network side drains
 * it. The two queues share no storage.
 */
module DataBridges {
  import opened MemoryQueues

  /** `Constants.BridgeQueueSize` */
  const BridgeQueueSize: nat := 2048

  type byte = bv8

  class DataBridge {
    /** The bytes waiting to be written to the serial port. */
    const ToPortBuffer: MemoryQueue<byte>
    /** The bytes waiting to be written to the network client. */
    const ToNetBuffer: MemoryQueue<byte>

    ghost var Repr: set<object>

    ghost predicate Valid()
      reads this, Repr
      ensures Valid() ==> this in Repr
    {
      && this in Repr
      && ToPortBuffer in Repr && ToPortBuffer.Repr <= Repr && this !in ToPortBuffer.Repr
      && ToNetBuffer in Repr && ToNetBuffer.Repr <= Repr && this !in ToNetBuffer.Repr
      && ToPortBuffer.Repr !! ToNetBuffer.Repr
      && Repr == {this} + ToPortBuffer.Repr + ToNetBuffer.Repr
      && ToPortBuffer.Valid() && ToNetBuffer.Valid()
    }

    /** Both queues start empty, apart, with `BridgeQueueSize` slots each. */
    constructor ()
      ensures Valid() && fresh(Repr)
      ensures ToPortBuffer != ToNetBuffer
      ensures ToPortBuffer.Contents == [] && ToNetBuffer.Contents == []
      ensures ToPortBuffer.buffer.Length == BridgeQueueSize && ToNetBuffer.buffer.Length == BridgeQueueSize
      ensures !ToPortBuffer.disposed && !ToNetBuffer.disposed
    {
      ToPortBuffer := new MemoryQueue<byte>(BridgeQueueSize);
      ToNetBuffer := new MemoryQueue<byte>(BridgeQueueSize);
      new;
      Repr := {this} + ToPortBuffer.Repr + ToNetBuffer.Repr;
    }

    /**
     * What the network receiver does with the bridge: `ToPortBuffer.Enqueue`.
     * The queue toward the network keeps its contents and its storage.
     */
    method EnqueueToPort(elements: seq<byte>)
      requires Valid() && !ToPortBuffer.disposed
      modifies Repr
      ensures Valid() && fresh(Repr - old(Repr))
      ensures ToPortBuffer.Contents == old(ToPortBuffer.Contents) + elements && !ToPortBuffer.disposed
      ensures ToNetBuffer.Contents == old(ToNetBuffer.Contents) && unchanged(ToNetBuffer)
      ensures ToNetBuffer.Repr == old(ToNetBuffer.Repr)
    {
      ToPortBuffer.Enqueue(elements);
      Repr := {this} + ToPortBuffer.Repr + ToNetBuffer.Repr;
    }

    /**
     * What the serial side does with the bridge: `ToNetBuffer.Enqueue`. The
     * queue toward the port keeps its contents and its storage.
     */
    method EnqueueToNet(elements: seq<byte>)
      requires Valid() && !ToNetBuffer.disposed
      modifies Repr
      ensures Valid() && fresh(Repr - old(Repr))
      ensures ToNetBuffer.Contents == old(ToNetBuffer.Contents) + elements && !ToNetBuffer.disposed
      ensures ToPortBuffer.Contents == old(ToPortBuffer.Contents) && unchanged(ToPortBuffer)
      ensures ToPortBuffer.Repr == old(ToPortBuffer.Repr)
    {
      ToNetBuffer.Enqueue(elements);
      Repr := {this} + ToPortBuffer.Repr + ToNetBuffer.Repr;
    }

    /** `Dispose`: dispose both queues; a repeated call is harmless. */
    method Dispose()
      requires Valid()
      modifies Repr
      ensures Valid() && Repr == old(Repr)
      ensures ToPortBuffer.disposed && ToNetBuffer.disposed
      ensures ToPortBuffer.Contents == old(ToPortBuffer.Contents)
      ensures ToNetBuffer.Contents == old(ToNetBuffer.Contents)
    {
      ToPortBuffer.Dispose();
      ToNetBuffer.Dispose();
    }
  }
}
