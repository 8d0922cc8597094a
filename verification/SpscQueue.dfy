/** include/hft/spsc_queue.hpp as one thread of control sees it: push and pop
    update the positions, the cached positions and the slots in place.  Each
    statement is paired with the protocol step it performs, so the ring used by
    a single caller is one of the runs of SpscProtocol. */
module SpscQueue {
  import opened Bits
  import Protocol = SpscProtocol

  class SpscQueue<T(0)> {
    const logCap: nat
    const buf: array<T>
    var producerPos: nat
    var cachedConsumer: nat
    var consumerPos: nat
    var cachedProducer: nat
    ghost var model: Protocol.State<T>

    /** The fields are those of a protocol state that satisfies the invariant. */
    ghost predicate Linked()
      reads this, buf
    {
      && Protocol.Inv(model)
      && model.logCap == logCap && model.buf == buf[..]
      && model.producerPos == producerPos && model.consumerPos == consumerPos
      && model.cachedConsumer == cachedConsumer && model.cachedProducer == cachedProducer
    }

    /** ... and both threads are between calls. */
    ghost predicate Valid()
      reads this, buf
    {
      Linked() && model.producer.PIdle? && model.consumer.CIdle?
    }

    ghost function Contents(): seq<T>
      reads this, buf
      requires Linked()
    {
      Protocol.Contents(model)
    }

    constructor (logCap: nat)
      requires logCap >= 1
      ensures Valid() && Contents() == [] && buf.Length == Pow2(logCap) && fresh(buf)
    {
      this.logCap := logCap;
      buf := new T[Pow2(logCap)];
      producerPos, cachedConsumer, consumerPos, cachedProducer := 0, 0, 0, 0;
      new;
      var none := seq(Pow2(logCap), _ => 0);
      model := Protocol.State(logCap, buf[..], 0, 0, 0, 0, Protocol.PIdle, Protocol.CIdle,
                              0, 0, none, none, false, [], []);
      Protocol.InitInv(model);
    }

    /** Appends unless the ring is full; refused exactly when it is. */
    method Push(value: T) returns (ok: bool)
      requires Valid()
      modifies this, buf
      ensures Valid()
      ensures ok == (|old(Contents())| < buf.Length)
      ensures Contents() == if ok then old(Contents()) + [value] else old(Contents())
    {
      ok := FindRoom(value);
      if ok { Store(value); }
    }

    /** The two capacity tests of emplace_from, on the cache and then on the reloaded position. */
    method FindRoom(value: T) returns (room: bool)
      requires Valid()
      modifies this`cachedConsumer, this`model
      ensures Linked() && model.consumer.CIdle? && Contents() == old(Contents())
      ensures room == (|Contents()| < buf.Length)
      ensures model.producer == if room then Protocol.PMayWrite(value, producerPos) else Protocol.PIdle
    {
      Do(Protocol.PStart(value));
      room := producerPos - cachedConsumer < buf.Length;
      Do(Protocol.PTest);
      if !room {
        cachedConsumer := consumerPos;
        Do(Protocol.PReload(consumerPos));
        room := producerPos - cachedConsumer < buf.Length;
        Do(Protocol.PRetest);
      }
    }

    /** Fill the slot, then publish it. */
    method Store(value: T)
      requires Linked() && model.consumer.CIdle? && model.producer == Protocol.PMayWrite(value, producerPos)
      modifies this`producerPos, this`model, buf
      ensures Valid() && Contents() == old(Contents()) + [value]
    {
      var i := BitAnd(producerPos, buf.Length - 1);
      assert i == Protocol.Slot(logCap, producerPos) < buf.Length;
      Do(Protocol.PWrite(value));
      buf[i] := value;
      Do(Protocol.PPublish);
      producerPos := producerPos + 1;
    }

    /** Removes the oldest value unless the ring is empty; refused exactly when it is. */
    method Pop(dflt: T) returns (ok: bool, out: T)
      requires Valid()
      modifies this
      ensures Valid()
      ensures ok == (|old(Contents())| > 0)
      ensures ok ==> out == old(Contents())[0] && Contents() == old(Contents())[1..]
      ensures !ok ==> out == dflt && Contents() == old(Contents())
    {
      out := dflt;
      ok := FindItem();
      if ok { out := Take(); }
    }

    method FindItem() returns (some: bool)
      requires Valid()
      modifies this`cachedProducer, this`model
      ensures Linked() && model.producer.PIdle? && Contents() == old(Contents())
      ensures some == (|Contents()| > 0)
      ensures model.consumer == if some then Protocol.CMayRead(consumerPos) else Protocol.CIdle
    {
      Do(Protocol.CStart);
      some := consumerPos != cachedProducer;
      Do(Protocol.CTest);
      if !some {
        cachedProducer := producerPos;
        Do(Protocol.CReload(producerPos));
        some := consumerPos != cachedProducer;
        Do(Protocol.CRetest);
      }
    }

    /** Move the value out of its slot, then publish the freed slot. */
    method Take() returns (out: T)
      requires Linked() && model.producer.PIdle? && model.consumer == Protocol.CMayRead(consumerPos)
      modifies this`consumerPos, this`model
      ensures Valid()
      ensures |old(Contents())| > 0 && out == old(Contents())[0] && Contents() == old(Contents())[1..]
    {
      assert Protocol.Slot(logCap, consumerPos) < buf.Length;
      out := buf[BitAnd(consumerPos, buf.Length - 1)];
      Do(Protocol.CMove(out, out));
      assert model.buf == buf[..];
      Do(Protocol.CPublish);
      consumerPos := consumerPos + 1;
    }

    /** Performs one protocol step on the ghost state. */
    ghost method Do(a: Protocol.Step<T>)
      requires Protocol.Inv(model) && Protocol.Enabled(model, a)
      modifies this`model
      ensures model == Protocol.Apply(old(model), a) && Protocol.Inv(model)
      ensures Protocol.Contents(model) ==
              Protocol.FifoAfter(old(Protocol.Contents(model)), Protocol.EventOf(old(model), a))
      ensures !Protocol.IsRefusal(Protocol.EventOf(old(model), a)) || Protocol.Current(old(model), a) ==>
              Protocol.FifoAllows(old(Protocol.Capacity(model)), old(Protocol.Contents(model)),
                                  Protocol.EventOf(old(model), a))
    {
      Protocol.StepRefinesFifo(model, a);
      model := Protocol.Apply(model, a);
    }
  }
}
