/** The OLV1 input source: decode and merge. */
module Olv1Source {
  import opened Bytes
  import opened Store
  import Olv1Codec

  function Classify(d: bytes): Outcome {
    var r := Olv1Codec.Decode(d);
    if r.Err? then Drop(Malformed) else Merge(r.value)
  }

  class Olv1InputSource {
    const store: StateStore

    constructor (store: StateStore)
      ensures this.store == store
    {
      this.store := store;
    }

    /** handleDatagram: count, decode, apply. */
    method HandleDatagram(d: bytes, wall: int, mono: int)
      modifies store
      ensures store.Model() == AfterOutcome(AfterReceived(old(store.Model()), |d|), Classify(d), wall, mono)
    {
      hide Olv1Codec.Decode, AfterApply, AfterDropped, AfterReceived;
      store.CountReceived(|d|);
      var r := Olv1Codec.DecodePacket(d);
      if r.Err? {
        store.CountDropped(Malformed);
        return;
      }
      var result := store.Apply(r.value, wall, mono);
    }
  }
}
