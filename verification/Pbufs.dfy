/** The packet buffers of lwIP, as far as the Ethernet glue links and reads them. */
module Pbufs {

  class Pbuf {
    const payload: nat
    var next: Pbuf?
    var len: nat
    var totLen: nat

    constructor (payload: nat)
    {
      this.payload := payload;
      next := null;
      len, totLen := 0, 0;
    }
  }

  /** start and end delimit the chain of exactly these buffers: in order, ending in null, none twice. */
  ghost predicate Linked(start: Pbuf?, end: Pbuf?, chain: seq<Pbuf>)
    reads chain
  {
    && (chain == [] ==> start == null)
    && (chain != [] ==> start == chain[0] && end == chain[|chain| - 1])
    && (forall i :: 0 <= i < |chain| ==> chain[i].next == if i + 1 < |chain| then chain[i + 1] else null)
    && (forall i, j :: 0 <= i < j < |chain| ==> chain[i] != chain[j])
  }

  lemma NextInChain(start: Pbuf?, end: Pbuf?, chain: seq<Pbuf>, i: nat)
    requires Linked(start, end, chain) && i < |chain|
    ensures chain[i].next == if i + 1 < |chain| then chain[i + 1] else null
  {
  }
}
