/**
 Interrupt priorities in their two register layouts: four to a word, set by read-modify-write
 (core_cm0plus.h), and one to a byte (core_armv8mml.h). Both are proved against the same view: one raw
 priority byte per interrupt number, negative for processor exceptions.

 C takes the interrupt number as unsigned; the index lemmas show that its & 0x03, & 0x0F and >> 2 are
 Dafny's % 4, % 16 and / 4 on the signed number.
 */
module NvicPriority {
  import opened Lanes

  /** What is stored for a priority: its implemented bits, left-aligned in a byte. */
  function Stored(priority: bv32, bits: bv8): (s: bv32)
    requires bits <= 8
    ensures s < 256
  {
    (priority << (8 - bits)) & 0xFF
  }

  /** What is read back from a stored byte. */
  function Reported(stored: bv32, bits: bv8): bv32
    requires bits <= 8
  {
    stored >> (8 - bits)
  }

  /** A priority read back is the priority that was set, cut to the implemented bits. */
  lemma ReportedOfStored(priority: bv32, bits: bv8)
    requires bits <= 8
    ensures Reported(Stored(priority, bits), bits) == priority & ((1 << bits) - 1)
  {
  }

  /** The stored byte has the priority's implemented bits at its top, and zeros below them. */
  lemma StoredIsLeftAligned(priority: bv32, bits: bv8)
    requires bits <= 8
    ensures Stored(priority, bits) & ((1 << (8 - bits)) - 1) == 0
    ensures Stored(priority, bits) >> (8 - bits) == priority & ((1 << bits) - 1)
  {
  }

  /** What is read back is the top of the stored byte, whatever stands below it. */
  lemma ReportedIsTop(stored: bv32, bits: bv8)
    requires bits <= 8 && stored < 256
    ensures Reported(stored, bits) < 1 << bits
    ensures Reported(stored, bits) << (8 - bits) == stored & !((1 << (8 - bits)) - 1)
  {
  }

  // ------------------------------------------------------------------ four priorities to a word

  /** The interrupt number that a 32-bit word stands for. */
  function Signed(w: bv32): int {
    if w < 0x8000_0000 then w as int else w as int - 0x1_0000_0000
  }

  /** _BIT_SHIFT / 8 and _IP_IDX for the device interrupts 0 to 31. */
  lemma DeviceIndex(w: bv32)
    requires w < 32
    ensures (w & 0x03) as int == Signed(w) % 4 && (w >> 2) as int == Signed(w) / 4
  {
  }

  /** _BIT_SHIFT / 8 and _SHP_IDX for the processor exceptions -8 to -1. */
  lemma SystemIndex(w: bv32)
    requires w >= 0xFFFF_FFF8
    ensures (w & 0x03) as int == Signed(w) % 4 && (((w & 0x0F) - 8) >> 2) as int == (Signed(w) % 16 - 8) / 4
  {
  }

  /** The byte layout's index for the processor exceptions -12 to -1. */
  lemma HandlerIndex(w: bv32)
    requires w >= 0xFFFF_FFF4
    ensures ((w & 0x0F) - 4) as int == Signed(w) % 16 - 4
  {
  }

  lemma FieldsApart(irq: int, q: int)
    requires -8 <= irq < 32 && -8 <= q < 32 && (irq >= 0 <==> q >= 0)
    ensures irq >= 0 ==> (q / 4 == irq / 4 && q % 4 == irq % 4 <==> q == irq)
    ensures irq < 0 ==> ((q % 16 - 8) / 4 == (irq % 16 - 8) / 4 && q % 4 == irq % 4 <==> q == irq)
  {
  }

  class PackedNvic {
    const ip: array<bv32>
    const shp: array<bv32>

    ghost predicate Valid() {
      ip.Length == 8 && shp.Length == 2 && ip != shp
    }

    /** The interrupt numbers that have a priority field in this layout. */
    static predicate Has(irq: int) {
      -8 <= irq < 32
    }

    ghost function Raw(irq: int): bv32
      requires Valid() && Has(irq)
      reads ip, shp
    {
      if irq >= 0 then Lane(ip[irq / 4], irq % 4) else Lane(shp[(irq % 16 - 8) / 4], irq % 4)
    }

    constructor ()
      ensures Valid() && fresh(ip) && fresh(shp)
      ensures forall q | Has(q) :: Raw(q) == 0
    {
      ip := new bv32[8](i => 0);
      shp := new bv32[2](i => 0);
    }

    /** The device branch: NVIC->IP. */
    method StoreDevice(irq: int, value: bv32)
      requires Valid() && 0 <= irq < 32 && value < 256
      modifies ip
      ensures forall q | Has(q) :: Raw(q) == if q == irq then value else old(Raw(q))
    {
      StoreLane(ip, irq / 4, irq % 4, value);
      forall q | 0 <= q < 32
        ensures Raw(q) == if q == irq then value else old(Raw(q))
      {
        FieldsApart(irq, q);
      }
    }

    /** The system branch: SCB->SHP. */
    method StoreSystem(irq: int, value: bv32)
      requires Valid() && -8 <= irq < 0 && value < 256
      modifies shp
      ensures forall q | Has(q) :: Raw(q) == if q == irq then value else old(Raw(q))
    {
      StoreLane(shp, (irq % 16 - 8) / 4, irq % 4, value);
      forall q | -8 <= q < 0
        ensures Raw(q) == if q == irq then value else old(Raw(q))
      {
        FieldsApart(irq, q);
      }
    }

    method SetPriority(irq: int, priority: bv32, bits: bv8)
      requires Valid() && Has(irq) && bits <= 8
      modifies ip, shp
      ensures Valid()
      ensures forall q | Has(q) :: Raw(q) == if q == irq then Stored(priority, bits) else old(Raw(q))
      ensures irq >= 0 ==> Lane(ip[irq / 4], irq % 4) == Stored(priority, bits)
      ensures irq < 0 ==> Lane(shp[(irq % 16 - 8) / 4], irq % 4) == Stored(priority, bits)
    {
      var value := Stored(priority, bits);
      if irq >= 0 {
        StoreDevice(irq, value);
      } else {
        StoreSystem(irq, value);
      }
    }

    method GetPriority(irq: int, bits: bv8) returns (priority: bv32)
      requires Valid() && Has(irq) && bits <= 8
      ensures priority == Reported(Raw(irq), bits)
    {
      if irq >= 0 {
        priority := Lane(ip[irq / 4], irq % 4) >> (8 - bits);
      } else {
        priority := Lane(shp[(irq % 16 - 8) / 4], irq % 4) >> (8 - bits);
      }
    }
  }

  // ------------------------------------------------------------------ one priority to a byte

  lemma SystemHandlersApart(irq: int)
    requires -12 <= irq < 0
    ensures forall q | -12 <= q < 0 :: q % 16 == irq % 16 <==> q == irq
  {
  }

  lemma ByteKeepsValue(stored: bv32)
    requires stored < 256
    ensures stored as bv8 as bv32 == stored
  {
  }

  class ByteNvic {
    const ipr: array<bv8>
    const shpr: array<bv8>

    ghost predicate Valid() {
      ipr.Length == 496 && shpr.Length == 12 && ipr != shpr
    }

    static predicate Has(irq: int) {
      -12 <= irq < 496
    }

    ghost function Raw(irq: int): bv32
      requires Valid() && Has(irq)
      reads ipr, shpr
    {
      if irq >= 0 then ipr[irq] as bv32 else shpr[irq % 16 - 4] as bv32
    }

    constructor ()
      ensures Valid() && fresh(ipr) && fresh(shpr)
      ensures forall q | Has(q) :: Raw(q) == 0
    {
      ipr := new bv8[496](i => 0);
      shpr := new bv8[12](i => 0);
    }

    method SetPriority(irq: int, priority: bv32, bits: bv8)
      requires Valid() && Has(irq) && bits <= 8
      modifies ipr, shpr
      ensures Valid()
      ensures forall q | Has(q) :: Raw(q) == if q == irq then Stored(priority, bits) else old(Raw(q))
      ensures irq >= 0 ==> ipr[irq] as bv32 == Stored(priority, bits)
      ensures irq < 0 ==> shpr[irq % 16 - 4] as bv32 == Stored(priority, bits)
    {
      var stored := Stored(priority, bits);
      var value := stored as bv8;
      ByteKeepsValue(stored);
      StoreByte(irq, value, stored);
    }

    /** The store of the byte itself. */
    method StoreByte(irq: int, value: bv8, ghost stored: bv32)
      requires Valid() && Has(irq) && value as bv32 == stored
      modifies ipr, shpr
      ensures forall q | Has(q) :: Raw(q) == if q == irq then stored else old(Raw(q))
      ensures if irq >= 0 then ipr[irq] == value else shpr[irq % 16 - 4] == value
    {
      if irq >= 0 {
        ipr[irq] := value;
      } else {
        SystemHandlersApart(irq);
        shpr[irq % 16 - 4] := value;
      }
    }

    method GetPriority(irq: int, bits: bv8) returns (priority: bv32)
      requires Valid() && Has(irq) && bits <= 8
      ensures priority == Reported(Raw(irq), bits)
    {
      if irq >= 0 {
        priority := (ipr[irq] as bv32) >> (8 - bits);
      } else {
        priority := (shpr[irq % 16 - 4] as bv32) >> (8 - bits);
      }
    }
  }

  /** The two layouts hold the same priority for every interrupt number they share. */
  ghost predicate Agree(p: PackedNvic, b: ByteNvic)
    requires p.Valid() && b.Valid()
    reads p.ip, p.shp, b.ipr, b.shpr
  {
    forall q | PackedNvic.Has(q) :: p.Raw(q) == b.Raw(q)
  }

  /** A command sequence for both layouts. */
  datatype Request = Request(irq: int, priority: bv32, bits: bv8)

  predicate Fits(r: Request) {
    PackedNvic.Has(r.irq) && r.bits <= 8
  }

  /** What is stored for q after the requests: the last one for q, or what was there before. */
  function LastStored(requests: seq<Request>, q: int, before: bv32): bv32
    requires forall i | 0 <= i < |requests| :: Fits(requests[i])
  {
    if requests == [] then before
    else
      var n := |requests| - 1;
      assert Fits(requests[n]);
      if requests[n].irq == q then Stored(requests[n].priority, requests[n].bits)
      else LastStored(requests[..n], q, before)
  }

  /** Run on both layouts, any sequence of settings leaves in both what was last set for each interrupt. */
  method SetAll(p: PackedNvic, b: ByteNvic, requests: seq<Request>)
    requires p.Valid() && b.Valid() && Agree(p, b)
    requires p.ip != p.shp && forall i | 0 <= i < |requests| :: Fits(requests[i])
    modifies p.ip, p.shp, b.ipr, b.shpr
    ensures p.Valid() && b.Valid() && Agree(p, b)
    ensures forall q | PackedNvic.Has(q) :: p.Raw(q) == LastStored(requests, q, old(p.Raw(q)))
  {
    for i := 0 to |requests|
      invariant Agree(p, b)
      invariant forall q | PackedNvic.Has(q) :: p.Raw(q) == LastStored(requests[..i], q, old(p.Raw(q)))
    {
      assert requests[..i + 1][..i] == requests[..i];
      var r := requests[i];
      p.SetPriority(r.irq, r.priority, r.bits);
      b.SetPriority(r.irq, r.priority, r.bits);
    }
    assert requests[..|requests|] == requests;
  }
}
