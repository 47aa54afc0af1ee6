/** The memory attribute table of the Armv8-M MPU: eight attribute bytes in the two words MAIR0 and MAIR1. */
module MemAttributes {
  import opened Lanes

  const WORDS := 2
  const ATTRIBUTES := 8

  /** The word that ARM_MPU_SetMemAttrEx writes back: the shifted attribute is masked too. */
  function PutMasked(w: bv32, attr: bv32, shift: bv8): bv32
    requires shift <= 24
  {
    (w & !(0xFF << shift)) | ((attr << shift) & (0xFF << shift))
  }

  function WithAttribute(w: bv32, lane: nat, attr: bv32): bv32
    requires lane < 4
  {
    if lane == 0 then PutMasked(w, attr, 0)
    else if lane == 1 then PutMasked(w, attr, 8)
    else if lane == 2 then PutMasked(w, attr, 16)
    else PutMasked(w, attr, 24)
  }

  lemma IsByte(attr: bv32)
    requires attr < 256
    ensures attr & 0xFF == attr
  {
  }

  lemma MaskAt0(w: bv32, attr: bv32)
    requires attr & 0xFF == attr
    ensures PutMasked(w, attr, 0) == Put(w, attr, 0)
  {
  }

  lemma MaskAt8(w: bv32, attr: bv32)
    requires attr & 0xFF == attr
    ensures PutMasked(w, attr, 8) == Put(w, attr, 8)
  {
  }

  lemma MaskAt16(w: bv32, attr: bv32)
    requires attr & 0xFF == attr
    ensures PutMasked(w, attr, 16) == Put(w, attr, 16)
  {
  }

  lemma MaskAt24(w: bv32, attr: bv32)
    requires attr & 0xFF == attr
    ensures PutMasked(w, attr, 24) == Put(w, attr, 24)
  {
  }

  /** The extra mask changes nothing, because the attribute is a byte. */
  lemma ByteNeedsNoMask(w: bv32, lane: nat, attr: bv32)
    requires lane < 4 && attr < 256
    ensures WithAttribute(w, lane, attr) == WithLane(w, lane, attr)
  {
    IsByte(attr);
    MaskAt0(w, attr);
    MaskAt8(w, attr);
    MaskAt16(w, attr);
    MaskAt24(w, attr);
  }

  lemma LanesAfter(w: bv32, lane: nat, attr: bv32, after: bv32, k: nat)
    requires lane < 4 && attr < 256 && k < 4 && after == WithLane(w, lane, attr)
    ensures Lane(after, k) == if k == lane then attr else Lane(w, k)
  {
    if k == lane {
      SameLane(w, lane, attr);
    } else {
      OtherLane(w, lane, attr, after, k);
    }
  }

  class AttributeTable {
    const mair: array<bv32>

    ghost predicate Valid() {
      mair.Length == WORDS
    }

    ghost function Attribute(idx: nat): bv32
      requires Valid() && idx < ATTRIBUTES
      reads mair
    {
      Lane(mair[idx / 4], idx % 4)
    }

    constructor ()
      ensures Valid() && fresh(mair)
      ensures forall k :: 0 <= k < ATTRIBUTES ==> Attribute(k) == 0
    {
      mair := new bv32[WORDS](i => 0);
    }

    /** ARM_MPU_SetMemAttrEx: sets one of the eight attributes and no other; any other index changes nothing. */
    method SetMemAttr(idx: nat, attr: bv32)
      requires Valid() && idx < 256 && attr < 256
      modifies mair
      ensures forall k :: 0 <= k < ATTRIBUTES ==> Attribute(k) == if k == idx then attr else old(Attribute(k))
      ensures idx >= 8 ==> mair[..] == old(mair[..])
    {
      var reg := idx / 4;
      if reg >= WORDS {
        return;
      }
      ghost var was := mair[reg];
      mair[reg] := WithAttribute(mair[reg], idx % 4, attr);
      ByteNeedsNoMask(was, idx % 4, attr);
      forall k | 0 <= k < ATTRIBUTES
        ensures Attribute(k) == if k == idx then attr else old(Attribute(k))
      {
        LanesAfter(was, idx % 4, attr, mair[reg], k % 4);
      }
    }
  }

  /** Attributes 0 to 3 are the bytes of MAIR0 from the bottom up, and 4 to 7 those of MAIR1. */
  lemma AttributePlaces(t: AttributeTable, k: nat)
    requires t.Valid() && k < 4
    ensures t.Attribute(k) == Lane(t.mair[0], k) && t.Attribute(k + 4) == Lane(t.mair[1], k)
  {
  }
}
