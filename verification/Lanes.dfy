/** The four bytes of a register word, counted from the least significant one. */
module Lanes {

  function Get(w: bv32, shift: bv8): bv32
    requires shift <= 24
  {
    (w >> shift) & 0xFF
  }

  function Put(w: bv32, b: bv32, shift: bv8): bv32
    requires shift <= 24
  {
    (w & !(0xFF << shift)) | (b << shift)
  }

  /** Lane n is the byte that a shift by 8 * n brings down. */
  function Lane(w: bv32, lane: nat): bv32
    requires lane < 4
  {
    if lane == 0 then Get(w, 0) else if lane == 1 then Get(w, 8) else if lane == 2 then Get(w, 16) else Get(w, 24)
  }

  function WithLane(w: bv32, lane: nat, b: bv32): bv32
    requires lane < 4
  {
    if lane == 0 then Put(w, b, 0)
    else if lane == 1 then Put(w, b, 8)
    else if lane == 2 then Put(w, b, 16)
    else Put(w, b, 24)
  }

  /** A word is made of its lanes, the first one at the bottom. */
  lemma WordOfLanes(w: bv32)
    ensures w == Lane(w, 0) | (Lane(w, 1) << 8) | (Lane(w, 2) << 16) | (Lane(w, 3) << 24)
    ensures Lane(w, 0) < 256 && Lane(w, 1) < 256 && Lane(w, 2) < 256 && Lane(w, 3) < 256
  {
  }

  lemma SameLane(w: bv32, lane: nat, b: bv32)
    requires lane < 4 && b < 256
    ensures Lane(WithLane(w, lane, b), lane) == b
  {
    if lane == 0 {
    } else if lane == 1 {
    } else if lane == 2 {
    }
  }

  lemma OtherLane(w: bv32, lane: nat, b: bv32, after: bv32, other: nat)
    requires lane < 4 && other < 4 && other != lane && b < 256 && after == WithLane(w, lane, b)
    ensures Lane(after, other) == Lane(w, other)
  {
    if lane == 0 {
      OtherThanFirst(w, b, after);
    } else if lane == 1 {
      OtherThanSecond(w, b, after);
    } else if lane == 2 {
      OtherThanThird(w, b, after);
    } else {
      OtherThanFourth(w, b, after);
    }
    if other == 0 {
    } else if other == 1 {
    } else if other == 2 {
    }
  }

  lemma OtherThanFirst(w: bv32, b: bv32, after: bv32)
    requires b < 256 && after == WithLane(w, 0, b)
    ensures Lane(after, 1) == Lane(w, 1)
    ensures Lane(after, 2) == Lane(w, 2)
    ensures Lane(after, 3) == Lane(w, 3)
  {
  }

  lemma OtherThanSecond(w: bv32, b: bv32, after: bv32)
    requires b < 256 && after == WithLane(w, 1, b)
    ensures Lane(after, 0) == Lane(w, 0)
    ensures Lane(after, 2) == Lane(w, 2)
    ensures Lane(after, 3) == Lane(w, 3)
  {
  }

  lemma OtherThanThird(w: bv32, b: bv32, after: bv32)
    requires b < 256 && after == WithLane(w, 2, b)
    ensures Lane(after, 0) == Lane(w, 0)
    ensures Lane(after, 1) == Lane(w, 1)
    ensures Lane(after, 3) == Lane(w, 3)
  {
  }

  lemma OtherThanFourth(w: bv32, b: bv32, after: bv32)
    requires b < 256 && after == WithLane(w, 3, b)
    ensures Lane(after, 0) == Lane(w, 0)
    ensures Lane(after, 1) == Lane(w, 1)
    ensures Lane(after, 2) == Lane(w, 2)
  {
  }

  /** The read-modify-write of one lane of one word. */
  method StoreLane(words: array<bv32>, index: nat, lane: nat, b: bv32)
    requires index < words.Length && lane < 4 && b < 256
    modifies words
    ensures forall i, k | 0 <= i < words.Length && 0 <= k < 4 ::
              Lane(words[i], k) == if i == index && k == lane then b else old(Lane(words[i], k))
  {
    ghost var was := words[index];
    words[index] := WithLane(words[index], lane, b);
    forall k | 0 <= k < 4 ensures Lane(words[index], k) == if k == lane then b else Lane(was, k) {
      if k == lane {
        SameLane(was, lane, b);
      } else {
        OtherLane(was, lane, b, words[index], k);
      }
    }
  }
}
