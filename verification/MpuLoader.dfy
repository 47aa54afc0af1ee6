/**
 Loading MPU regions from a table: the chunked Armv8-M loader, which writes up to `aliases` regions
 through the alias registers before it has to move RNR.
 */
module MpuLoader {
  import opened Arithmetic

  /** One row of the configuration table, and one region of the MPU. */
  datatype Region = Region(rbar: bv32, rlar: bv32)

  /** Setting one region: the meaning of ARM_MPU_SetRegionEx. */
  function SetRegion(file: seq<Region>, n: nat, row: Region): seq<Region>
    requires n < |file|
  {
    file[n := row]
  }

  /** Setting the rows of a table one at a time, from region n on. */
  function SetRegions(file: seq<Region>, n: nat, rows: seq<Region>): (r: seq<Region>)
    requires n + |rows| <= |file|
    ensures |r| == |file|
  {
    if rows == [] then file
    else SetRegion(SetRegions(file, n, rows[..|rows| - 1]), n + |rows| - 1, rows[|rows| - 1])
  }

  /** One at a time or all at once: the rows land in order and no other region changes. */
  lemma {:induction false} SetRegionsIsSplice(file: seq<Region>, n: nat, rows: seq<Region>)
    requires n + |rows| <= |file|
    ensures SetRegions(file, n, rows) == file[..n] + rows + file[n + |rows|..]
  {
    if rows != [] {
      SetRegionsIsSplice(file, n, rows[..|rows| - 1]);
    }
  }

  lemma {:induction false} SetRegionsConcat(file: seq<Region>, n: nat, a: seq<Region>, b: seq<Region>)
    requires n + |a| + |b| <= |file|
    ensures SetRegions(file, n, a + b) == SetRegions(SetRegions(file, n, a), n + |a|, b)
  {
    if b == [] {
      assert a + b == a;
    } else {
      var k := |b| - 1;
      SetRegionsConcat(file, n, a, b[..k]);
      assert (a + b)[..|a| + k] == a + b[..k];
    }
  }

  lemma SetNextRows(file: seq<Region>, n: nat, table: seq<Region>, done: nat, c: nat)
    requires done + c <= |table| && n + done + c <= |file|
    ensures SetRegions(SetRegions(file, n, table[..done]), n + done, table[done..done + c])
         == SetRegions(file, n, table[..done + c])
  {
    SetRegionsConcat(file, n, table[..done], table[done..done + c]);
    assert table[..done] + table[done..done + c] == table[..done + c];
  }

  /** The table as the words that orderedCpy reads. */
  function Words(rows: seq<Region>): (w: seq<bv32>)
    ensures |w| == 2 * |rows|
  {
    if rows == [] then []
    else Words(rows[..|rows| - 1]) + [rows[|rows| - 1].rbar] + [rows[|rows| - 1].rlar]
  }

  /** A store to the base register (half 0) or the limit register (half 1) of one region. */
  function Store(file: seq<Region>, n: nat, half: nat, value: bv32): seq<Region>
    requires n < |file|
  {
    file[n := if half == 0 then file[n].(rbar := value) else file[n].(rlar := value)]
  }

  /** A store to word k counted from the base register of region n. */
  function WriteWordOf(file: seq<Region>, n: nat, k: nat, value: bv32): seq<Region>
    requires n + k / 2 < |file|
  {
    Store(file, n + k / 2, k % 2, value)
  }

  function WriteWords(file: seq<Region>, n: nat, w: seq<bv32>): (r: seq<Region>)
    requires n + (|w| + 1) / 2 <= |file|
    ensures |r| == |file|
  {
    if w == [] then file
    else WriteWordOf(WriteWords(file, n, w[..|w| - 1]), n, |w| - 1, w[|w| - 1])
  }

  lemma WriteWordsSnoc(file: seq<Region>, n: nat, w: seq<bv32>, value: bv32)
    requires n + (|w| + 2) / 2 <= |file|
    ensures WriteWords(file, n, w + [value]) == WriteWordOf(WriteWords(file, n, w), n, |w|, value)
  {
    assert (w + [value])[..|w|] == w;
  }

  lemma WriteNextWord(file: seq<Region>, n: nat, w: seq<bv32>, i: nat)
    requires i < |w| && n + (|w| + 1) / 2 <= |file|
    ensures WriteWords(file, n, w[..i + 1]) == Store(WriteWords(file, n, w[..i]), n + i / 2, i % 2, w[i])
  {
    WriteWordsSnoc(file, n, w[..i], w[i]);
    assert w[..i] + [w[i]] == w[..i + 1];
  }

  lemma TwoWordsSetRegion(file: seq<Region>, n: nat, k: nat, row: Region)
    requires n + k < |file|
    ensures WriteWordOf(WriteWordOf(file, n, 2 * k, row.rbar), n, 2 * k + 1, row.rlar) == SetRegion(file, n + k, row)
  {
    assert file[n + k].(rbar := row.rbar).(rlar := row.rlar) == row;
  }

  lemma NextRow(file: seq<Region>, n: nat, w: seq<bv32>, k: nat, row: Region)
    requires |w| == 2 * k && n + k < |file|
    ensures WriteWords(file, n, (w + [row.rbar]) + [row.rlar]) == SetRegion(WriteWords(file, n, w), n + k, row)
  {
    WriteWordsSnoc(file, n, w, row.rbar);
    WriteWordsSnoc(file, n, w + [row.rbar], row.rlar);
    TwoWordsSetRegion(WriteWords(file, n, w), n, k, row);
  }

  /** Copying the words of the rows in order sets the regions in order. */
  lemma {:induction false} WriteWordsSetsRegions(file: seq<Region>, n: nat, rows: seq<Region>)
    requires n + |rows| <= |file|
    ensures WriteWords(file, n, Words(rows)) == SetRegions(file, n, rows)
  {
    if rows != [] {
      var k := |rows| - 1;
      var front, row := Words(rows[..k]), rows[k];
      WriteWordsSetsRegions(file, n, rows[..k]);
      NextRow(file, n, front, k, row);
    }
  }

  // ------------------------------------------------------------------ multiples of the alias count

  /** The next multiple. */
  lemma NextMultiple(x: nat, a: nat)
    requires a > 0 && x % a == 0
    ensures (x + a) % a == 0
  {
    assert x + a == a * (x / a + 1) + 0;
    ResidueIsUnique(x + a, a, x / a + 1, 0);
  }

  /** The greatest multiple of the alias count that is not above n. */
  function AlignDown(n: nat, aliases: nat): (r: nat)
    requires aliases > 0
    ensures r <= n < r + aliases && n == r + n % aliases
  {
    n - n % aliases
  }

  lemma AlignDownIsMultiple(n: nat, aliases: nat)
    requires aliases > 0
    ensures AlignDown(n, aliases) % aliases == 0
  {
    ResidueIsUnique(AlignDown(n, aliases), aliases, n / aliases, 0);
  }

  // ------------------------------------------------------------------ the mask

  /** The alias counts for which the loader's mask is meant: the powers of two up to the number of regions. */
  predicate PowerOfTwo(aliases: nat) {
    aliases in {1, 2, 4, 8, 16, 32, 64, 128, 256}
  }

  /** rnr & ~(aliases - 1), the mask written out for each alias count. */
  function Masked(rnr: bv32, aliases: nat): bv32
    requires PowerOfTwo(aliases)
  {
    if aliases == 1 then rnr & !(1 - 1)
    else if aliases == 2 then rnr & !(2 - 1)
    else if aliases == 4 then rnr & !(4 - 1)
    else if aliases == 8 then rnr & !(8 - 1)
    else if aliases == 16 then rnr & !(16 - 1)
    else if aliases == 32 then rnr & !(32 - 1)
    else if aliases == 64 then rnr & !(64 - 1)
    else if aliases == 128 then rnr & !(128 - 1)
    else rnr & !(256 - 1)
  }

  lemma MaskAt1(rnr: bv32, masked: bv32)
    requires rnr < 256 && masked == rnr & !(1 - 1)
    ensures masked as nat == AlignDown(rnr as nat, 1)
  {
  }

  lemma MaskAt2(rnr: bv32, masked: bv32)
    requires rnr < 256 && masked == rnr & !(2 - 1)
    ensures masked as nat == AlignDown(rnr as nat, 2)
  {
  }

  lemma MaskAt4(rnr: bv32, masked: bv32)
    requires rnr < 256 && masked == rnr & !(4 - 1)
    ensures masked as nat == AlignDown(rnr as nat, 4)
  {
  }

  lemma MaskAt8(rnr: bv32, masked: bv32)
    requires rnr < 256 && masked == rnr & !(8 - 1)
    ensures masked as nat == AlignDown(rnr as nat, 8)
  {
  }

  lemma MaskAt16(rnr: bv32, masked: bv32)
    requires rnr < 256 && masked == rnr & !(16 - 1)
    ensures masked as nat == AlignDown(rnr as nat, 16)
  {
  }

  lemma MaskAt32(rnr: bv32, masked: bv32)
    requires rnr < 256 && masked == rnr & !(32 - 1)
    ensures masked as nat == AlignDown(rnr as nat, 32)
  {
  }

  lemma MaskAt64(rnr: bv32, masked: bv32)
    requires rnr < 256 && masked == rnr & !(64 - 1)
    ensures masked as nat == AlignDown(rnr as nat, 64)
  {
  }

  lemma MaskAt128(rnr: bv32, masked: bv32)
    requires rnr < 256 && masked == rnr & !(128 - 1)
    ensures masked as nat == AlignDown(rnr as nat, 128)
  {
  }

  lemma MaskAt256(rnr: bv32, masked: bv32)
    requires rnr < 256 && masked == rnr & !(256 - 1)
    ensures masked as nat == AlignDown(rnr as nat, 256)
  {
  }

  /** On region numbers the mask rounds down to a multiple of the alias count, for every power of two. */
  lemma MaskRoundsDown(rnr: bv32, aliases: nat, masked: bv32)
    requires rnr < 256 && PowerOfTwo(aliases) && masked == Masked(rnr, aliases)
    ensures masked as nat == AlignDown(rnr as nat, aliases)
  {
    if aliases == 1 {
      MaskAt1(rnr, masked);
    } else if aliases == 2 {
      MaskAt2(rnr, masked);
    } else if aliases == 4 {
      MaskAt4(rnr, masked);
    } else if aliases == 8 {
      MaskAt8(rnr, masked);
    } else if aliases == 16 {
      MaskAt16(rnr, masked);
    } else if aliases == 32 {
      MaskAt32(rnr, masked);
    } else if aliases == 64 {
      MaskAt64(rnr, masked);
    } else if aliases == 128 {
      MaskAt128(rnr, masked);
    } else {
      MaskAt256(rnr, masked);
    }
  }

  // ------------------------------------------------------------------ the Armv8-M registers

  /** The region that the register pair RBAR_A<n>/RLAR_A<n> stands for; pair 0 is RBAR/RLAR itself. */
  function SelectedBy(rnr: nat, n: nat, aliases: nat): nat
    requires aliases > 0
  {
    if n == 0 then rnr else AlignDown(rnr, aliases) + n
  }

  /** An alias pair replaces the low bits of the region number, whatever these are; pair 0 uses the number itself. */
  lemma AliasPairs(rnr: nat, n: nat, aliases: nat)
    requires PowerOfTwo(aliases) && n < aliases
    ensures n == 0 ==> SelectedBy(rnr, n, aliases) == rnr
    ensures n > 0 ==> SelectedBy(rnr, n, aliases) / aliases == rnr / aliases && SelectedBy(rnr, n, aliases) % aliases == n
  {
    if n > 0 {
      QuotientAndRest(rnr, aliases);
      ResidueIsUnique(SelectedBy(rnr, n, aliases), aliases, rnr / aliases, n);
      QuotientIsUnique(SelectedBy(rnr, n, aliases), aliases, rnr / aliases, n);
    }
  }

  lemma QuotientAndRest(x: nat, a: nat)
    requires a > 0
    ensures AlignDown(x, a) == a * (x / a)
  {
  }

  lemma QuotientIsUnique(a: int, m: nat, q: int, r: int)
    requires m > 0 && a == m * q + r && 0 <= r < m
    ensures a / m == q
  {
    ResidueIsUnique(a, m, q, r);
    assert m * (a / m) == m * q;
    SameFactor(m, a / m, q);
  }

  lemma SameFactor(m: nat, x: int, y: int)
    requires m > 0 && m * x == m * y
    ensures x == y
  {
    MultipleIsZeroOrFar(m, x - y);
    assert m * (x - y) == m * x - m * y;
  }

  /** The m register pairs from n on stand for the m regions from base on. */
  predicate Consecutive(rnr: nat, aliases: nat, n: nat, m: nat, base: nat)
    requires aliases > 0
  {
    forall j :: n <= j < n + m ==> SelectedBy(rnr, j, aliases) == base + (j - n)
  }

  /** They do if RNR is a multiple of the alias count, or if only RBAR and RLAR themselves are used. */
  lemma PairsAreConsecutive(rnr: nat, aliases: nat, n: nat, m: nat)
    requires aliases > 0 && (rnr % aliases == 0 || (n == 0 && m <= 1))
    ensures Consecutive(rnr, aliases, n, m, SelectedBy(rnr, n, aliases))
  {
  }

  /** The registers of an Armv8-M MPU that the loader touches. */
  class Mpu {
    const aliases: nat
    var rnr: nat
    var regions: seq<Region>

    ghost predicate Valid()
      reads this
    {
      PowerOfTwo(aliases)
    }

    constructor (aliases: nat, regions: seq<Region>)
      requires PowerOfTwo(aliases)
      ensures Valid() && this.aliases == aliases && this.regions == regions
    {
      this.aliases := aliases;
      this.regions := regions;
      rnr := 0;
    }

    function Selected(n: nat): nat
      requires aliases > 0
      reads this`rnr
    {
      SelectedBy(rnr, n, aliases)
    }

    /**
     A store to the word at offset k from the register pair n. Only the alias window may be written. An even
     offset changes the base and an odd one the limit of the region that the pair stands for, and no other.
     */
    method WriteWord(n: nat, k: nat, value: bv32)
      requires Valid() && n + k / 2 < aliases && Selected(n + k / 2) < |regions|
      modifies this`regions
      ensures |regions| == |old(regions)|
      ensures forall r | 0 <= r < |regions| && r != Selected(n + k / 2) :: regions[r] == old(regions)[r]
      ensures var r := Selected(n + k / 2);
              if k % 2 == 0 then regions[r].rbar == value && regions[r].rlar == old(regions)[r].rlar
              else regions[r].rbar == old(regions)[r].rbar && regions[r].rlar == value
    {
      regions := Store(regions, Selected(n + k / 2), k % 2, value);
    }

    method SetRegionEx(n: nat, row: Region)
      requires Valid() && n < |regions|
      modifies this
      ensures Valid() && rnr == n && regions == SetRegion(old(regions), n, row)
    {
      ghost var before := regions;
      rnr := n;
      WriteWord(0, 0, row.rbar);
      WriteWord(0, 1, row.rlar);
      assert regions[n] == row && regions == before[n := row];
    }

    /** orderedCpy to the register pair n. The words must stay inside the alias window. */
    method OrderedCpy(n: nat, src: seq<bv32>, len: nat, ghost base: nat)
      requires Valid() && len == |src| && len % 2 == 0
      requires n + len / 2 <= aliases && base + len / 2 <= |regions|
      requires Consecutive(rnr, aliases, n, len / 2, base)
      modifies this`regions
      ensures regions == WriteWords(old(regions), base, src)
    {
      var i := 0;
      while i < len
        invariant 0 <= i <= len
        invariant regions == WriteWords(old(regions), base, src[..i])
      {
        assert Selected(n + i / 2) == base + i / 2;
        ghost var before := regions;
        WriteWord(n, i, src[i]);
        assert regions == Store(before, base + i / 2, i % 2, src[i]);
        WriteNextWord(old(regions), base, src, i);
        i := i + 1;
      }
      assert src[..len] == src;
    }

    /** A chunk of the table goes to consecutive regions. */
    method CopyRows(n: nat, rows: seq<Region>)
      requires Valid() && n + |rows| <= aliases && Selected(n) + |rows| <= |regions|
      requires rnr % aliases == 0 || (n == 0 && |rows| <= 1)
      modifies this`regions
      ensures regions == SetRegions(old(regions), Selected(n), rows)
    {
      PairsAreConsecutive(rnr, aliases, n, |rows|);
      WriteWordsSetsRegions(regions, Selected(n), rows);
      OrderedCpy(n, Words(rows), 2 * |rows|, Selected(n));
    }

    /** One chunk: the next c rows of the table go to the pairs from n on. */
    method CopyChunk(n: nat, table: seq<Region>, done: nat, c: nat, ghost before: seq<Region>, ghost first: nat)
      requires Valid() && n + c <= aliases && rnr % aliases == 0
      requires done + c <= |table| && Selected(n) == first + done && first + done + c <= |before|
      requires regions == SetRegions(before, first, table[..done])
      modifies this`regions
      ensures regions == SetRegions(before, first, table[..done + c])
    {
      CopyRows(n, table[done..done + c]);
      SetNextRows(before, first, table, done, c);
    }

    /** The chunks of ARM_MPU_LoadEx, from the multiple of the alias count that `number` was rounded down to. */
    method LoadChunks(base: nat, offset: nat, table: seq<Region>, cnt: nat)
      requires Valid() && cnt <= |table| && base + offset + cnt <= |regions|
      requires base % aliases == 0 && offset < aliases
      modifies this
      ensures Valid()
      ensures regions == SetRegions(old(regions), base + offset, table[..cnt])
    {
      ghost var first := base + offset;
      var rnrBase, rnrOffset := base, offset;
      var done, left := 0, cnt;
      rnr := rnrBase;
      while rnrOffset + left > aliases
        invariant 0 <= done && 0 <= left && done + left == cnt && 0 <= rnrOffset < aliases
        invariant rnr == rnrBase && rnrBase % aliases == 0 && rnrBase + rnrOffset == first + done
        invariant regions == SetRegions(old(regions), first, table[..done])
        decreases left
      {
        var c := aliases - rnrOffset;
        CopyChunk(rnrOffset, table, done, c, old(regions), first);
        NextMultiple(rnrBase, aliases);
        done, left := done + c, left - c;
        rnrOffset := 0;
        rnrBase := rnrBase + aliases;
        rnr := rnrBase;
      }
      CopyChunk(rnrOffset, table, done, left, old(regions), first);
    }

    /** ARM_MPU_LoadEx. A region number has eight bits. */
    method LoadEx(number: bv32, table: seq<Region>, cnt: nat)
      requires Valid() && cnt <= |table| && number < 256 && number as nat + cnt <= |regions|
      modifies this
      ensures Valid()
      ensures regions == SetRegions(old(regions), number as nat, table[..cnt])
    {
      if cnt == 1 {
        rnr := number as nat;
        CopyRows(0, table[..1]);
      } else {
        var masked := Masked(number, aliases);
        MaskRoundsDown(number, aliases, masked);
        AlignDownIsMultiple(number as nat, aliases);
        LoadChunks(masked as nat, number as nat % aliases, table, cnt);
      }
    }
  }
}
