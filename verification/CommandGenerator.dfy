/**
 The command generator of the server. The C library's rand() is a parameter: `rand(k)` is the value of
 draw number k after seeding, so every statement holds for every sequence of random values.
 */
module CommandGenerator {
  import opened Arithmetic
  import opened Basics

  const TIMER := 1
  const UART := 2
  const SPI := 4
  const I2C := 8
  const ADC := 16
  const PERIPHERALS: seq<nat> := [TIMER, UART, SPI, I2C, ADC]

  const ID_SPAN := 0x1_0000_0000
  const PATTERN_MAX_LEN := 255
  const MIN_ITERATIONS := 10
  const MAX_ITERATIONS := 255
  const MIN_PATTERN_LEN := 50

  datatype Command = Command(testId: nat, peripheral: nat, iterations: nat, patternLen: nat, pattern: seq<nat>)

  /**
   command_generator_random_range: unsigned arithmetic on 32 bits, then a cast to a byte. The modulus is
   zero, and the C division undefined, exactly when min is max + 1.
   */
  function RandomRange(min: nat, max: nat, draw: nat): (r: nat)
    requires min <= 255 && max <= 255 && min != max + 1
    ensures r < 256 && (min <= max ==> min <= r <= max)
    ensures min <= max ==> r - min == draw % (max - min + 1)
  {
    (min + draw % Choices(min, max)) % 256
  }

  /** (max - min) + 1U: a negative difference wraps. */
  function Choices(min: nat, max: nat): (n: nat)
    requires min <= 255 && max <= 255 && min != max + 1
    ensures 0 < n < 0x1_0000_0000 && (n + min) % 0x1_0000_0000 == max + 1
  {
    if min <= max + 1 then max - min + 1 else ID_SPAN - (min - max - 1)
  }

  /** Every value of the range can be drawn. */
  lemma RandomRangeIsOnto(min: nat, max: nat, value: nat)
    requires min <= value <= max <= 255
    ensures RandomRange(min, max, value - min) == value
  {
    ResidueIsUnique(value - min, max - min + 1, 0, value - min);
    ResidueIsUnique(value, 256, 0, value);
  }

  /** The generator's statics, and the number of random values drawn so far. */
  datatype State = State(nextTestId: nat, peripheralIndex: nat, draws: nat)

  const INITIAL := State(1, 0, 0)

  predicate InRange(s: State) {
    s.nextTestId < ID_SPAN && s.peripheralIndex < |PERIPHERALS|
  }

  predicate TakesPattern(peripheral: nat) {
    peripheral == UART || peripheral == SPI || peripheral == I2C
  }

  function PatternLenOf(s: State, rand: nat -> nat): (n: nat)
    requires InRange(s)
    ensures PERIPHERALS[s.peripheralIndex] in {1, 16} ==> n == 0
    ensures PERIPHERALS[s.peripheralIndex] in {2, 4, 8} ==> 50 <= n <= 255 && n == 50 + rand(s.draws + 1) % 206
  {
    if TakesPattern(PERIPHERALS[s.peripheralIndex])
    then RandomRange(MIN_PATTERN_LEN, PATTERN_MAX_LEN, rand(s.draws + 1))
    else 0
  }

  /** Draws consumed by one command: the iterations, and for a pattern its length and its bytes. */
  function DrawsOf(s: State, rand: nat -> nat): nat
    requires InRange(s)
  {
    if TakesPattern(PERIPHERALS[s.peripheralIndex]) then 2 + PatternLenOf(s, rand) else 1
  }

  function Advanced(s: State, rand: nat -> nat): (t: State)
    requires InRange(s)
    ensures InRange(t)
  {
    State((s.nextTestId + 1) % ID_SPAN, (s.peripheralIndex + 1) % |PERIPHERALS|, s.draws + DrawsOf(s, rand))
  }

  /** The command that a state produces: the drawn bytes first, then zeros up to the array's end. */
  predicate IsNextCommand(c: Command, s: State, rand: nat -> nat)
    requires InRange(s)
  {
    && c.testId == s.nextTestId
    && c.peripheral == PERIPHERALS[s.peripheralIndex]
    && c.iterations == RandomRange(MIN_ITERATIONS, MAX_ITERATIONS, rand(s.draws))
    && c.patternLen == PatternLenOf(s, rand)
    && |c.pattern| == PATTERN_MAX_LEN
    && (forall i :: 0 <= i < c.patternLen ==> c.pattern[i] == rand(s.draws + 2 + i) % 256)
    && (forall i :: c.patternLen <= i < PATTERN_MAX_LEN ==> c.pattern[i] == 0)
  }

  /** main draws the delay before the next command from the same random numbers. */
  function AfterRound(s: State, rand: nat -> nat): (t: State)
    requires InRange(s)
    ensures InRange(t)
  {
    var t := Advanced(s, rand);
    t.(draws := t.draws + 1)
  }

  /** The fields of the next command, and the draws that it takes, number by number. */
  lemma NextCommandInNumbers(c: Command, s: State, rand: nat -> nat)
    requires InRange(s) && IsNextCommand(c, s, rand)
    ensures c.testId == s.nextTestId < 0x1_0000_0000
    ensures s.peripheralIndex < 5 && c.peripheral == [1, 2, 4, 8, 16][s.peripheralIndex]
    ensures 10 <= c.iterations <= 255 && c.iterations == 10 + rand(s.draws) % 246
    ensures c.peripheral in {1, 16} ==> c.patternLen == 0 && Advanced(s, rand).draws == s.draws + 1
    ensures c.peripheral in {2, 4, 8} ==>
              c.patternLen == 50 + rand(s.draws + 1) % 206 && Advanced(s, rand).draws == s.draws + 2 + c.patternLen
    ensures |c.pattern| == 255 && forall i :: 0 <= i < 255 ==>
              c.pattern[i] == if i < c.patternLen then rand(s.draws + 2 + i) % 256 else 0
  {
  }

  class Generator {
    const rand: nat -> nat
    var nextTestId: nat
    var peripheralIndex: nat
    var draws: nat

    function View(): State
      reads this
    {
      State(nextTestId, peripheralIndex, draws)
    }

    ghost predicate Valid()
      reads this
    {
      InRange(View())
    }

    /** command_generator_init. */
    constructor (rand: nat -> nat)
      ensures Valid() && View() == State(1, 0, 0) && this.rand == rand
    {
      this.rand := rand;
      nextTestId, peripheralIndex, draws := 1, 0, 0;
    }

    method RandomByte(min: nat, max: nat) returns (r: nat)
      requires min <= max <= 255
      modifies this`draws
      ensures r == RandomRange(min, max, rand(old(draws))) && draws == old(draws) + 1
    {
      r := RandomRange(min, max, rand(draws));
      draws := draws + 1;
    }

    /** Takes the current peripheral and moves on, from the last one back to the first. */
    method NextPeripheral() returns (peripheral: nat)
      requires peripheralIndex < |PERIPHERALS|
      modifies this`peripheralIndex
      ensures peripheral == PERIPHERALS[old(peripheralIndex)]
      ensures peripheralIndex == (old(peripheralIndex) + 1) % |PERIPHERALS|
    {
      peripheral := PERIPHERALS[peripheralIndex];
      peripheralIndex := peripheralIndex + 1;
      if peripheralIndex >= |PERIPHERALS| {
        peripheralIndex := 0;
      }
    }

    /** The loop that ends command_generator_build_next, over the array cleared at its start. */
    method FillPattern(patternLen: nat) returns (pattern: seq<nat>)
      requires patternLen <= PATTERN_MAX_LEN
      modifies this`draws
      ensures draws == old(draws) + patternLen
      ensures |pattern| == PATTERN_MAX_LEN
      ensures forall j :: 0 <= j < patternLen ==> pattern[j] == rand(old(draws) + j) % 256
      ensures forall j :: patternLen <= j < PATTERN_MAX_LEN ==> pattern[j] == 0
    {
      pattern := seq(PATTERN_MAX_LEN, i => 0);
      var i := 0;
      while i < patternLen
        invariant 0 <= i <= patternLen
        invariant draws == old(draws) + i
        invariant |pattern| == PATTERN_MAX_LEN
        invariant forall j :: 0 <= j < i ==> pattern[j] == rand(old(draws) + j) % 256
        invariant forall j :: i <= j < PATTERN_MAX_LEN ==> pattern[j] == 0
      {
        pattern := pattern[i := rand(draws) % 256];
        draws := draws + 1;
        i := i + 1;
      }
    }

    /** command_generator_build_next; `wanted` is false for a null pointer. */
    method BuildNext(wanted: bool) returns (command: Option<Command>)
      requires Valid()
      modifies this
      ensures Valid()
      ensures command.Some? <==> wanted
      ensures wanted ==> IsNextCommand(command.value, old(View()), rand)
      ensures View() == if wanted then Advanced(old(View()), rand) else old(View())
    {
      if !wanted {
        return None;
      }
      var testId := nextTestId;
      nextTestId := (nextTestId + 1) % ID_SPAN;
      var peripheral := NextPeripheral();
      var iterations := RandomByte(MIN_ITERATIONS, MAX_ITERATIONS);
      var patternLen := 0;
      if TakesPattern(peripheral) {
        patternLen := RandomByte(MIN_PATTERN_LEN, PATTERN_MAX_LEN);
      }
      var pattern := FillPattern(patternLen);
      command := Some(Command(testId, peripheral, iterations, patternLen, pattern));
    }
  }

  // ------------------------------------------------------------------ whole runs

  /** The state before command number k. */
  function StateBefore(k: nat, rand: nat -> nat): (s: State)
    ensures InRange(s)
  {
    if k == 0 then INITIAL else AfterRound(StateBefore(k - 1, rand), rand)
  }

  function IdOf(k: nat, rand: nat -> nat): nat {
    StateBefore(k, rand).nextTestId
  }

  function PeripheralOf(k: nat, rand: nat -> nat): nat {
    PERIPHERALS[StateBefore(k, rand).peripheralIndex]
  }

  /** Command number k carries id k + 1 modulo 2^32 and entry k modulo 5 of the list. */
  lemma {:induction false} NthCommand(k: nat, rand: nat -> nat)
    ensures IdOf(k, rand) == (k + 1) % 0x1_0000_0000
    ensures StateBefore(k, rand).peripheralIndex == k % 5 && PeripheralOf(k, rand) == [1, 2, 4, 8, 16][k % 5]
  {
    if k > 0 {
      NthCommand(k - 1, rand);
      SuccessorResidue(k, ID_SPAN);
      SuccessorResidue(k - 1, |PERIPHERALS|);
    }
  }

  /** Any 2^32 consecutive commands carry distinct ids, and the next one repeats the first. */
  lemma IdsRepeatExactlyAfterSpan(j: nat, k: nat, rand: nat -> nat)
    requires j < k <= j + ID_SPAN
    ensures IdOf(j, rand) == IdOf(k, rand) <==> k == j + ID_SPAN
  {
    NthCommand(j, rand);
    NthCommand(k, rand);
    DistinctResidues(j + 1, k + 1);
  }

  lemma DistinctResidues(a: nat, b: nat)
    requires a < b <= a + ID_SPAN
    ensures a % ID_SPAN == b % ID_SPAN <==> b == a + ID_SPAN
  {
  }

  /** The place in a window of five commands at which an entry of the list comes up. */
  function TurnOf(start: nat, entry: nat): (k: nat)
    requires entry < |PERIPHERALS|
    ensures start <= k < start + |PERIPHERALS|
  {
    start + (entry - start) % |PERIPHERALS|
  }

  /** Any five consecutive commands test every peripheral exactly once. */
  lemma EveryWindowCoversOnce(start: nat, entry: nat, k: nat, rand: nat -> nat)
    requires entry < |PERIPHERALS| && start <= k < start + |PERIPHERALS|
    ensures PeripheralOf(k, rand) == PERIPHERALS[entry] <==> k == TurnOf(start, entry)
  {
    NthCommand(k, rand);
    TurnIsUnique(start, entry, k);
    PeripheralsAreDistinct(k % |PERIPHERALS|, entry);
  }

  lemma TurnIsUnique(start: nat, entry: nat, k: nat)
    requires entry < 5 && start <= k < start + 5
    ensures k % 5 == entry <==> k == start + (entry - start) % 5
  {
  }

  lemma PeripheralsAreDistinct(i: nat, j: nat)
    requires i < |PERIPHERALS| && j < |PERIPHERALS|
    ensures PERIPHERALS[i] == PERIPHERALS[j] <==> i == j
  {
  }

  /** Over the first 2^32 - 1 commands no id is repeated and none is zero. */
  lemma IdsOfFirstRun(k: nat, rand: nat -> nat)
    ensures k + 1 < ID_SPAN ==> IdOf(k, rand) == k + 1
    ensures k + 1 == ID_SPAN ==> IdOf(k, rand) == 0
  {
    NthCommand(k, rand);
  }
}
