/**
 * 64-bit identifiers: a 6-bit id type in the top bits, a 41-bit
 * millisecond clock shifted left by 17, and the low 16 bits of a per-type
 * counter. The clock is a parameter; all arithmetic wraps at 2^64.
 */
module IdGen {
  import opened Arith

  const Pow16: nat := 0x1_0000
  const Pow17: nat := 0x2_0000
  const Pow41: nat := 0x200_0000_0000
  const Pow58: nat := 0x400_0000_0000_0000
  const Pow64: nat := 0x1_0000_0000_0000_0000

  datatype IdType = RequestId | AlgoOrderId | OrderId | TradeId | MessageSequenceId | SignalId

  function Tag(t: IdType): (r: nat)
    ensures r < 64
  {
    match t
    case RequestId => 0
    case AlgoOrderId => 1
    case OrderId => 2
    case TradeId => 3
    case MessageSequenceId => 4
    case SignalId => 5
  }

  lemma TagInjective(a: IdType, b: IdType)
    ensures Tag(a) == Tag(b) ==> a == b
  {
  }

  /** One generator per id type; the counter is a 64-bit atomic that starts at 0. */
  datatype Generator = Generator(idType: IdType, uid: nat)

  function NewGenerator(t: IdType): (g: Generator)
    ensures g.idType == t && g.uid == 0
  {
    Generator(t, 0)
  }

  predicate Valid(g: Generator) { g.uid < Pow64 }

  /** Issues one id at clock value now (milliseconds) and advances the counter. */
  function NewId(g: Generator, now: nat): (res: (Generator, nat))
    requires Valid(g)
    ensures Valid(res.0) && res.0.idType == g.idType
    ensures res.0.uid == (g.uid + 1) % Pow64
    ensures res.1 < Pow64
    ensures res.1 % Pow16 == g.uid % Pow16
    ensures res.1 % Pow17 < Pow16
  {
    var low := g.uid % Pow16;
    var id := (Tag(g.idType) * Pow58 + now * Pow17 + low) % Pow64;
    ModOfMultipleSum(Tag(g.idType) * Pow58 + now * Pow17, low, (Tag(g.idType) * Pow4 + now) , id);
    (Generator(g.idType, (g.uid + 1) % Pow64), id)
  }

  const Pow4: nat := Pow58 / Pow17

  /** Dropping multiples of 2^64 (a multiple of 2^17) keeps the low 17 bits. */
  lemma ModOfMultipleSum(hi: nat, low: nat, k: nat, id: nat)
    requires low < Pow16
    requires hi == k * Pow17
    requires id == (hi + low) % Pow64
    ensures id % Pow17 == low
    ensures id % Pow16 == low
  {
    var q := (hi + low) / Pow64;
    assert Pow64 == Pow17 * (Pow64 / Pow17);
    assert id == hi + low - q * Pow64;
    assert id == (k - q * (Pow64 / Pow17)) * Pow17 + low;
    DivModUnique(id, Pow17, k - q * (Pow64 / Pow17), low);
    assert Pow17 == Pow16 * 2;
    assert id == ((k - q * (Pow64 / Pow17)) * 2) * Pow16 + low;
    DivModUnique(id, Pow16, (k - q * (Pow64 / Pow17)) * 2, low);
  }

  /**
   * While the clock is below 2^41 nothing wraps: the top bits give back the
   * id type and the middle 41 bits give back the clock.
   */
  lemma DecodeId(g: Generator, now: nat)
    requires Valid(g)
    requires now < Pow41
    ensures NewId(g, now).1 / Pow58 == Tag(g.idType)
    ensures (NewId(g, now).1 / Pow17) % Pow41 == now
  {
    var low := g.uid % Pow16;
    var tag := Tag(g.idType);
    var raw := tag * Pow58 + now * Pow17 + low;
    assert now * Pow17 + low < Pow58;
    assert raw < Pow64;
    assert NewId(g, now).1 == raw;
    DivModUnique(raw, Pow58, tag, now * Pow17 + low);
    DivModUnique(raw, Pow17, tag * Pow41 + now, low);
    DivModUnique(tag * Pow41 + now, Pow41, tag, now);
  }

  /** Ids of different types never collide while the clock is below 2^41. */
  lemma TypesNeverCollide(g1: Generator, g2: Generator, now1: nat, now2: nat)
    requires Valid(g1) && Valid(g2)
    requires now1 < Pow41 && now2 < Pow41
    requires g1.idType != g2.idType
    ensures NewId(g1, now1).1 != NewId(g2, now2).1
  {
    DecodeId(g1, now1);
    DecodeId(g2, now2);
    TagInjective(g1.idType, g2.idType);
  }
}
