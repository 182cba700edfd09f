/** Seeds of the simulation's random streams: SplitMix64 on 64-bit words.

    `DeriveSeed` is a chain of steps; each has its inverse below, so the whole chain has one. */
module RandomSeed {

  function Offset(masterSeed: bv64, x: bv64): bv64 { masterSeed + x }
  function Successor(x: bv64): bv64 { x + 1 }
  function TimesGamma(x: bv64): bv64 { x * 0x9e3779b97f4a7c15 }
  function TimesFirst(x: bv64): bv64 { x * 0xbf58476d1ce4e5b9 }
  function TimesSecond(x: bv64): bv64 { x * 0x94d049bb133111eb }
  function XorShift30(x: bv64): bv64 { x ^ (x >> 30) }
  function XorShift27(x: bv64): bv64 { x ^ (x >> 27) }
  function XorShift31(x: bv64): bv64 { x ^ (x >> 31) }

  /** The seed of one stream. */
  function DeriveSeed(masterSeed: bv64, streamId: bv64): bv64 {
    var start := Offset(masterSeed, TimesGamma(Successor(streamId)));
    var first := TimesFirst(XorShift30(start));
    var second := TimesSecond(XorShift27(first));
    XorShift31(second)
  }

  // ---------- every step undone ----------

  function OverGamma(y: bv64): bv64 { y * 0xf1de83e19937733d }
  function OverFirst(y: bv64): bv64 { y * 0x96de1b173f119089 }
  function OverSecond(y: bv64): bv64 { y * 0x319642b2d24d8ec3 }
  function UndoShift30(y: bv64): bv64 { y ^ (y >> 30) ^ (y >> 60) }
  function UndoShift27(y: bv64): bv64 { y ^ (y >> 27) ^ (y >> 54) }
  function UndoShift31(y: bv64): bv64 { y ^ (y >> 31) ^ (y >> 62) }
  function Predecessor(y: bv64): bv64 { y - 1 }
  function Unoffset(masterSeed: bv64, y: bv64): bv64 { y - masterSeed }

  /** The stream a seed belongs to. */
  function StreamOf(masterSeed: bv64, seed: bv64): bv64 {
    var first := OverSecond(UndoShift31(seed));
    var start := OverFirst(UndoShift27(first));
    Predecessor(OverGamma(Unoffset(masterSeed, UndoShift30(start))))
  }

  // The multipliers are odd, and the product of each pair is 1 modulo 2^64.

  lemma {:induction false} OverProducts(x: bv64)
    ensures OverGamma(x * 0x9e3779b97f4a7c15) == x
    ensures OverFirst(x * 0xbf58476d1ce4e5b9) == x
    ensures OverSecond(x * 0x94d049bb133111eb) == x
  {
  }

  lemma {:induction false} TimesQuotients(x: bv64)
    ensures TimesGamma(x * 0xf1de83e19937733d) == x
    ensures TimesFirst(x * 0x96de1b173f119089) == x
    ensures TimesSecond(x * 0x319642b2d24d8ec3) == x
  {
  }

  lemma {:induction false} ShiftsUndone(x: bv64)
    ensures UndoShift30(x ^ (x >> 30)) == x && UndoShift27(x ^ (x >> 27)) == x && UndoShift31(x ^ (x >> 31)) == x
    ensures XorShift30(x ^ (x >> 30) ^ (x >> 60)) == x
    ensures XorShift27(x ^ (x >> 27) ^ (x >> 54)) == x
    ensures XorShift31(x ^ (x >> 31) ^ (x >> 62)) == x
  {
  }

  lemma {:induction false} MultiplicationsInvert(x: bv64)
    ensures OverGamma(TimesGamma(x)) == x && OverFirst(TimesFirst(x)) == x && OverSecond(TimesSecond(x)) == x
  {
    OverProducts(x);
    hide OverGamma;
    hide OverFirst;
    hide OverSecond;
  }

  lemma {:induction false} DivisionsInvert(x: bv64)
    ensures TimesGamma(OverGamma(x)) == x && TimesFirst(OverFirst(x)) == x && TimesSecond(OverSecond(x)) == x
  {
    TimesQuotients(x);
    hide TimesGamma;
    hide TimesFirst;
    hide TimesSecond;
  }

  lemma {:induction false} ShiftsInvert(x: bv64)
    ensures UndoShift30(XorShift30(x)) == x && UndoShift27(XorShift27(x)) == x && UndoShift31(XorShift31(x)) == x
  {
    ShiftsUndone(x);
    hide UndoShift30;
    hide UndoShift27;
    hide UndoShift31;
  }

  lemma {:induction false} UndosInvert(x: bv64)
    ensures XorShift30(UndoShift30(x)) == x && XorShift27(UndoShift27(x)) == x && XorShift31(UndoShift31(x)) == x
  {
    ShiftsUndone(x);
    hide XorShift30;
    hide XorShift27;
    hide XorShift31;
  }

  lemma {:induction false} SumsInvert(masterSeed: bv64, x: bv64)
    ensures Unoffset(masterSeed, Offset(masterSeed, x)) == x && Predecessor(Successor(x)) == x
    ensures Offset(masterSeed, Unoffset(masterSeed, x)) == x && Successor(Predecessor(x)) == x
  {
  }

  /** For a fixed master seed, every seed leads back to its stream. */
  lemma {:induction false} StreamOfSeed(masterSeed: bv64, streamId: bv64)
    ensures StreamOf(masterSeed, DeriveSeed(masterSeed, streamId)) == streamId
  {
    hide Offset; hide Successor; hide TimesGamma; hide TimesFirst; hide TimesSecond;
    hide XorShift30; hide XorShift27; hide XorShift31;
    hide OverGamma; hide OverFirst; hide OverSecond; hide UndoShift30; hide UndoShift27; hide UndoShift31;
    hide Predecessor; hide Unoffset;
    var product := TimesGamma(Successor(streamId));
    var start := Offset(masterSeed, product);
    var first := TimesFirst(XorShift30(start));
    var second := TimesSecond(XorShift27(first));
    ShiftsInvert(second);
    MultiplicationsInvert(XorShift27(first));
    ShiftsInvert(first);
    MultiplicationsInvert(XorShift30(start));
    ShiftsInvert(start);
    SumsInvert(masterSeed, product);
    MultiplicationsInvert(Successor(streamId));
    SumsInvert(masterSeed, streamId);
  }

  /** Every 64-bit word is the seed of some stream. */
  lemma {:induction false} SeedOfStream(masterSeed: bv64, seed: bv64)
    ensures DeriveSeed(masterSeed, StreamOf(masterSeed, seed)) == seed
  {
    hide Offset; hide Successor; hide TimesGamma; hide TimesFirst; hide TimesSecond;
    hide XorShift30; hide XorShift27; hide XorShift31;
    hide OverGamma; hide OverFirst; hide OverSecond; hide UndoShift30; hide UndoShift27; hide UndoShift31;
    hide Predecessor; hide Unoffset;
    var second := UndoShift31(seed);
    var first := UndoShift27(OverSecond(second));
    var start := UndoShift30(OverFirst(first));
    var product := Unoffset(masterSeed, start);
    SumsInvert(masterSeed, OverGamma(product));
    DivisionsInvert(product);
    SumsInvert(masterSeed, start);
    UndosInvert(OverFirst(first));
    DivisionsInvert(first);
    UndosInvert(OverSecond(second));
    DivisionsInvert(second);
    UndosInvert(seed);
  }

  /** Different streams get different seeds, over all 64-bit words. */
  lemma {:induction false} SeedsAreDistinct(masterSeed: bv64, a: bv64, b: bv64)
    ensures DeriveSeed(masterSeed, a) == DeriveSeed(masterSeed, b) <==> a == b
  {
    StreamOfSeed(masterSeed, a);
    StreamOfSeed(masterSeed, b);
    hide StreamOf;
    hide DeriveSeed;
  }

  /** The published outputs of SplitMix64 from state 0. */
  lemma {:induction false} KnownOutputs()
    ensures DeriveSeed(0, 0) == 0xe220a8397b1dcdaf
    ensures DeriveSeed(0, 1) == 0x6e789e6aa1b965f4
    ensures DeriveSeed(0, 2) == 0x06c45d188009454f
  {
  }
}
