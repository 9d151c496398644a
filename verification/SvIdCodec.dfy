/** Blacklisted satellites as lists of ids and as 64-bit masks (gps/gnss/GnssAdapter.cpp). */
module SvIdCodec {

  datatype Constellation = Glonass | Beidou | Qzss | Galileo | Unsupported

  datatype Source = Source(constellation: Constellation, svId: nat)

  datatype Config = Config(glo: nat, bds: nat, qzss: nat, gal: nat)

  const CLEARED := Config(0, 0, 0, 0)
  const ALL_BITS: nat := 0xFFFF_FFFF_FFFF_FFFF

  function Initial(c: Constellation): nat {
    match c
    case Glonass => 65
    case Beidou => 201
    case Qzss => 193
    case Galileo => 301
    case Unsupported => 0
  }

  function MaskOf(config: Config, c: Constellation): nat {
    match c
    case Glonass => config.glo
    case Beidou => config.bds
    case Qzss => config.qzss
    case Galileo => config.gal
    case Unsupported => 0
  }

  // ---------- bits of a number ----------

  predicate Bit(m: nat, k: nat) {
    if k == 0 then m % 2 == 1 else Bit(m / 2, k - 1)
  }

  /** The bitwise or of the two numbers. */
  function Or(a: nat, b: nat): nat {
    if a == 0 && b == 0 then 0 else 2 * Or(a / 2, b / 2) + if a % 2 == 1 || b % 2 == 1 then 1 else 0
  }

  function Shifted(m: nat, n: nat): nat {
    if n == 0 then m else 2 * Shifted(m, n - 1)
  }

  function Ones(n: nat): nat {
    if n == 0 then 0 else 2 * Ones(n - 1) + 1
  }

  lemma {:induction false} BitOfOr(a: nat, b: nat, k: nat)
    ensures Bit(Or(a, b), k) <==> Bit(a, k) || Bit(b, k)
  {
    if a == 0 && b == 0 {
      BitOfZero(k);
    } else if k > 0 {
      BitOfOr(a / 2, b / 2, k - 1);
    }
  }

  lemma {:induction false} BitOfZero(k: nat)
    ensures !Bit(0, k)
  {
    if k > 0 {
      BitOfZero(k - 1);
    }
  }

  lemma {:induction false} BitOfShifted(m: nat, n: nat, k: nat)
    ensures Bit(Shifted(m, n), k) <==> k >= n && Bit(m, k - n)
  {
    if n > 0 && k > 0 {
      BitOfShifted(m, n - 1, k - 1);
    }
  }

  lemma {:induction false} BitOfOnes(n: nat, k: nat)
    ensures Bit(Ones(n), k) <==> k < n
  {
    if n == 0 {
      BitOfZero(k);
    } else if k > 0 {
      BitOfOnes(n - 1, k - 1);
    }
  }

  /** A number is determined by its bits. */
  lemma {:induction false} SameBits(a: nat, b: nat)
    requires forall k: nat :: Bit(a, k) <==> Bit(b, k)
    ensures a == b
    decreases a + b
  {
    if a > 0 || b > 0 {
      assert Bit(a, 0) <==> Bit(b, 0);
      forall k: nat ensures Bit(a / 2, k) <==> Bit(b / 2, k) {
        assert Bit(a, k + 1) <==> Bit(b, k + 1);
      }
      SameBits(a / 2, b / 2);
    }
  }

  /** What 1 << offset, computed in a 32-bit int, contributes to a 64-bit mask: bit 31 is the
      sign and is extended; from 32 on the result is whatever the compiler makes of it. */
  function One(offset: nat, undefined: nat -> nat): nat {
    if offset < 31 then Shifted(1, offset)
    else if offset == 31 then Shifted(Ones(64 - offset), offset)
    else undefined(offset)
  }

  lemma BitOfOne(offset: nat, undefined: nat -> nat, k: nat)
    requires offset < 32
    ensures Bit(One(offset, undefined), k) <==> k == offset || (offset == 31 && 31 < k < 64)
  {
    if offset < 31 {
      BitOfShifted(1, offset, k);
      if k > offset {
        BitOfZero(k - offset - 1);
      }
    } else {
      BitOfShifted(Ones(64 - offset), offset, k);
      if k >= offset {
        BitOfOnes(64 - offset, k - offset);
      }
    }
  }

  lemma {:induction false} OnesOfSum(m: nat, n: nat)
    ensures Ones(m + n) + 1 == (Ones(m) + 1) * (Ones(n) + 1)
  {
    if m > 0 {
      OnesOfSum(m - 1, n);
      assert Ones(m) + 1 == 2 * (Ones(m - 1) + 1);
      DoubledProduct(Ones(m - 1) + 1, Ones(n) + 1);
    }
  }

  lemma DoubledProduct(a: nat, b: nat)
    ensures 2 * (a * b) == (2 * a) * b
  {
  }

  lemma OnesDoubled(n: nat, value: nat)
    requires Ones(n) == value
    ensures Ones(n + n) == value * (value + 2)
  {
    OnesOfSum(n, n);
    assert (value + 1) * (value + 1) == value * (value + 2) + 1;
  }

  lemma Ones32()
    ensures Ones(32) == 0xFFFF_FFFF
  {
    assert Ones(2) == 3;
    OnesDoubled(2, 3);
    OnesDoubled(4, 0xF);
    OnesDoubled(8, 0xFF);
    OnesDoubled(16, 0xFFFF);
  }

  lemma AllOnes()
    ensures Ones(64) == ALL_BITS
  {
    Ones32();
    OnesDoubled(32, 0xFFFF_FFFF);
  }

  lemma AllBits(k: nat)
    ensures Bit(ALL_BITS, k) <==> k < 64
  {
    AllOnes();
    BitOfOnes(64, k);
  }

  // ---------- from ids to masks ----------

  predicate InRange(s: Source) {
    s.constellation != Unsupported && Initial(s.constellation) <= s.svId < Initial(s.constellation) + 64
  }

  /** One constellation's mask after the ids, if it was m before. */
  function Encoded(m: nat, ids: seq<Source>, c: Constellation, undefined: nat -> nat): nat {
    if ids == [] then m
    else
      var before, s := Encoded(m, ids[..|ids| - 1], c, undefined), ids[|ids| - 1];
      if s.constellation != c || c == Unsupported then before
      else if s.svId == 0 then ALL_BITS
      else if !InRange(s) then before
      else Or(before, One(s.svId - Initial(c), undefined))
  }

  function EncodedConfig(config: Config, ids: seq<Source>, undefined: nat -> nat): Config {
    if ids == [] then CLEARED
    else Config(Encoded(config.glo, ids, Glonass, undefined), Encoded(config.bds, ids, Beidou, undefined),
                Encoded(config.qzss, ids, Qzss, undefined), Encoded(config.gal, ids, Galileo, undefined))
  }

  method ConvertToGnssSvIdConfig(blacklistedSvIds: seq<Source>, config: Config, undefined: nat -> nat)
    returns (retVal: bool, result: Config)
    ensures result == EncodedConfig(config, blacklistedSvIds, undefined)
    ensures retVal <==> blacklistedSvIds == [] || result != CLEARED
  {
    result := config;
    if |blacklistedSvIds| == 0 {
      return true, CLEARED;
    }
    for i := 0 to |blacklistedSvIds|
      invariant result == Config(
        Encoded(config.glo, blacklistedSvIds[..i], Glonass, undefined),
        Encoded(config.bds, blacklistedSvIds[..i], Beidou, undefined),
        Encoded(config.qzss, blacklistedSvIds[..i], Qzss, undefined),
        Encoded(config.gal, blacklistedSvIds[..i], Galileo, undefined))
    {
      assert blacklistedSvIds[..i + 1][..i] == blacklistedSvIds[..i];
      var source := blacklistedSvIds[i];
      if source.constellation != Unsupported {
        var mask, initialSvId := MaskOf(result, source.constellation), Initial(source.constellation);
        if source.svId == 0 {
          mask := ALL_BITS;
        } else if !(source.svId < initialSvId || source.svId >= initialSvId + 64) {
          mask := Or(mask, One(source.svId - initialSvId, undefined));
        }
        match source.constellation
        case Glonass => result := result.(glo := mask);
        case Beidou => result := result.(bds := mask);
        case Qzss => result := result.(qzss := mask);
        case Galileo => result := result.(gal := mask);
      }
    }
    assert blacklistedSvIds[..|blacklistedSvIds|] == blacklistedSvIds;
    retVal := result.glo != 0 || result.bds != 0 || result.gal != 0 || result.qzss != 0;
  }

  // ---------- from masks to ids ----------

  /** The ids of the bits of m, whose lowest bit has number bit. */
  function Listed(m: nat, c: Constellation, bit: nat): seq<Source> {
    if m == 0 then []
    else (if m % 2 == 1 then [Source(c, bit + Initial(c))] else []) + Listed(m / 2, c, bit + 1)
  }

  function Decoded(m: nat, c: Constellation): seq<Source> {
    if m == ALL_BITS then [Source(c, 0)] else Listed(m, c, 0)
  }

  function DecodedConfig(config: Config): seq<Source> {
    Decoded(config.bds, Beidou) + Decoded(config.gal, Galileo)
    + Decoded(config.glo, Glonass) + Decoded(config.qzss, Qzss)
  }

  method ConvertGnssSvIdMaskToList(mask: nat, c: Constellation) returns (svIds: seq<Source>)
    ensures svIds == Decoded(mask, c)
  {
    if mask == ALL_BITS {
      return [Source(c, 0)];
    }
    svIds := [];
    var svIdMask, bitNumber := mask, 0;
    while svIdMask > 0
      invariant Listed(mask, c, 0) == svIds + Listed(svIdMask, c, bitNumber)
    {
      ghost var more := Listed(svIdMask / 2, c, bitNumber + 1);
      assert svIds + ([Source(c, bitNumber + Initial(c))] + more) == (svIds + [Source(c, bitNumber + Initial(c))]) + more;
      assert [] + more == more;
      if svIdMask % 2 == 1 {
        svIds := svIds + [Source(c, bitNumber + Initial(c))];
      }
      bitNumber := bitNumber + 1;
      svIdMask := svIdMask / 2;
    }
  }

  method ConvertFromGnssSvIdConfig(svConfig: Config) returns (blacklistedSvIds: seq<Source>, flagged: bool)
    ensures blacklistedSvIds == DecodedConfig(svConfig)
    ensures flagged <==> svConfig != CLEARED
  {
    blacklistedSvIds, flagged := [], false;
    if svConfig.bds != 0 {
      blacklistedSvIds := ConvertGnssSvIdMaskToList(svConfig.bds, Beidou);
      flagged := true;
    }
    if svConfig.gal != 0 {
      var gal := ConvertGnssSvIdMaskToList(svConfig.gal, Galileo);
      blacklistedSvIds, flagged := blacklistedSvIds + gal, true;
    }
    if svConfig.glo != 0 {
      var glo := ConvertGnssSvIdMaskToList(svConfig.glo, Glonass);
      blacklistedSvIds, flagged := blacklistedSvIds + glo, true;
    }
    if svConfig.qzss != 0 {
      var qzss := ConvertGnssSvIdMaskToList(svConfig.qzss, Qzss);
      blacklistedSvIds, flagged := blacklistedSvIds + qzss, true;
    }
  }

  // ---------- what a mask says about the ids ----------

  predicate Valid(s: Source) {
    s.constellation != Unsupported && (s.svId == 0 || InRange(s))
  }

  function Offset(s: Source): nat
    requires InRange(s)
  {
    s.svId - Initial(s.constellation)
  }

  /** No id needs a shift by 32 or more. */
  ghost predicate Defined(ids: seq<Source>) {
    forall s :: s in ids && InRange(s) ==> Offset(s) < 32
  }

  /** The id sets bit k of its constellation's mask: 0 sets all, offset 31 all from 31 on. */
  predicate Blacklists(s: Source, c: Constellation, k: nat) {
    && s.constellation == c && Valid(s)
    && if s.svId == 0 then k < 64 else k == Offset(s) || (Offset(s) == 31 && 31 < k < 64)
  }

  lemma {:induction false} BitOfEncoded(ids: seq<Source>, c: Constellation, undefined: nat -> nat, k: nat)
    requires Defined(ids)
    ensures Bit(Encoded(0, ids, c, undefined), k) <==> exists s :: s in ids && Blacklists(s, c, k)
  {
    if ids == [] {
      BitOfZero(k);
    } else {
      var front, s := ids[..|ids| - 1], ids[|ids| - 1];
      assert forall t :: t in ids <==> t in front || t == s;
      BitOfEncoded(front, c, undefined, k);
      LastId(Encoded(0, front, c, undefined), s, c, undefined, k);
    }
  }

  lemma LastId(m: nat, s: Source, c: Constellation, undefined: nat -> nat, k: nat)
    requires InRange(s) ==> Offset(s) < 32
    ensures var after := if s.constellation != c || c == Unsupported then m
                         else if s.svId == 0 then ALL_BITS
                         else if !InRange(s) then m
                         else Or(m, One(s.svId - Initial(c), undefined));
            && (Blacklists(s, c, k) ==> Bit(after, k))
            && (!Blacklists(s, c, k) && k < 64 ==> (Bit(after, k) <==> Bit(m, k)))
            && (k >= 64 && !Bit(m, k) ==> !Bit(after, k))
  {
    AllBits(k);
    if InRange(s) && s.constellation == c {
      BitOfOne(Offset(s), undefined, k);
      BitOfOr(m, One(Offset(s), undefined), k);
    }
  }

  lemma {:induction false} IdsListed(m: nat, c: Constellation, bit: nat, s: Source)
    ensures s in Listed(m, c, bit) <==>
      s.constellation == c && s.svId >= bit + Initial(c) && Bit(m, s.svId - bit - Initial(c))
  {
    if m == 0 {
      if s.svId >= bit + Initial(c) {
        BitOfZero(s.svId - bit - Initial(c));
      }
    } else {
      IdsListed(m / 2, c, bit + 1, s);
    }
  }

  predicate Distinct(ids: seq<Source>) {
    forall i, j :: 0 <= i < j < |ids| ==> ids[i] != ids[j]
  }

  lemma {:induction false} NothingListedTwice(m: nat, c: Constellation, bit: nat)
    ensures Distinct(Listed(m, c, bit))
  {
    if m > 0 {
      NothingListedTwice(m / 2, c, bit + 1);
      IdsListed(m / 2, c, bit + 1, Source(c, bit + Initial(c)));
    }
  }

  /** The decoded list names nothing twice, whatever the masks. */
  lemma NothingDecodedTwice(config: Config)
    ensures Distinct(DecodedConfig(config))
  {
    MaskDecodes(config.bds, Beidou);
    MaskDecodes(config.gal, Galileo);
    MaskDecodes(config.glo, Glonass);
    MaskDecodes(config.qzss, Qzss);
    DisjointConcat(Decoded(config.bds, Beidou), Decoded(config.gal, Galileo));
    var three := Decoded(config.bds, Beidou) + Decoded(config.gal, Galileo) + Decoded(config.glo, Glonass);
    DisjointConcat(Decoded(config.bds, Beidou) + Decoded(config.gal, Galileo), Decoded(config.glo, Glonass));
    DisjointConcat(three, Decoded(config.qzss, Qzss));
  }

  lemma DisjointConcat(xs: seq<Source>, ys: seq<Source>)
    requires Distinct(xs) && Distinct(ys) && forall s :: s in xs ==> s !in ys
    ensures Distinct(xs + ys)
  {
    forall i, j | 0 <= i < j < |xs + ys| ensures (xs + ys)[i] != (xs + ys)[j] {
      if i < |xs| <= j {
        assert xs[i] in xs && ys[j - |xs|] in ys;
      }
    }
  }

  lemma MaskDecodes(m: nat, c: Constellation)
    ensures Distinct(Decoded(m, c)) && forall s :: s in Decoded(m, c) ==> s.constellation == c
  {
    NothingListedTwice(m, c, 0);
    forall s | s in Decoded(m, c) ensures s.constellation == c {
      IdsListed(m, c, 0, s);
    }
  }

  lemma DecodedIsPerConstellation(config: Config, s: Source)
    ensures s in DecodedConfig(config) <==>
      s.constellation != Unsupported && s in Decoded(MaskOf(config, s.constellation), s.constellation)
  {
    MaskDecodes(config.bds, Beidou);
    MaskDecodes(config.gal, Galileo);
    MaskDecodes(config.glo, Glonass);
    MaskDecodes(config.qzss, Qzss);
  }

  // ---------- ids to masks and back ----------

  /** The valid ids come back, except that id 0 stands for its whole constellation. */
  ghost predicate RoundTrips(ids: seq<Source>, undefined: nat -> nat) {
    forall s :: s in DecodedConfig(EncodedConfig(CLEARED, ids, undefined)) <==>
      s in ids && Valid(s) && (s.svId == 0 || Source(s.constellation, 0) !in ids)
  }

  /** No id with offset 31 without its constellation's id 0. */
  ghost predicate NoLoneSignBit(ids: seq<Source>) {
    forall s :: s in ids && InRange(s) && Offset(s) == 31 ==> Source(s.constellation, 0) in ids
  }

  lemma IdsRoundTripIffNoLoneSignBit(ids: seq<Source>, undefined: nat -> nat)
    requires Defined(ids)
    ensures RoundTrips(ids, undefined) <==> NoLoneSignBit(ids)
  {
    var config := EncodedConfig(CLEARED, ids, undefined);
    if NoLoneSignBit(ids) {
      forall s ensures s in DecodedConfig(config) <==>
          s in ids && Valid(s) && (s.svId == 0 || Source(s.constellation, 0) !in ids) {
        DecodedIsPerConstellation(config, s);
        if s.constellation != Unsupported {
          IdRoundTrips(ids, undefined, s);
        }
      }
    } else {
      var s :| s in ids && InRange(s) && Offset(s) == 31 && Source(s.constellation, 0) !in ids;
      var invented := LoneSignBitInventsAnId(ids, undefined, s);
      DecodedIsPerConstellation(config, invented);
      assert invented in DecodedConfig(config);
    }
  }

  lemma MaskOfEncoded(ids: seq<Source>, undefined: nat -> nat, c: Constellation)
    requires c != Unsupported
    ensures MaskOf(EncodedConfig(CLEARED, ids, undefined), c) == Encoded(0, ids, c, undefined)
  {
  }

  lemma IdRoundTrips(ids: seq<Source>, undefined: nat -> nat, s: Source)
    requires Defined(ids) && NoLoneSignBit(ids) && s.constellation != Unsupported
    ensures s in Decoded(MaskOf(EncodedConfig(CLEARED, ids, undefined), s.constellation), s.constellation) <==>
      s in ids && Valid(s) && (s.svId == 0 || Source(s.constellation, 0) !in ids)
  {
    var c := s.constellation;
    var m, all := Encoded(0, ids, c, undefined), Source(c, 0);
    MaskOfEncoded(ids, undefined, c);
    if all in ids {
      forall k: nat ensures Bit(m, k) <==> Bit(ALL_BITS, k) {
        BitOfEncoded(ids, c, undefined, k);
        AllBits(k);
        assert k < 64 ==> Blacklists(all, c, k);
      }
      SameBits(m, ALL_BITS);
    } else {
      BitOfEncoded(ids, c, undefined, 31);
      AllBits(31);
      assert m != ALL_BITS;
      IdsListed(m, c, 0, s);
      if s.svId >= Initial(c) {
        BitOfEncoded(ids, c, undefined, s.svId - Initial(c));
      }
    }
  }

  /** Offset 31 without id 0: either id 0 or offset 63 comes back uninvited. */
  lemma LoneSignBitInventsAnId(ids: seq<Source>, undefined: nat -> nat, s: Source) returns (invented: Source)
    requires Defined(ids) && s in ids && InRange(s) && Offset(s) == 31 && Source(s.constellation, 0) !in ids
    ensures invented !in ids && invented.constellation == s.constellation
    ensures invented in Decoded(MaskOf(EncodedConfig(CLEARED, ids, undefined), s.constellation), s.constellation)
  {
    var c := s.constellation;
    var m := Encoded(0, ids, c, undefined);
    MaskOfEncoded(ids, undefined, c);
    if m == ALL_BITS {
      invented := Source(c, 0);
    } else {
      invented := Source(c, Initial(c) + 63);
      assert Blacklists(s, c, 63);
      BitOfEncoded(ids, c, undefined, 63);
      IdsListed(m, c, 0, invented);
    }
  }

  // ---------- masks to ids and back ----------

  /** Masks that fit in 32 bits, or have all bits set. */
  predicate Plain(m: nat) {
    m == ALL_BITS || m < 0x1_0000_0000
  }

  lemma MasksRoundTripIffNoSignBit(config: Config, undefined: nat -> nat)
    requires Plain(config.glo) && Plain(config.bds) && Plain(config.qzss) && Plain(config.gal)
    ensures EncodedConfig(CLEARED, DecodedConfig(config), undefined) == config <==>
      forall c :: MaskOf(config, c) != ALL_BITS ==> !Bit(MaskOf(config, c), 31)
  {
    var ids := DecodedConfig(config);
    forall c | c != Unsupported
      ensures MaskOf(EncodedConfig(CLEARED, ids, undefined), c) == MaskOf(config, c) <==>
              (MaskOf(config, c) != ALL_BITS ==> !Bit(MaskOf(config, c), 31))
    {
      MaskOfEncoded(ids, undefined, c);
      MaskRoundTrips(config, c, undefined);
    }
    BitOfZero(31);
    var e := EncodedConfig(CLEARED, ids, undefined);
    assert e == config <==>
      MaskOf(e, Glonass) == MaskOf(config, Glonass) && MaskOf(e, Beidou) == MaskOf(config, Beidou)
      && MaskOf(e, Qzss) == MaskOf(config, Qzss) && MaskOf(e, Galileo) == MaskOf(config, Galileo);
  }

  lemma MaskRoundTrips(config: Config, c: Constellation, undefined: nat -> nat)
    requires Plain(config.glo) && Plain(config.bds) && Plain(config.qzss) && Plain(config.gal) && c != Unsupported
    ensures Encoded(0, DecodedConfig(config), c, undefined) == MaskOf(config, c) <==>
      (MaskOf(config, c) != ALL_BITS ==> !Bit(MaskOf(config, c), 31))
  {
    var ids, m := DecodedConfig(config), MaskOf(config, c);
    DecodedIsDefined(config);
    var m' := Encoded(0, ids, c, undefined);
    if m == ALL_BITS || !Bit(m, 31) {
      forall k: nat ensures Bit(m', k) <==> Bit(m, k) {
        BitReturns(config, c, undefined, k);
      }
      SameBits(m', m);
    } else {
      var s := Source(c, Initial(c) + 31);
      IdsListed(m, c, 0, s);
      DecodedIsPerConstellation(config, s);
      assert Blacklists(s, c, 63);
      BitOfEncoded(ids, c, undefined, 63);
      BitsOfPlain(m, 63);
    }
  }

  /** Numbers below 2 to the n have no bit from n on. */
  lemma {:induction false} BitsOfSmall(m: nat, n: nat, k: nat)
    requires m <= Ones(n) && k >= n
    ensures !Bit(m, k)
  {
    if n == 0 {
      BitOfZero(k);
    } else {
      BitsOfSmall(m / 2, n - 1, k - 1);
    }
  }

  lemma BitsOfPlain(m: nat, k: nat)
    requires Plain(m) && m != ALL_BITS && k >= 32
    ensures !Bit(m, k)
  {
    Ones32();
    BitsOfSmall(m, 32, k);
  }

  lemma DecodedIsDefined(config: Config)
    requires Plain(config.glo) && Plain(config.bds) && Plain(config.qzss) && Plain(config.gal)
    ensures Defined(DecodedConfig(config))
  {
    forall s | s in DecodedConfig(config) && InRange(s) ensures Offset(s) < 32 {
      var m := MaskOf(config, s.constellation);
      DecodedIsPerConstellation(config, s);
      IdsListed(m, s.constellation, 0, s);
      if Offset(s) >= 32 && m != ALL_BITS {
        BitsOfPlain(m, Offset(s));
      }
    }
  }

  lemma BitReturns(config: Config, c: Constellation, undefined: nat -> nat, k: nat)
    requires Defined(DecodedConfig(config)) && c != Unsupported
    requires MaskOf(config, c) == ALL_BITS || (Plain(MaskOf(config, c)) && !Bit(MaskOf(config, c), 31))
    ensures Bit(Encoded(0, DecodedConfig(config), c, undefined), k) <==> Bit(MaskOf(config, c), k)
  {
    var ids, m := DecodedConfig(config), MaskOf(config, c);
    BitOfEncoded(ids, c, undefined, k);
    if m == ALL_BITS {
      AllIsDecoded(config, c, k);
      AllBits(k);
    } else {
      PlainBitIsDecoded(config, c, k);
    }
  }

  lemma AllIsDecoded(config: Config, c: Constellation, k: nat)
    requires Defined(DecodedConfig(config)) && c != Unsupported && MaskOf(config, c) == ALL_BITS
    ensures (exists s :: s in DecodedConfig(config) && Blacklists(s, c, k)) <==> k < 64
  {
    var all := Source(c, 0);
    DecodedIsPerConstellation(config, all);
    assert k < 64 ==> all in DecodedConfig(config) && Blacklists(all, c, k);
  }

  lemma PlainBitIsDecoded(config: Config, c: Constellation, k: nat)
    requires c != Unsupported && MaskOf(config, c) != ALL_BITS
    requires Plain(MaskOf(config, c)) && !Bit(MaskOf(config, c), 31)
    ensures (exists s :: s in DecodedConfig(config) && Blacklists(s, c, k)) <==> Bit(MaskOf(config, c), k)
  {
    var m := MaskOf(config, c);
    PlainBitIsListed(m, c, k);
    forall s: Source | s.constellation == c ensures s in DecodedConfig(config) <==> s in Listed(m, c, 0) {
      DecodedIsPerConstellation(config, s);
    }
    if s: Source :| s in Listed(m, c, 0) && Blacklists(s, c, k) {
      assert s in DecodedConfig(config);
    }
  }

  lemma PlainBitIsListed(m: nat, c: Constellation, k: nat)
    requires c != Unsupported && m != ALL_BITS && Plain(m) && !Bit(m, 31)
    ensures (exists s :: s in Listed(m, c, 0) && Blacklists(s, c, k)) <==> Bit(m, k)
  {
    var t := Source(c, Initial(c) + k);
    IdsListed(m, c, 0, t);
    if k >= 32 {
      BitsOfPlain(m, k);
    }
    assert Bit(m, k) ==> Blacklists(t, c, k);
    forall s | s in Listed(m, c, 0) && Blacklists(s, c, k) ensures Bit(m, k) {
      IdsListed(m, c, 0, s);
    }
  }

  // ---------- the ids, constellation by constellation ----------

  /** The ids that are taken: 0 for all, or 64 ids from the constellation's first. */
  lemma ValidIds(c: Constellation, id: nat)
    ensures Valid(Source(c, id)) <==>
      match c
      case Glonass => id == 0 || 65 <= id <= 128
      case Beidou => id == 0 || 201 <= id <= 264
      case Qzss => id == 0 || 193 <= id <= 256
      case Galileo => id == 0 || 301 <= id <= 364
      case Unsupported => false
  {
  }

  /** Every constellation has its own mask, whose lowest bit is its first id; id 0 sets all 64 bits. */
  lemma FirstIds(undefined: nat -> nat)
    ensures EncodedConfig(CLEARED, [Source(Glonass, 65)], undefined) == Config(1, 0, 0, 0)
    ensures EncodedConfig(CLEARED, [Source(Beidou, 201)], undefined) == Config(0, 1, 0, 0)
    ensures EncodedConfig(CLEARED, [Source(Qzss, 193)], undefined) == Config(0, 0, 1, 0)
    ensures EncodedConfig(CLEARED, [Source(Galileo, 301)], undefined) == Config(0, 0, 0, 1)
    ensures EncodedConfig(CLEARED, [Source(Galileo, 0)], undefined) == Config(0, 0, 0, 0xFFFF_FFFF_FFFF_FFFF)
  {
    OneId(Source(Glonass, 65), undefined);
    OneId(Source(Beidou, 201), undefined);
    OneId(Source(Qzss, 193), undefined);
    OneId(Source(Galileo, 301), undefined);
    OneId(Source(Galileo, 0), undefined);
    assert Or(0, 1) == 1 by {
      assert Or(0, 0) == 0;
    }
  }

  lemma OneId(s: Source, undefined: nat -> nat)
    requires Valid(s)
    ensures forall c :: c != s.constellation ==> Encoded(0, [s], c, undefined) == 0
    ensures Encoded(0, [s], s.constellation, undefined) == if s.svId == 0 then ALL_BITS else Or(0, One(Offset(s), undefined))
  {
    assert [s][..0] == [];
  }

  /** The list starts with BeiDou, then Galileo, GLONASS and QZSS. */
  lemma DecodingOrder()
    ensures DecodedConfig(Config(1, 1, 1, 1)) == [Source(Beidou, 201), Source(Galileo, 301), Source(Glonass, 65), Source(Qzss, 193)]
  {
    assert Listed(1, Beidou, 0) == [Source(Beidou, 201)];
    assert Listed(1, Galileo, 0) == [Source(Galileo, 301)];
    assert Listed(1, Glonass, 0) == [Source(Glonass, 65)];
    assert Listed(1, Qzss, 0) == [Source(Qzss, 193)];
  }
}
