/** Debug sentences of the modem, cut into fields (gps/core/SystemStatus.cpp). Number parsing is a
    parameter. */
module DebugNmea {
  const SV_ALL_NUM_MIN := 134
  const SV_ALL_NUM := 148

  /** The place of the first c, or the length if there is none. */
  function Find(s: string, c: char): (i: nat)
    ensures i <= |s|
    ensures c !in s[..i]
    ensures i < |s| ==> s[i] == c
  {
    if s == "" || s[0] == c then 0 else 1 + Find(s[1..], c)
  }

  function Count(s: string, c: char): nat {
    if s == "" then 0 else (if s[0] == c then 1 else 0) + Count(s[1..], c)
  }

  /** The fields, each ended by a comma, and what is left after the last comma. */
  function Fields(s: string): (seq<string>, string)
    decreases |s|
  {
    var i := Find(s, ',');
    if i == |s| then ([], s)
    else
      var (fields, rest) := Fields(s[i + 1..]);
      ([s[..i]] + fields, rest)
  }

  function Joined(fields: seq<string>, rest: string): string {
    if fields == [] then rest else fields[0] + "," + Joined(fields[1..], rest)
  }

  /** The sentence as it is cut: its first star counts as a comma. */
  function Starred(s: string): string
    requires '*' in s
  {
    StarIsFound(s);
    s[Find(s, '*') := ',']
  }

  lemma StarIsFound(s: string)
    requires '*' in s
    ensures Find(s, '*') < |s|
  {
    assert s[..|s|] == s;
  }

  class SystemStatusNmeaBase {
    var mField: seq<string>

    /** A sentence that is no debug sentence or has no checksum has no fields. */
    constructor (sentence: string, isDebug: bool)
      ensures mField == if isDebug && '*' in sentence then Fields(Starred(sentence)).0 else []
    {
      mField := [];
      new;
      if isDebug {
        var star := Find(sentence, '*');
        assert star == |sentence| ==> sentence[..star] == sentence;
        if star < |sentence| {
          assert sentence[star] in sentence;
          Tokenize(sentence[star := ',']);
        }
      }
    }

    method Tokenize(sentence: string)
      requires mField == []
      modifies this
      ensures mField == Fields(sentence).0
    {
      var parser := sentence;
      var index := Find(parser, ',');
      while index < |parser|
        invariant index == Find(parser, ',')
        invariant Fields(sentence).0 == mField + Fields(parser).0
        decreases |parser|
      {
        var str := parser[..index];
        parser := parser[index + 1..];
        mField := mField + [str];
        index := Find(parser, ',');
      }
    }
  }

  // ---------- what the fields are ----------

  /** Writing the fields with a comma after each, and then the rest, gives the sentence back. */
  lemma {:induction false} FieldsRebuildTheSentence(s: string)
    ensures Joined(Fields(s).0, Fields(s).1) == s
    decreases |s|
  {
    var i := Find(s, ',');
    if i < |s| {
      var (fields, rest) := Fields(s[i + 1..]);
      FieldsRebuildTheSentence(s[i + 1..]);
      JoinedOneMore(s[..i], fields, rest);
      assert s == s[..i] + "," + s[i + 1..];
    }
  }

  lemma JoinedOneMore(f: string, fields: seq<string>, rest: string)
    ensures Joined([f] + fields, rest) == f + "," + Joined(fields, rest)
  {
    assert ([f] + fields)[1..] == fields;
  }

  lemma {:induction false} FieldsHaveNoComma(s: string)
    ensures forall f :: f in Fields(s).0 ==> ',' !in f
    ensures ',' !in Fields(s).1
    decreases |s|
  {
    var i := Find(s, ',');
    if i < |s| {
      FieldsHaveNoComma(s[i + 1..]);
    } else {
      assert s[..i] == s;
    }
  }

  lemma {:induction false} CountOfSum(s: string, t: string, c: char)
    ensures Count(s + t, c) == Count(s, c) + Count(t, c)
  {
    if s == "" {
      assert s + t == t;
    } else {
      CountOfSum(s[1..], t, c);
      assert (s + t)[1..] == s[1..] + t;
    }
  }

  lemma {:induction false} NoneCounted(s: string, c: char)
    requires c !in s
    ensures Count(s, c) == 0
  {
    if s != "" {
      NoneCounted(s[1..], c);
    }
  }

  /** There are as many fields as commas. */
  lemma {:induction false} AFieldPerComma(s: string)
    ensures |Fields(s).0| == Count(s, ',')
    decreases |s|
  {
    var i := Find(s, ',');
    NoneCounted(s[..i], ',');
    if i < |s| {
      AFieldPerComma(s[i + 1..]);
      CountOfSum(s[..i], s[i..], ',');
      assert s == s[..i] + s[i..] && s[i..][1..] == s[i + 1..];
    } else {
      assert s[..i] == s;
    }
  }

  lemma {:induction false} FieldsOfJoined(fields: seq<string>, rest: string)
    requires (forall f :: f in fields ==> ',' !in f) && ',' !in rest
    ensures Fields(Joined(fields, rest)) == (fields, rest)
  {
    if fields == [] {
      FindNone(rest, ',');
    } else {
      var s, f, more := Joined(fields, rest), fields[0], Joined(fields[1..], rest);
      FieldsOfJoined(fields[1..], rest);
      assert s == f + "," + more;
      FindAfter(f, more);
      assert s[|f| + 1..] == more && s[..|f|] == f;
      assert [f] + fields[1..] == fields;
    }
  }

  lemma {:induction false} FindNone(s: string, c: char)
    requires c !in s
    ensures Find(s, c) == |s|
  {
    if s != "" {
      FindNone(s[1..], c);
    }
  }

  lemma {:induction false} FindAfter(f: string, more: string)
    requires ',' !in f
    ensures Find(f + "," + more, ',') == |f|
  {
    var s := f + "," + more;
    if f != "" {
      assert s[1..] == f[1..] + "," + more;
      assert s[0] == f[0] && f[0] in f;
      FindAfter(f[1..], more);
    }
  }

  /** The checksum separator counts as a comma too: a sentence has a field per comma and one
      more, and they rebuild it with that star as a comma. */
  lemma StarredSentence(sentence: string)
    requires '*' in sentence
    ensures var (fields, rest) := Fields(Starred(sentence));
            && Joined(fields, rest) == Starred(sentence)
            && |fields| == Count(sentence, ',') + 1
  {
    var s, i := Starred(sentence), Find(sentence, '*');
    StarIsFound(sentence);
    FieldsRebuildTheSentence(s);
    AFieldPerComma(s);
    CountWith(sentence, i, '*');
    CountWith(s, i, ',');
    assert s[..i] == sentence[..i] && s[i + 1..] == sentence[i + 1..];
  }

  lemma CountWith(s: string, i: nat, c: char)
    requires i < |s| && s[i] == c
    ensures Count(s, ',') == Count(s[..i], ',') + (if c == ',' then 1 else 0) + Count(s[i + 1..], ',')
  {
    assert s == s[..i] + s[i..] && s[i..][1..] == s[i + 1..];
    CountOfSum(s[..i], s[i..], ',');
  }

  // ---------- the parser of PQWP7 ----------

  datatype Nav = Nav(kind: int, source: int, ageSec: int)

  const E_MIN := 2 + SV_ALL_NUM_MIN * 3
  const E_MAX := 2 + SV_ALL_NUM * 3

  /** One record per satellite from three fields each; a sentence from an engine without NAVIC
      fills fewer of them. Too short a sentence gives no result. */
  method ParsePqwp7(mField: seq<string>, atoi: string -> int) returns (ok: bool, nav: array<Nav>)
    ensures ok <==> |mField| >= 404
    ensures nav.Length == 148
    ensures ok ==> forall i :: 0 <= i < 148 ==>
      nav[i] == if i < 134 || |mField| >= 446
                then Nav(atoi(mField[i * 3 + 2]), atoi(mField[i * 3 + 3]), atoi(mField[i * 3 + 4]))
                else Nav(0, 0, 0)
  {
    var svLimit := SV_ALL_NUM;
    nav := new Nav[SV_ALL_NUM](_ => Nav(0, 0, 0));
    if |mField| < E_MIN {
      return false, nav;
    }
    if |mField| < E_MAX {
      svLimit := SV_ALL_NUM_MIN;
    }
    for i := 0 to svLimit
      invariant forall k :: 0 <= k < i ==>
        nav[k] == Nav(atoi(mField[k * 3 + 2]), atoi(mField[k * 3 + 3]), atoi(mField[k * 3 + 4]))
      invariant forall k :: i <= k < SV_ALL_NUM ==> nav[k] == Nav(0, 0, 0)
    {
      nav[i] := Nav(atoi(mField[i * 3 + 2]), atoi(mField[i * 3 + 3]), atoi(mField[i * 3 + 4]));
    }
    ok := true;
  }

  // ---------- the parser of PQWM1 ----------

  const E_AGC_GAL := 22
  const E_LEAP_SEC_UNC := 24
  const E_GAL_BP_AMP_Q := 30
  const E_TIME_UNC_NS := 31

  /** The members up to the last jammer and recovery counters, the gains, the leap second, the
      amplitudes of the other constellations, and the fine time uncertainty. */
  datatype Pqwm1 = Pqwm1(
    gpsWeek: int, gpsTowMs: int, timeValid: int, timeSource: int, timeUnc: int,
    clockFreqBias: int, clockFreqBiasUnc: int, xoState: int, pgaGain: int,
    gpsBpAmpI: int, gpsBpAmpQ: int, adcI: int, adcQ: int,
    jammerGps: int, jammerGlo: int, jammerBds: int, jammerGal: int, recErrorRecovery: int,
    agcGps: real, agcGlo: real, agcBds: real, agcGal: real,
    leapSeconds: int, leapSecUnc: int,
    gloBpAmpI: int, gloBpAmpQ: int, bdsBpAmpI: int, bdsBpAmpQ: int, galBpAmpI: int, galBpAmpQ: int,
    timeUncNs: int)

  const ZERO := Pqwm1(0, 0, 0, 0, 0, 0, 0, 0, 0, 0, 0, 0, 0, 0, 0, 0, 0, 0,
                      0.0, 0.0, 0.0, 0.0, 0, 0, 0, 0, 0, 0, 0, 0, 0)

  /** How C++ narrows a number to an unsigned member of so many values. */
  function Narrowed(n: int, values: nat): (narrowed: int)
    requires 0 < values
    ensures 0 <= narrowed < values && (0 <= n < values ==> narrowed == n)
  {
    n % values
  }

  const U8: nat := 0x100
  const U16: nat := 0x1_0000
  const U32: nat := 0x1_0000_0000

  /** Which member takes which field, when the field is there. A sentence without the first 22 data
      fields gives zeros; the later groups are read whole or not at all. */
  method ParsePqwm1(mField: seq<string>, atoi: string -> int, atof: string -> real, strtoull: string -> int)
    returns (m: Pqwm1)
    ensures |mField| <= 22 ==> m == ZERO
    ensures |mField| > 22 ==>
      && m.gpsWeek == Narrowed(atoi(mField[1]), U16) && m.gpsTowMs == Narrowed(atoi(mField[2]), U32)
      && m.timeValid == Narrowed(atoi(mField[3]), U8) && m.timeSource == Narrowed(atoi(mField[4]), U8)
      && m.timeUnc == atoi(mField[5]) && m.clockFreqBias == atoi(mField[6])
      && m.clockFreqBiasUnc == atoi(mField[7]) && m.xoState == Narrowed(atoi(mField[8]), U8)
      && m.pgaGain == atoi(mField[9])
      && m.gpsBpAmpI == Narrowed(atoi(mField[10]), U32) && m.gpsBpAmpQ == Narrowed(atoi(mField[11]), U32)
      && m.adcI == Narrowed(atoi(mField[12]), U32) && m.adcQ == Narrowed(atoi(mField[13]), U32)
      && m.jammerGps == Narrowed(atoi(mField[14]), U32) && m.jammerGlo == Narrowed(atoi(mField[15]), U32)
      && m.jammerBds == Narrowed(atoi(mField[16]), U32) && m.jammerGal == Narrowed(atoi(mField[17]), U32)
      && m.recErrorRecovery == Narrowed(atoi(mField[18]), U32)
      && m.agcGps == atof(mField[19]) && m.agcGlo == atof(mField[20])
      && m.agcBds == atof(mField[21]) && m.agcGal == atof(mField[22])
    ensures if |mField| > 24
            then m.leapSeconds == atoi(mField[23]) && m.leapSecUnc == atoi(mField[24])
            else m.leapSeconds == 0 && m.leapSecUnc == 0
    ensures if |mField| > 30
            then && m.gloBpAmpI == Narrowed(atoi(mField[25]), U32) && m.gloBpAmpQ == Narrowed(atoi(mField[26]), U32)
                 && m.bdsBpAmpI == Narrowed(atoi(mField[27]), U32) && m.bdsBpAmpQ == Narrowed(atoi(mField[28]), U32)
                 && m.galBpAmpI == Narrowed(atoi(mField[29]), U32) && m.galBpAmpQ == Narrowed(atoi(mField[30]), U32)
            else m.gloBpAmpI == m.gloBpAmpQ == m.bdsBpAmpI == m.bdsBpAmpQ == m.galBpAmpI == m.galBpAmpQ == 0
    ensures m.timeUncNs == if |mField| > 31 then strtoull(mField[31]) else 0
  {
    m := ZERO;
    if |mField| <= E_AGC_GAL {
      return;
    }
    m := m.(gpsWeek := Narrowed(atoi(mField[1]), U16), gpsTowMs := Narrowed(atoi(mField[2]), U32));
    m := m.(timeValid := Narrowed(atoi(mField[3]), U8), timeSource := Narrowed(atoi(mField[4]), U8));
    m := m.(timeUnc := atoi(mField[5]), clockFreqBias := atoi(mField[6]), clockFreqBiasUnc := atoi(mField[7]));
    m := m.(xoState := Narrowed(atoi(mField[8]), U8), pgaGain := atoi(mField[9]));
    m := m.(gpsBpAmpI := Narrowed(atoi(mField[10]), U32), gpsBpAmpQ := Narrowed(atoi(mField[11]), U32));
    m := m.(adcI := Narrowed(atoi(mField[12]), U32), adcQ := Narrowed(atoi(mField[13]), U32));
    m := m.(jammerGps := Narrowed(atoi(mField[14]), U32), jammerGlo := Narrowed(atoi(mField[15]), U32));
    m := m.(jammerBds := Narrowed(atoi(mField[16]), U32), jammerGal := Narrowed(atoi(mField[17]), U32));
    m := m.(recErrorRecovery := Narrowed(atoi(mField[18]), U32));
    m := m.(agcGps := atof(mField[19]), agcGlo := atof(mField[20]), agcBds := atof(mField[21]), agcGal := atof(mField[22]));
    if |mField| > E_LEAP_SEC_UNC {
      m := m.(leapSeconds := atoi(mField[23]), leapSecUnc := atoi(mField[24]));
    }
    if |mField| > E_GAL_BP_AMP_Q {
      m := m.(gloBpAmpI := Narrowed(atoi(mField[25]), U32), gloBpAmpQ := Narrowed(atoi(mField[26]), U32));
      m := m.(bdsBpAmpI := Narrowed(atoi(mField[27]), U32), bdsBpAmpQ := Narrowed(atoi(mField[28]), U32));
      m := m.(galBpAmpI := Narrowed(atoi(mField[29]), U32), galBpAmpQ := Narrowed(atoi(mField[30]), U32));
    }
    if |mField| > E_TIME_UNC_NS {
      m := m.(timeUncNs := strtoull(mField[31]));
    }
  }
}
