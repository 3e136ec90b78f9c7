/**
 The first draws of a generator with a known seed, as the unit test of the program expects them
 (src/unittest/test_random.cpp, testPcgRandom).
 */
module PcgDraws {

  import opened Pcg

  const STREAM: int := 1997755
  const S0: int := 9889806666263397148
  const S1: int := 14386779318310890407
  const S2: int := 11200564000709099798
  const S3: int := 11135412052190877337
  const S4: int := 12212449257109003168
  const S5: int := 14547132061508089563

  lemma KnownStates()
    ensures 2 * 998877 % TWO64 + 1 == STREAM && Step((Step(0, STREAM) + 814538) % TWO64, STREAM) == S0
    ensures Step(S0, STREAM) == S1 && Step(S1, STREAM) == S2 && Step(S2, STREAM) == S3
    ensures Step(S3, STREAM) == S4 && Step(S4, STREAM) == S5
  {
  }

  lemma KnownBits()
    ensures OutputBits(0x893f_a6c3_b7eb_831c) == 0x48c5_93f8 && OutputBits(0xc7a8_1b90_c9db_6ba7) == 0x054f_59f5
    ensures OutputBits(0x9b70_659d_924b_4116) == 0x0d06_2dc1 && OutputBits(0x9a88_ee43_7670_d699) == 0x2385_2a23
    ensures OutputBits(0xa97b_55e5_1f77_1ba0) == 0x7fbb_c97b && OutputBits(0xc9e1_cb89_32e2_b6db) == 0x1f9f_141e
  {
  }

  lemma KnownOutputs()
    ensures Output(S0) == 0x48c5_93f8 && Output(S1) == 0x054f_59f5 && Output(S2) == 0x0d06_2dc1
    ensures Output(S3) == 0x2385_2a23 && Output(S4) == 0x7fbb_c97b && Output(S5) == 0x1f9f_141e
  {
    KnownBits();
    hide OutputBits;
  }

  /** Seeded with 814538 on stream 998877, these are the first six draws. */
  lemma KnownDraws(inc: int, s: int)
    requires inc == 2 * 998877 % TWO64 + 1 && s == Step((Step(0, inc) + 814538) % TWO64, inc)
    ensures IsState(s)
    ensures Drawn(s, inc, 0) == 0x48c5_93f8 && Drawn(s, inc, 1) == 0x054f_59f5 && Drawn(s, inc, 2) == 0x0d06_2dc1
    ensures Drawn(s, inc, 3) == 0x2385_2a23 && Drawn(s, inc, 4) == 0x7fbb_c97b && Drawn(s, inc, 5) == 0x1f9f_141e
  {
    hide Output, Step;
    KnownStates();
    KnownOutputs();
    assert Iter(s, inc, 0) == S0;
    assert Iter(s, inc, 1) == S1;
    assert Iter(s, inc, 2) == S2;
    assert Iter(s, inc, 3) == S3;
    assert Iter(s, inc, 4) == S4;
    assert Iter(s, inc, 5) == S5;
  }
}
