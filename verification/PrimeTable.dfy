/** The primes among the sizes of hash tables, each with what shows it. */
module PrimeTable {
  import opened Primes
  import opened Certificates

  lemma TrialPrimes1()
    ensures Prime(3) && Prime(5) && Prime(7) && Prime(13) && Prime(17) && Prime(19) && Prime(31)
    ensures Prime(41) && Prime(43) && Prime(59)
  {
    PrimeByTrial(3); PrimeByTrial(5); PrimeByTrial(7); PrimeByTrial(13); PrimeByTrial(17); PrimeByTrial(19);
    PrimeByTrial(31); PrimeByTrial(41); PrimeByTrial(43); PrimeByTrial(59);
  }

  lemma TrialPrimes2()
    ensures Prime(73) && Prime(89) && Prime(97) && Prime(131) && Prime(151)
  {
    assert NoneFrom(73, 3); PrimeByTrial(73); assert NoneFrom(89, 4); PrimeByTrial(89); assert NoneFrom(97, 4);
    PrimeByTrial(97); assert NoneFrom(131, 6); PrimeByTrial(131); assert NoneFrom(151, 7); PrimeByTrial(151);
  }

  lemma TrialPrimes3()
    ensures Prime(229) && Prime(283) && Prime(547)
  {
    assert NoneFrom(229, 10); assert NoneFrom(229, 5); PrimeByTrial(229); assert NoneFrom(283, 11);
    assert NoneFrom(283, 6); PrimeByTrial(283); assert NoneFrom(547, 18); assert NoneFrom(547, 13);
    assert NoneFrom(547, 8); assert NoneFrom(547, 3); PrimeByTrial(547);
  }

  lemma TrialPrimes4()
    ensures Prime(557) && Prime(571)
  {
    assert NoneFrom(557, 18); assert NoneFrom(557, 13); assert NoneFrom(557, 8); assert NoneFrom(557, 3);
    PrimeByTrial(557); assert NoneFrom(571, 18); assert NoneFrom(571, 13); assert NoneFrom(571, 8);
    assert NoneFrom(571, 3); PrimeByTrial(571);
  }

  lemma TrialPrimes5()
    ensures Prime(587) && Prime(647)
  {
    assert NoneFrom(587, 19); assert NoneFrom(587, 14); assert NoneFrom(587, 9); assert NoneFrom(587, 4);
    PrimeByTrial(587); assert NoneFrom(647, 20); assert NoneFrom(647, 15); assert NoneFrom(647, 10);
    assert NoneFrom(647, 5); PrimeByTrial(647);
  }

  lemma TrialPrimes6()
    ensures Prime(1153) && Prime(1187)
  {
    assert NoneFrom(1153, 28); assert NoneFrom(1153, 23); assert NoneFrom(1153, 18); assert NoneFrom(1153, 13);
    assert NoneFrom(1153, 8); assert NoneFrom(1153, 3); PrimeByTrial(1153); assert NoneFrom(1187, 29);
    assert NoneFrom(1187, 24); assert NoneFrom(1187, 19); assert NoneFrom(1187, 14); assert NoneFrom(1187, 9);
    assert NoneFrom(1187, 4); PrimeByTrial(1187);
  }

  lemma TrialPrimes7()
    ensures Prime(1367)
  {
    assert NoneFrom(1367, 31); assert NoneFrom(1367, 26); assert NoneFrom(1367, 21); assert NoneFrom(1367, 16);
    assert NoneFrom(1367, 11); assert NoneFrom(1367, 6); PrimeByTrial(1367);
  }

  lemma TrialPrimes8()
    ensures Prime(1381)
  {
    assert NoneFrom(1381, 32); assert NoneFrom(1381, 27); assert NoneFrom(1381, 22); assert NoneFrom(1381, 17);
    assert NoneFrom(1381, 12); assert NoneFrom(1381, 7); PrimeByTrial(1381);
  }

  lemma TrialPrimes9()
    ensures Prime(2269)
  {
    assert NoneFrom(2269, 42); assert NoneFrom(2269, 37); assert NoneFrom(2269, 32); assert NoneFrom(2269, 27);
    assert NoneFrom(2269, 22); assert NoneFrom(2269, 17); assert NoneFrom(2269, 12); assert NoneFrom(2269, 7);
    PrimeByTrial(2269);
  }

  lemma TrialPrimes10()
    ensures Prime(2377)
  {
    assert NoneFrom(2377, 43); assert NoneFrom(2377, 38); assert NoneFrom(2377, 33); assert NoneFrom(2377, 28);
    assert NoneFrom(2377, 23); assert NoneFrom(2377, 18); assert NoneFrom(2377, 13); assert NoneFrom(2377, 8);
    assert NoneFrom(2377, 3); PrimeByTrial(2377);
  }

  lemma TrialPrimes11()
    ensures Prime(2689)
  {
    assert NoneFrom(2689, 46); assert NoneFrom(2689, 41); assert NoneFrom(2689, 36); assert NoneFrom(2689, 31);
    assert NoneFrom(2689, 26); assert NoneFrom(2689, 21); assert NoneFrom(2689, 16); assert NoneFrom(2689, 11);
    assert NoneFrom(2689, 6); PrimeByTrial(2689);
  }

  lemma TrialPrimes12()
    ensures Prime(3727)
  {
    assert NoneFrom(3727, 56); assert NoneFrom(3727, 51); assert NoneFrom(3727, 46); assert NoneFrom(3727, 41);
    assert NoneFrom(3727, 36); assert NoneFrom(3727, 31); assert NoneFrom(3727, 26); assert NoneFrom(3727, 21);
    assert NoneFrom(3727, 16); assert NoneFrom(3727, 11); assert NoneFrom(3727, 6); PrimeByTrial(3727);
  }

  lemma TrialPrimes13()
    ensures Prime(4363)
  {
    assert NoneFrom(4363, 61); assert NoneFrom(4363, 56); assert NoneFrom(4363, 51); assert NoneFrom(4363, 46);
    assert NoneFrom(4363, 41); assert NoneFrom(4363, 36); assert NoneFrom(4363, 31); assert NoneFrom(4363, 26);
    assert NoneFrom(4363, 21); assert NoneFrom(4363, 16); assert NoneFrom(4363, 11); assert NoneFrom(4363, 6);
    PrimeByTrial(4363);
  }

  lemma TrialPrimes14()
    ensures Prime(4519)
  {
    assert NoneFrom(4519, 62); assert NoneFrom(4519, 57); assert NoneFrom(4519, 52); assert NoneFrom(4519, 47);
    assert NoneFrom(4519, 42); assert NoneFrom(4519, 37); assert NoneFrom(4519, 32); assert NoneFrom(4519, 27);
    assert NoneFrom(4519, 22); assert NoneFrom(4519, 17); assert NoneFrom(4519, 12); assert NoneFrom(4519, 7);
    PrimeByTrial(4519);
  }

  lemma TrialPrimes15()
    ensures Prime(6311)
  {
    assert NoneFrom(6311, 74); assert NoneFrom(6311, 69); assert NoneFrom(6311, 64); assert NoneFrom(6311, 59);
    assert NoneFrom(6311, 54); assert NoneFrom(6311, 49); assert NoneFrom(6311, 44); assert NoneFrom(6311, 39);
    assert NoneFrom(6311, 34); assert NoneFrom(6311, 29); assert NoneFrom(6311, 24); assert NoneFrom(6311, 19);
    assert NoneFrom(6311, 14); assert NoneFrom(6311, 9); assert NoneFrom(6311, 4); PrimeByTrial(6311);
  }

  lemma TrialPrimes16()
    ensures Prime(8803)
  {
    assert NoneFrom(8803, 88); assert NoneFrom(8803, 83); assert NoneFrom(8803, 78); assert NoneFrom(8803, 73);
    assert NoneFrom(8803, 68); assert NoneFrom(8803, 63); assert NoneFrom(8803, 58); assert NoneFrom(8803, 53);
    assert NoneFrom(8803, 48); assert NoneFrom(8803, 43); assert NoneFrom(8803, 38); assert NoneFrom(8803, 33);
    assert NoneFrom(8803, 28); assert NoneFrom(8803, 23); assert NoneFrom(8803, 18); assert NoneFrom(8803, 13);
    assert NoneFrom(8803, 8); assert NoneFrom(8803, 3); PrimeByTrial(8803);
  }

  lemma TrialPrimes17()
    ensures Prime(9013)
  {
    assert NoneFrom(9013, 89); assert NoneFrom(9013, 84); assert NoneFrom(9013, 79); assert NoneFrom(9013, 74);
    assert NoneFrom(9013, 69); assert NoneFrom(9013, 64); assert NoneFrom(9013, 59); assert NoneFrom(9013, 54);
    assert NoneFrom(9013, 49); assert NoneFrom(9013, 44); assert NoneFrom(9013, 39); assert NoneFrom(9013, 34);
    assert NoneFrom(9013, 29); assert NoneFrom(9013, 24); assert NoneFrom(9013, 19); assert NoneFrom(9013, 14);
    assert NoneFrom(9013, 9); assert NoneFrom(9013, 4); PrimeByTrial(9013);
  }

  lemma Powers18043()
    ensures Leaves(2, 18042, 1, 18043)
    ensures Leaves(2, 186, 5309, 18043)
    ensures Leaves(2, 582, 13962, 18043)
  {
    hide *;
    Start(2, 18043); Bits(2, 18043, 0, 1, false, 0, 1, true, 0, 2); Bits(2, 18043, 1, 2, true, 0, 8, false, 0, 64);
    Start(64, 18043); Bits(64, 18043, 0, 1, false, 0, 1, true, 0, 64);
    Bits(64, 18043, 1, 64, true, 14, 9542, true, 322960, 17616);
    Bits(64, 18043, 7, 17616, true, 1100742, 13278, true, 625369, 5309); Nested(2, 18043, 6, 64, 31, 5309);
    Bits(64, 18043, 1, 64, true, 14, 9542, false, 5046, 4786);
    Bits(64, 18043, 6, 4786, false, 1269, 9229, false, 4720, 11481);
    Bits(64, 18043, 24, 11481, false, 7305, 9246, true, 303234, 13962); Nested(2, 18043, 6, 64, 97, 13962);
    Start(13962, 18043); Bits(13962, 18043, 0, 1, false, 0, 1, true, 0, 13962);
    Bits(13962, 18043, 1, 13962, true, 150846122, 13882, true, 149122427, 8527);
    Bits(13962, 18043, 7, 8527, true, 56264104, 7826, true, 47393477, 1); Nested(2, 18043, 582, 13962, 31, 1);
  }

  lemma Prime18043()
    ensures Prime(18043)
  {
    TrialPrimes1();
    TrialPrimes2();
    Powers18043();
    ProductOf(97, 31, 1);
    hide *;
    Excluded(18043, 2, 97, 186, 5309, 860, 253);
    Excluded(18043, 2, 31, 582, 13962, 8385, 6488);
    PrimeByOrder(18043, 2, [97, 31]);
  }

  lemma Powers36109()
    ensures Leaves(2, 36108, 1, 36109)
    ensures Leaves(2, 612, 31668, 36109)
    ensures Leaves(2, 2124, 12041, 36109)
  {
    hide *;
    Start(2, 36109); Bits(2, 36109, 0, 1, true, 0, 2, false, 0, 4); Bits(2, 36109, 2, 4, false, 0, 16, true, 0, 512);
    Bits(2, 36109, 9, 512, false, 7, 9381, false, 2437, 5528); Start(5528, 36109);
    Bits(5528, 36109, 0, 1, false, 0, 1, true, 0, 5528);
    Bits(5528, 36109, 1, 5528, false, 846, 10570, false, 3094, 3654);
    Bits(5528, 36109, 4, 3654, false, 369, 27495, true, 115733748, 31668); Nested(2, 36109, 36, 5528, 17, 31668);
    Bits(5528, 36109, 0, 1, true, 0, 5528, true, 4678306, 6598);
    Bits(5528, 36109, 3, 6598, true, 6664647, 24389, false, 16472, 35873);
    Bits(5528, 36109, 14, 35873, true, 197009862, 22154, true, 75137523, 12041);
    Nested(2, 36109, 36, 5528, 59, 12041); Start(12041, 36109); Bits(12041, 36109, 0, 1, false, 0, 1, true, 0, 12041);
    Bits(12041, 36109, 1, 12041, false, 4015, 8046, false, 1792, 30788);
    Bits(12041, 36109, 4, 30788, false, 26251, 3585, true, 4285736, 1); Nested(2, 36109, 2124, 12041, 17, 1);
  }

  lemma Prime36109()
    ensures Prime(36109)
  {
    TrialPrimes1();
    Powers36109();
    ProductOf(59, 17, 1);
    hide *;
    Excluded(36109, 2, 59, 612, 31668, 21615, 18956);
    Excluded(36109, 2, 17, 2124, 12041, 29544, 9851);
    PrimeByOrder(36109, 2, [59, 17]);
  }

  lemma Powers72091()
    ensures Leaves(2, 72090, 1, 72091)
    ensures Leaves(2, 810, 22923, 72091)
    ensures Leaves(2, 14418, 8571, 72091)
  {
    hide *;
    Start(2, 72091); Bits(2, 72091, 0, 1, true, 0, 2, false, 0, 4); Bits(2, 72091, 2, 4, true, 0, 32, false, 0, 1024);
    Bits(2, 72091, 10, 1024, false, 14, 39302, false, 21426, 25438);
    Bits(2, 72091, 40, 25438, true, 17952, 6056, false, 508, 52908); Start(52908, 72091);
    Bits(52908, 72091, 0, 1, false, 0, 1, true, 0, 52908);
    Bits(52908, 72091, 1, 52908, false, 38829, 35025, true, 900319347, 22923); Nested(2, 72091, 162, 52908, 5, 22923);
    Bits(52908, 72091, 5, 22923, true, 385641003, 8259, false, 946, 12995);
    Bits(52908, 72091, 22, 12995, false, 2342, 32903, true, 794531811, 8571); Nested(2, 72091, 162, 52908, 89, 8571);
    Start(8571, 72091); Bits(8571, 72091, 0, 1, false, 0, 1, true, 0, 8571);
    Bits(8571, 72091, 1, 8571, false, 1019, 1312, true, 204653, 1); Nested(2, 72091, 14418, 8571, 5, 1);
  }

  lemma Prime72091()
    ensures Prime(72091)
  {
    TrialPrimes1();
    TrialPrimes2();
    Powers72091();
    ProductOf(89, 5, 1);
    hide *;
    Excluded(72091, 2, 89, 810, 22923, 65760, 20909);
    Excluded(72091, 2, 5, 14418, 8571, 23377, 2779);
    PrimeByOrder(72091, 2, [89, 5]);
  }

  lemma Powers144409()
    ensures Leaves(2, 144408, 1, 144409)
    ensures Leaves(2, 264, 42289, 144409)
  {
    hide *;
    Start(2, 144409); Bits(2, 144409, 0, 1, false, 0, 1, true, 0, 2);
    Bits(2, 144409, 1, 2, false, 0, 4, false, 0, 16); Bits(2, 144409, 4, 16, false, 0, 256, false, 0, 65536);
    Bits(2, 144409, 16, 65536, true, 59483, 54045, false, 20226, 45591);
    Bits(2, 144409, 66, 45591, false, 14393, 60544, false, 25383, 42289); Start(42289, 144409);
    Bits(42289, 144409, 0, 1, true, 0, 42289, false, 12383, 142874);
    Bits(42289, 144409, 2, 142874, false, 141355, 45681, false, 14450, 43711);
    Bits(42289, 144409, 8, 43711, true, 559518743, 13682, false, 1296, 43060);
    Bits(42289, 144409, 34, 43060, false, 12839, 96449, false, 64417, 15048);
    Bits(42289, 144409, 136, 15048, true, 66311785, 33791, true, 334376112, 1); Nested(2, 144409, 264, 42289, 547, 1);
  }

  lemma Prime144409()
    ensures Prime(144409)
  {
    TrialPrimes3();
    Powers144409();
    ProductOf(547, 1, 1);
    hide *;
    Excluded(144409, 2, 547, 264, 42289, 72365, 21191);
    PrimeByOrder(144409, 2, [547]);
  }

  lemma Powers288361()
    ensures Leaves(2, 288360, 1, 288361)
    ensures Leaves(2, 3240, 174629, 288361)
    ensures Leaves(2, 57672, 41405, 288361)
    ensures Leaves(2, 96120, 98933, 288361)
  {
    hide *;
    Start(2, 288361); Bits(2, 288361, 0, 1, true, 0, 2, true, 0, 8);
    Bits(2, 288361, 3, 8, false, 0, 64, true, 0, 8192);
    Bits(2, 288361, 13, 8192, true, 465, 129863, false, 58483, 182406);
    Bits(2, 288361, 54, 182406, false, 115382, 279934, false, 271753, 77523); Start(77523, 288361);
    Bits(77523, 288361, 0, 1, true, 0, 77523, true, 1615679406, 61101);
    Bits(77523, 288361, 3, 61101, true, 1003669401, 76362, true, 1567648303, 174629);
    Nested(2, 288361, 216, 77523, 15, 174629); Bits(77523, 288361, 0, 1, false, 0, 1, true, 0, 77523);
    Bits(77523, 288361, 1, 77523, false, 20841, 83928, false, 24427, 115037);
    Bits(77523, 288361, 4, 115037, false, 45892, 48357, false, 8109, 80100);
    Bits(77523, 288361, 16, 80100, true, 1724880768, 88752, false, 27316, 48428);
    Bits(77523, 288361, 66, 48428, true, 630502939, 4253, true, 4862782, 41405);
    Nested(2, 288361, 216, 77523, 267, 41405);
    Bits(77523, 288361, 1, 77523, true, 1615679406, 61101, false, 12946, 210695);
    Bits(77523, 288361, 6, 210695, true, 11934452679, 277956, true, 20770461884, 80404);
    Bits(77523, 288361, 27, 80404, true, 1737998341, 104867, true, 2956458151, 33836);
    Bits(77523, 288361, 111, 33836, false, 3970, 81726, true, 1795620415, 98933);
    Nested(2, 288361, 216, 77523, 445, 98933); Start(98933, 288361);
    Bits(98933, 288361, 0, 1, true, 0, 98933, true, 3358048876, 1); Nested(2, 288361, 96120, 98933, 3, 1);
  }

  lemma Prime288361()
    ensures Prime(288361)
  {
    TrialPrimes1();
    TrialPrimes2();
    Powers288361();
    ProductOf(89, 5, 3);
    hide *;
    Excluded(288361, 2, 89, 3240, 174629, 151428, 91703);
    Excluded(288361, 2, 5, 57672, 41405, 80002, 11487);
    Excluded(288361, 2, 3, 96120, 98933, 63142, 21663);
    PrimeByOrder(288361, 2, [89, 5, 3]);
  }

  lemma Powers576883()
    ensures Leaves(2, 576882, 1, 576883)
    ensures Leaves(2, 486, 484447, 576883)
  {
    hide *;
    Start(2, 576883); Bits(2, 576883, 0, 1, false, 0, 1, true, 0, 2); Bits(2, 576883, 1, 2, true, 0, 8, true, 0, 128);
    Bits(2, 576883, 7, 128, true, 0, 32768, false, 1861, 162561);
    Bits(2, 576883, 30, 162561, false, 45808, 222257, true, 171258, 519284);
    Bits(2, 576883, 121, 519284, true, 934871, 558219, false, 540158, 484447); Start(484447, 576883);
    Bits(484447, 576883, 0, 1, false, 0, 1, true, 0, 484447);
    Bits(484447, 576883, 1, 484447, false, 406822, 199983, false, 69326, 209431);
    Bits(484447, 576883, 4, 209431, true, 36833285780, 361427, false, 226440, 89809);
    Bits(484447, 576883, 18, 89809, true, 6773267864, 63095, false, 6900, 486325);
    Bits(484447, 576883, 74, 486325, false, 409982, 359519, false, 224055, 390796);
    Bits(484447, 576883, 296, 390796, true, 128250406246, 319134, true, 85527284057, 1);
    Nested(2, 576883, 486, 484447, 1187, 1);
  }

  lemma Prime576883()
    ensures Prime(576883)
  {
    TrialPrimes6();
    Powers576883();
    ProductOf(1187, 1, 1);
    hide *;
    Excluded(576883, 2, 1187, 486, 484447, 324061, 272135);
    PrimeByOrder(576883, 2, [1187]);
  }

  lemma Powers64081()
    ensures Leaves(2, 64080, 1, 64081)
    ensures Leaves(2, 720, 19610, 64081)
    ensures Leaves(2, 12816, 18878, 64081)
  {
    hide *;
    Start(2, 64081); Bits(2, 64081, 0, 1, true, 0, 2, false, 0, 4); Bits(2, 64081, 2, 4, false, 0, 16, true, 0, 512);
    Bits(2, 64081, 9, 512, false, 4, 5820, false, 528, 37632);
    Bits(2, 64081, 36, 37632, false, 22099, 41405, false, 26753, 15032); Start(15032, 64081);
    Bits(15032, 64081, 0, 1, false, 0, 1, true, 0, 15032);
    Bits(15032, 64081, 1, 15032, false, 3526, 11418, true, 30582118, 19610); Nested(2, 64081, 144, 15032, 5, 19610);
    Bits(15032, 64081, 5, 19610, true, 90207505, 39295, false, 24096, 1249);
    Bits(15032, 64081, 22, 1249, false, 24, 22057, true, 114124890, 18878); Nested(2, 64081, 144, 15032, 89, 18878);
    Start(18878, 64081); Bits(18878, 64081, 0, 1, false, 0, 1, true, 0, 18878);
    Bits(18878, 64081, 1, 18878, false, 5561, 24443, true, 176009341, 1); Nested(2, 64081, 12816, 18878, 5, 1);
  }

  lemma Prime64081()
    ensures Prime(64081)
  {
    TrialPrimes1();
    TrialPrimes2();
    Powers64081();
    ProductOf(89, 5, 1);
    hide *;
    Excluded(64081, 2, 89, 720, 19610, 3598, 1101);
    Excluded(64081, 2, 5, 12816, 18878, 6993, 2060);
    PrimeByOrder(64081, 2, [89, 5]);
  }

  lemma Powers1153459()
    ensures Leaves(2, 1153458, 1, 1153459)
    ensures Leaves(2, 18, 262144, 1153459)
  {
    hide *;
    Start(2, 1153459); Bits(2, 1153459, 0, 1, false, 0, 1, true, 0, 2);
    Bits(2, 1153459, 1, 2, false, 0, 4, false, 0, 16); Bits(2, 1153459, 4, 16, true, 0, 512, false, 0, 262144);
    Start(262144, 1153459); Bits(262144, 1153459, 0, 1, true, 0, 262144, true, 15617718973, 604377);
    Bits(262144, 1153459, 3, 604377, true, 83014435133, 93529, true, 1988063911, 656955);
    Bits(262144, 1153459, 15, 656955, true, 98086447296, 524736, false, 238714, 1057970);
    Bits(262144, 1153459, 62, 1057970, true, 254380880248, 831768, false, 599794, 218378);
    Bits(262144, 1153459, 250, 218378, false, 41344, 341988, true, 26580276521, 160597);
    Bits(262144, 1153459, 1001, 160597, false, 22360, 53169, true, 642472797, 755961);
    Bits(262144, 1153459, 4005, 755961, false, 495446, 385807, false, 129044, 78053);
    Bits(262144, 1153459, 16020, 78053, false, 5281, 853830, true, 165684003461, 1);
    Nested(2, 1153459, 18, 262144, 64081, 1);
  }

  lemma Prime1153459()
    ensures Prime(1153459)
  {
    Prime64081();
    Powers1153459();
    ProductOf(64081, 1, 1);
    hide *;
    Excluded(1153459, 2, 64081, 18, 262144, 510928, 116117);
    PrimeByOrder(1153459, 2, [64081]);
  }

  lemma Powers2307163()
    ensures Leaves(2, 2307162, 1, 2307163)
    ensures Leaves(2, 858, 1284226, 2307163)
  {
    hide *;
    Start(2, 2307163); Bits(2, 2307163, 0, 1, true, 0, 2, true, 0, 8);
    Bits(2, 2307163, 3, 8, false, 0, 64, true, 0, 8192);
    Bits(2, 2307163, 13, 8192, false, 29, 201137, true, 35069, 2286291);
    Bits(2, 2307163, 53, 2286291, true, 4531215, 1480317, false, 949797, 1924578);
    Bits(2, 2307163, 214, 1924578, true, 3210870, 494358, false, 105926, 1284226); Start(1284226, 2307163);
    Bits(1284226, 2307163, 0, 1, true, 0, 1284226, false, 714833, 170297);
    Bits(1284226, 2307163, 2, 170297, true, 16142737128, 1323370, false, 759074, 709838);
    Bits(1284226, 2307163, 10, 709838, true, 280466935779, 1502167, false, 978043, 1073880);
    Bits(1284226, 2307163, 42, 1073880, false, 499842, 1286154, false, 716981, 76813);
    Bits(1284226, 2307163, 168, 76813, false, 2557, 821178, false, 292278, 320370);
    Bits(1284226, 2307163, 672, 320370, false, 44486, 483682, true, 130221601221, 1);
    Nested(2, 2307163, 858, 1284226, 2689, 1);
  }

  lemma Prime2307163()
    ensures Prime(2307163)
  {
    TrialPrimes11();
    Powers2307163();
    ProductOf(2689, 1, 1);
    hide *;
    Excluded(2307163, 2, 2689, 858, 1284226, 305094, 169823);
    PrimeByOrder(2307163, 2, [2689]);
  }

  lemma Powers4613893()
    ensures Leaves(2, 4613892, 1, 4613893)
    ensures Leaves(2, 20148, 1449868, 4613893)
    ensures Leaves(2, 63204, 2308790, 4613893)
  {
    hide *;
    Start(2, 4613893); Bits(2, 4613893, 0, 1, false, 0, 1, true, 0, 2);
    Bits(2, 4613893, 1, 2, false, 0, 4, false, 0, 16); Bits(2, 4613893, 4, 16, false, 0, 256, true, 0, 131072);
    Bits(2, 4613893, 17, 131072, false, 3723, 2345545, true, 2384789, 1420473);
    Bits(2, 4613893, 69, 1420473, false, 437319, 470862, false, 48052, 4236608); Start(4236608, 4613893);
    Bits(4236608, 4613893, 0, 1, false, 0, 1, true, 0, 4236608);
    Bits(4236608, 4613893, 1, 4236608, false, 3890174, 758282, false, 124621, 3631971);
    Bits(4236608, 4613893, 4, 3631971, true, 12112547904006, 2183970, false, 1033774, 2338718);
    Bits(4236608, 4613893, 18, 2338718, false, 1185463, 2446065, true, 5493975903524, 1449868);
    Nested(2, 4613893, 276, 4236608, 73, 1449868);
    Bits(4236608, 4613893, 0, 1, true, 0, 4236608, true, 16481142986068, 624988);
    Bits(4236608, 4613893, 3, 624988, true, 358669230406, 4440994, false, 4274574, 651454);
    Bits(4236608, 4613893, 14, 651454, false, 91981, 1822083, true, 3048506151230, 3770122);
    Bits(4236608, 4613893, 57, 3770122, false, 3080656, 2741076, true, 6899107586626, 2308790);
    Nested(2, 4613893, 276, 4236608, 229, 2308790); Start(2308790, 4613893);
    Bits(2308790, 4613893, 0, 1, false, 0, 1, true, 0, 2308790);
    Bits(2308790, 4613893, 1, 2308790, false, 1155317, 2245019, false, 1092376, 4330593);
    Bits(2308790, 4613893, 4, 4330593, true, 9384511118240, 4186390, false, 3798497, 2513279);
    Bits(2308790, 4613893, 18, 2513279, false, 1369032, 4170265, true, 8702503774993, 1);
    Nested(2, 4613893, 63204, 2308790, 73, 1);
  }

  lemma Prime4613893()
    ensures Prime(4613893)
  {
    TrialPrimes2();
    TrialPrimes3();
    Powers4613893();
    ProductOf(229, 73, 1);
    hide *;
    Excluded(4613893, 2, 229, 20148, 1449868, 1397495, 439148);
    Excluded(4613893, 2, 73, 63204, 2308790, 4546281, 2274956);
    PrimeByOrder(4613893, 2, [229, 73]);
  }

  lemma Powers9227641()
    ensures Leaves(2, 9227640, 1, 9227641)
    ensures Leaves(2, 15720, 1403101, 9227641)
    ensures Leaves(2, 70440, 4746244, 9227641)
  {
    hide *;
    Start(2, 9227641); Bits(2, 9227641, 0, 1, false, 0, 1, true, 0, 2);
    Bits(2, 9227641, 1, 2, true, 0, 8, true, 0, 128); Bits(2, 9227641, 7, 128, true, 0, 32768, false, 116, 3335468);
    Bits(2, 9227641, 30, 3335468, false, 1205654, 4496810, false, 2191383, 4558597); Start(4558597, 9227641);
    Bits(4558597, 9227641, 0, 1, true, 0, 4558597, false, 2252017, 2206512);
    Bits(4558597, 9227641, 2, 2206512, false, 527620, 7261724, false, 5714638, 7543218);
    Bits(4558597, 9227641, 8, 7543218, false, 6166271, 2698813, false, 789323, 2331926);
    Bits(4558597, 9227641, 32, 2331926, true, 2686396046482, 1476210, true, 1076556422639, 1403101);
    Nested(2, 9227641, 120, 4558597, 131, 1403101);
    Bits(4558597, 9227641, 2, 2206512, false, 527620, 7261724, true, 26050735369352, 498440);
    Bits(4558597, 9227641, 9, 498440, false, 26923, 6654957, false, 4799542, 2131427);
    Bits(4558597, 9227641, 36, 2131427, true, 2244302722054, 1115799, false, 134921, 4857040);
    Bits(4558597, 9227641, 146, 4857040, true, 11654237668738, 5888142, true, 17127621633104, 4746244);
    Nested(2, 9227641, 120, 4558597, 587, 4746244); Start(4746244, 9227641);
    Bits(4746244, 9227641, 0, 1, true, 0, 4746244, false, 2441234, 1158542);
    Bits(4746244, 9227641, 2, 1158542, false, 145456, 3816468, false, 1578456, 2692728);
    Bits(4746244, 9227641, 8, 2692728, false, 785767, 8296337, false, 7459025, 2707544);
    Bits(4746244, 9227641, 32, 2707544, true, 3770599600429, 6910395, true, 24562078558139, 1);
    Nested(2, 9227641, 70440, 4746244, 131, 1);
  }

  lemma Prime9227641()
    ensures Prime(9227641)
  {
    TrialPrimes2();
    TrialPrimes5();
    Powers9227641();
    ProductOf(587, 131, 1);
    hide *;
    Excluded(9227641, 2, 587, 15720, 1403101, 5746898, 873839);
    Excluded(9227641, 2, 131, 70440, 4746244, 6644236, 3417467);
    PrimeByOrder(9227641, 2, [587, 131]);
  }

  lemma Powers18455029()
    ensures Leaves(2, 18455028, 1, 18455029)
    ensures Leaves(2, 7764, 6296903, 18455029)
    ensures Leaves(2, 28524, 7672291, 18455029)
  {
    hide *;
    Start(2, 18455029); Bits(2, 18455029, 0, 1, true, 0, 2, true, 0, 8);
    Bits(2, 18455029, 3, 8, false, 0, 64, false, 0, 4096); Start(4096, 18455029);
    Bits(4096, 18455029, 0, 1, true, 0, 4096, false, 0, 16777216);
    Bits(4096, 18455029, 2, 16777216, true, 62471942179, 7078785, false, 2715205, 10060280);
    Bits(4096, 18455029, 10, 10060280, false, 5484100, 9139500, false, 4526162, 9281302);
    Bits(4096, 18455029, 40, 9281302, false, 4667701, 9496875, true, 20017353535, 8322485);
    Bits(4096, 18455029, 161, 8322485, true, 15372739155, 17161105, true, 65363562293, 6296903);
    Nested(2, 18455029, 12, 4096, 647, 6296903);
    Bits(4096, 18455029, 2, 16777216, false, 15251939, 159425, true, 5641025, 10275275);
    Bits(4096, 18455029, 9, 10275275, false, 5721003, 51538, true, 589522, 8052486);
    Bits(4096, 18455029, 37, 8052486, false, 3513542, 11277478, false, 6891428, 6449072);
    Bits(4096, 18455029, 148, 6449072, true, 9230806924, 16388868, false, 14554027, 3969641);
    Bits(4096, 18455029, 594, 3969641, false, 853862, 1696883, true, 639070857, 7672291);
    Nested(2, 18455029, 12, 4096, 2377, 7672291); Start(7672291, 18455029);
    Bits(7672291, 18455029, 0, 1, true, 0, 7672291, false, 3189593, 17875484);
    Bits(7672291, 18455029, 2, 17875484, true, 132839109030678, 3820834, false, 791045, 14040251);
    Bits(7672291, 18455029, 10, 14040251, false, 10681568, 937529, false, 47627, 2959658);
    Bits(7672291, 18455029, 40, 2959658, false, 474644, 6692288, true, 18619138371947, 10105241);
    Bits(7672291, 18455029, 161, 10105241, true, 42452540567189, 7400090, true, 22765874532831, 1);
    Nested(2, 18455029, 28524, 7672291, 647, 1);
  }

  lemma Prime18455029()
    ensures Prime(18455029)
  {
    TrialPrimes10();
    TrialPrimes5();
    Powers18455029();
    ProductOf(2377, 647, 1);
    hide *;
    Excluded(18455029, 2, 2377, 7764, 6296903, 12878156, 4394059);
    Excluded(18455029, 2, 647, 28524, 7672291, 11816764, 4912571);
    PrimeByOrder(18455029, 2, [2377, 647]);
  }

  lemma Powers1230367()
    ensures Leaves(2, 1230366, 1, 1230367)
    ensures Leaves(2, 282, 35631, 1230367)
  {
    hide *;
    Start(2, 1230367); Bits(2, 1230367, 0, 1, false, 0, 1, true, 0, 2);
    Bits(2, 1230367, 1, 2, false, 0, 4, false, 0, 16); Bits(2, 1230367, 4, 16, false, 0, 256, true, 0, 131072);
    Bits(2, 1230367, 17, 131072, true, 27926, 509526, false, 211007, 695107);
    Bits(2, 1230367, 70, 695107, true, 785414, 15960, false, 207, 35631); Start(35631, 1230367);
    Bits(35631, 1230367, 0, 1, false, 0, 1, true, 0, 35631);
    Bits(35631, 1230367, 1, 35631, false, 1031, 1059784, false, 912851, 380339);
    Bits(35631, 1230367, 4, 380339, false, 117572, 1045997, true, 31685036721, 858072);
    Bits(35631, 1230367, 17, 858072, false, 598429, 263741, false, 56535, 516736);
    Bits(35631, 1230367, 68, 516736, false, 217021, 616989, false, 309399, 1106688);
    Bits(35631, 1230367, 272, 1106688, true, 35468574850, 386114, false, 121170, 451606);
    Bits(35631, 1230367, 1090, 451606, true, 5906262479, 658123, true, 12543174794, 1);
    Nested(2, 1230367, 282, 35631, 4363, 1);
  }

  lemma Prime1230367()
    ensures Prime(1230367)
  {
    TrialPrimes13();
    Powers1230367();
    ProductOf(4363, 1, 1);
    hide *;
    Excluded(1230367, 2, 4363, 282, 35631, 362480, 10497);
    PrimeByOrder(1230367, 2, [4363]);
  }

  lemma Powers36911011()
    ensures Leaves(2, 36911010, 1, 36911011)
    ensures Leaves(2, 30, 3322505, 36911011)
  {
    hide *;
    Start(2, 36911011); Bits(2, 36911011, 0, 1, false, 0, 1, true, 0, 2);
    Bits(2, 36911011, 1, 2, true, 0, 8, true, 0, 128); Bits(2, 36911011, 7, 128, true, 0, 32768, false, 29, 3322505);
    Start(3322505, 36911011); Bits(3322505, 36911011, 0, 1, false, 0, 1, true, 0, 3322505);
    Bits(3322505, 36911011, 1, 3322505, false, 299071, 26504244, false, 19031582, 17462134);
    Bits(3322505, 36911011, 4, 17462134, true, 27447597441016, 24552604, false, 16331992, 26816904);
    Bits(3322505, 36911011, 18, 26816904, true, 64733185196801, 22010269, true, 43607421041249, 3391566);
    Bits(3322505, 36911011, 75, 3391566, false, 311633, 30841393, false, 25769858, 10074011);
    Bits(3322505, 36911011, 300, 10074011, false, 2749469, 17124962, true, 26397873012884, 731496);
    Bits(3322505, 36911011, 1201, 731496, true, 48165227249, 34811341, false, 32831109, 36777082);
    Bits(3322505, 36911011, 4806, 36777082, false, 36643638, 35136706, false, 33447691, 18104835);
    Bits(3322505, 36911011, 19224, 18104835, false, 8880413, 28449682, true, 72855867738992, 35154708);
    Bits(3322505, 36911011, 76897, 35154708, true, 111244024580105, 36430165, true, 119462604502700, 5468925);
    Bits(3322505, 36911011, 307591, 5468925, true, 2692239163376, 15007489, true, 20273361749464, 1);
    Nested(2, 36911011, 30, 3322505, 1230367, 1);
  }

  lemma Prime36911011()
    ensures Prime(36911011)
  {
    Prime1230367();
    Powers36911011();
    ProductOf(1230367, 1, 1);
    hide *;
    Excluded(36911011, 2, 1230367, 30, 3322505, 2209581, 198893);
    PrimeByOrder(36911011, 2, [1230367]);
  }

  lemma Powers41011()
    ensures Leaves(2, 41010, 1, 41011)
    ensures Leaves(2, 30, 32833, 41011)
  {
    hide *;
    Start(2, 41011); Bits(2, 41011, 0, 1, false, 0, 1, true, 0, 2); Bits(2, 41011, 1, 2, true, 0, 8, true, 0, 128);
    Bits(2, 41011, 7, 128, true, 0, 32768, false, 26181, 32833); Start(32833, 41011);
    Bits(32833, 41011, 0, 1, false, 0, 1, true, 0, 32833);
    Bits(32833, 41011, 1, 32833, false, 26285, 31754, true, 807248205, 34573);
    Bits(32833, 41011, 5, 34573, false, 29145, 26734, true, 572187142, 39186);
    Bits(32833, 41011, 21, 39186, false, 37442, 8734, true, 61071218, 6350);
    Bits(32833, 41011, 85, 6350, false, 983, 8687, true, 60415705, 16422);
    Bits(32833, 41011, 341, 16422, true, 215904802, 29150, true, 680279409, 1); Nested(2, 41011, 30, 32833, 1367, 1);
  }

  lemma Prime41011()
    ensures Prime(41011)
  {
    TrialPrimes7();
    Powers41011();
    ProductOf(1367, 1, 1);
    hide *;
    Excluded(41011, 2, 1367, 30, 32833, 20152, 16133);
    PrimeByOrder(41011, 2, [1367]);
  }

  lemma Powers1230331()
    ensures Leaves(2, 1230330, 1, 1230331)
    ensures Leaves(2, 30, 893192, 1230331)
  {
    hide *;
    Start(2, 1230331); Bits(2, 1230331, 0, 1, false, 0, 1, true, 0, 2);
    Bits(2, 1230331, 1, 2, true, 0, 8, true, 0, 128); Bits(2, 1230331, 7, 128, true, 0, 32768, false, 872, 893192);
    Start(893192, 1230331); Bits(893192, 1230331, 0, 1, true, 0, 893192, false, 648436, 1036548);
    Bits(893192, 1230331, 2, 1036548, true, 780012735822, 65286, false, 3464, 395212);
    Bits(893192, 1230331, 10, 395212, false, 126951, 774163, false, 487127, 901532);
    Bits(893192, 1230331, 40, 901532, false, 660602, 827762, false, 556915, 139779);
    Bits(893192, 1230331, 160, 139779, false, 15880, 512561, false, 213535, 48636);
    Bits(893192, 1230331, 640, 48636, true, 1717269898, 466994, true, 158323528117, 470185);
    Bits(893192, 1230331, 2563, 470185, false, 179686, 678159, false, 373801, 671150);
    Bits(893192, 1230331, 10252, 671150, true, 327010762890, 1203410, true, 1051356707629, 1);
    Nested(2, 1230331, 30, 893192, 41011, 1);
  }

  lemma Prime1230331()
    ensures Prime(1230331)
  {
    Prime41011();
    Powers1230331();
    ProductOf(41011, 1, 1);
    hide *;
    Excluded(1230331, 2, 41011, 30, 893192, 396648, 287957);
    PrimeByOrder(1230331, 2, [41011]);
  }

  lemma Powers73819861()
    ensures Leaves(2, 73819860, 1, 73819861)
    ensures Leaves(2, 60, 67256642, 73819861)
  {
    hide *;
    Start(2, 73819861); Bits(2, 73819861, 0, 1, true, 0, 2, true, 0, 8);
    Bits(2, 73819861, 3, 8, true, 0, 128, true, 0, 32768);
    Bits(2, 73819861, 15, 32768, false, 14, 40263770, false, 21961178, 67256642); Start(67256642, 73819861);
    Bits(67256642, 73819861, 0, 1, false, 0, 1, true, 0, 67256642);
    Bits(67256642, 73819861, 1, 67256642, false, 61276949, 35432075, false, 17006696, 4016369);
    Bits(67256642, 73819861, 4, 4016369, true, 14697016089039, 73763783, false, 73707747, 44307922);
    Bits(67256642, 73819861, 18, 44307922, true, 1788647343702341, 16599327, true, 251039995110208, 58163330);
    Bits(67256642, 73819861, 75, 58163330, false, 45827408, 68138612, false, 62894597, 37095527);
    Bits(67256642, 73819861, 300, 37095527, false, 18641028, 27550621, true, 691551840944090, 64306032);
    Bits(67256642, 73819861, 1201, 64306032, false, 56018335, 48433589, true, 2137249681789164, 21221078);
    Bits(67256642, 73819861, 4805, 21221078, true, 410295581653889, 56912499, true, 2951054759263609, 25368293);
    Bits(67256642, 73819861, 19223, 25368293, true, 586333147465907, 496131, true, 224261480627, 65084515);
    Bits(67256642, 73819861, 76895, 65084515, true, 3859377874100449, 15496861, false, 3253226, 9731735);
    Bits(67256642, 73819861, 307582, 9731735, true, 86286430932035, 11217315, true, 114640953181709, 1);
    Nested(2, 73819861, 60, 67256642, 1230331, 1);
  }

  lemma Prime73819861()
    ensures Prime(73819861)
  {
    Prime1230331();
    Powers73819861();
    ProductOf(1230331, 1, 1);
    hide *;
    Excluded(73819861, 2, 1230331, 60, 67256642, 13326957, 12142076);
    PrimeByOrder(73819861, 2, [1230331]);
  }

  lemma Powers26573()
    ensures Leaves(2, 26572, 1, 26573)
    ensures Leaves(2, 364, 7106, 26573)
    ensures Leaves(2, 2044, 20146, 26573)
  {
    hide *;
    Start(2, 26573); Bits(2, 26573, 0, 1, false, 0, 1, true, 0, 2); Bits(2, 26573, 1, 2, true, 0, 8, true, 0, 128);
    Bits(2, 26573, 7, 128, false, 0, 16384, false, 10101, 21583); Start(21583, 26573);
    Bits(21583, 26573, 0, 1, true, 0, 21583, true, 378350963, 22488);
    Bits(21583, 26573, 3, 22488, false, 19030, 25954, true, 547116514, 7106); Nested(2, 26573, 28, 21583, 13, 7106);
    Bits(21583, 26573, 0, 1, false, 0, 1, true, 0, 21583);
    Bits(21583, 26573, 1, 21583, false, 17530, 1199, false, 54, 2659);
    Bits(21583, 26573, 4, 2659, true, 5742591, 4180, false, 657, 13939);
    Bits(21583, 26573, 18, 13939, false, 7311, 20518, true, 341933202, 20146); Nested(2, 26573, 28, 21583, 73, 20146);
    Start(20146, 26573); Bits(20146, 26573, 0, 1, true, 0, 20146, true, 307698869, 26199);
    Bits(20146, 26573, 3, 26199, false, 25830, 7011, true, 37265605, 1); Nested(2, 26573, 2044, 20146, 13, 1);
  }

  lemma Prime26573()
    ensures Prime(26573)
  {
    TrialPrimes1();
    TrialPrimes2();
    Powers26573();
    ProductOf(73, 13, 1);
    hide *;
    Excluded(26573, 2, 73, 364, 7106, 24789, 6628);
    Excluded(26573, 2, 13, 2044, 20146, 2253, 1708);
    PrimeByOrder(26573, 2, [73, 13]);
  }

  lemma Powers147639589()
    ensures Leaves(2, 147639588, 1, 147639589)
    ensures Leaves(2, 5556, 5455794, 147639589)
  {
    hide *;
    Start(2, 147639589); Bits(2, 147639589, 0, 1, false, 0, 1, true, 0, 2);
    Bits(2, 147639589, 1, 2, false, 0, 4, true, 0, 32); Bits(2, 147639589, 5, 32, false, 0, 1024, true, 0, 2097152);
    Bits(2, 147639589, 21, 2097152, true, 59578, 21588766, false, 3156841, 109624407);
    Bits(2, 147639589, 86, 109624407, true, 162795232, 76563650, true, 79409493, 93426623);
    Bits(2, 147639589, 347, 93426623, false, 59120551, 34090590, true, 15743315, 96998665);
    Bits(2, 147639589, 1389, 96998665, false, 63727764, 126933229, false, 109130923, 5455794);
    Start(5455794, 147639589); Bits(5455794, 147639589, 0, 1, false, 0, 1, true, 0, 5455794);
    Bits(5455794, 147639589, 1, 5455794, true, 1099945238442, 51825846, false, 18192399, 2331705);
    Bits(5455794, 147639589, 6, 2331705, false, 36825, 20342100, true, 15291380889825, 66258075);
    Bits(5455794, 147639589, 25, 66258075, true, 162230596344089, 130101829, true, 625492260508793, 21570277);
    Bits(5455794, 147639589, 103, 21570277, true, 17193590574051, 79232787, true, 231987722434946, 6388792);
    Bits(5455794, 147639589, 415, 6388792, false, 276461, 74804735, false, 37901408, 78778913);
    Bits(5455794, 147639589, 1660, 78778913, true, 229337516105093, 16054009, true, 9524060390736, 7239810);
    Bits(5455794, 147639589, 6643, 7239810, false, 355018, 137228498, true, 695895064142075, 1);
    Nested(2, 147639589, 5556, 5455794, 26573, 1);
  }

  lemma Prime147639589()
    ensures Prime(147639589)
  {
    Prime26573();
    Powers147639589();
    ProductOf(26573, 1, 1);
    hide *;
    Excluded(147639589, 2, 26573, 5556, 5455794, 28392365, 1049196);
    PrimeByOrder(147639589, 2, [26573]);
  }

  lemma Powers1230329()
    ensures Leaves(2, 1230328, 1, 1230329)
    ensures Leaves(2, 30008, 348078, 1230329)
    ensures Leaves(2, 39688, 1063561, 1230329)
  {
    hide *;
    Start(2, 1230329); Bits(2, 1230329, 0, 1, true, 0, 2, true, 0, 8);
    Bits(2, 1230329, 3, 8, true, 0, 128, true, 0, 32768);
    Bits(2, 1230329, 15, 32768, false, 872, 894936, false, 650972, 714308);
    Bits(2, 1230329, 60, 714308, true, 829430, 55258, false, 2481, 1000315);
    Bits(2, 1230329, 242, 1000315, false, 813302, 1062867, false, 918198, 632547); Start(632547, 1230329);
    Bits(632547, 1230329, 0, 1, false, 0, 1, true, 0, 632547);
    Bits(632547, 1230329, 1, 632547, true, 205710822266, 225809, true, 26215251855, 832812);
    Bits(632547, 1230329, 7, 832812, true, 356586985155, 199173, true, 20395411365, 348078);
    Nested(2, 1230329, 968, 632547, 31, 348078); Bits(632547, 1230329, 0, 1, true, 0, 632547, false, 325210, 413119);
    Bits(632547, 1230329, 2, 413119, true, 87744898945, 1213162, false, 1196234, 657258);
    Bits(632547, 1230329, 10, 657258, false, 351115, 1111729, true, 635432478154, 1063561);
    Nested(2, 1230329, 968, 632547, 41, 1063561); Start(1063561, 1230329);
    Bits(1063561, 1230329, 0, 1, false, 0, 1, true, 0, 1063561);
    Bits(1063561, 1230329, 1, 1063561, true, 977835837933, 557524, true, 268700378160, 6496);
    Bits(1063561, 1230329, 7, 6496, true, 36478181, 143427, true, 17782915792, 1);
    Nested(2, 1230329, 39688, 1063561, 31, 1);
  }

  lemma Prime1230329()
    ensures Prime(1230329)
  {
    TrialPrimes1();
    Powers1230329();
    ProductOf(41, 31, 1);
    hide *;
    Excluded(1230329, 2, 41, 30008, 348078, 222407, 62922);
    Excluded(1230329, 2, 31, 39688, 1063561, 537255, 464431);
    PrimeByOrder(1230329, 2, [41, 31]);
  }

  lemma Powers2460659()
    ensures Leaves(2, 2460658, 1, 2460659)
    ensures Leaves(2, 2, 4, 2460659)
  {
    hide *;
    Start(2, 2460659); Bits(2, 2460659, 0, 1, true, 0, 2, false, 0, 4); Start(4, 2460659);
    Bits(4, 2460659, 0, 1, false, 0, 1, true, 0, 4); Bits(4, 2460659, 1, 4, false, 0, 16, false, 0, 256);
    Bits(4, 2460659, 4, 256, true, 0, 262144, false, 27927, 652843);
    Bits(4, 2460659, 18, 652843, true, 692829, 16285, true, 431, 260871);
    Bits(4, 2460659, 75, 260871, false, 27656, 1693337, false, 1165293, 1487482);
    Bits(4, 2460659, 300, 1487482, false, 899191, 273455, true, 121557, 222037);
    Bits(4, 2460659, 1201, 222037, false, 20035, 1126304, true, 2062147, 2226791);
    Bits(4, 2460659, 4805, 2226791, true, 8060601, 2234665, true, 8117707, 1859987);
    Bits(4, 2460659, 19223, 1859987, true, 5623780, 1689656, true, 4640931, 959815);
    Bits(4, 2460659, 76895, 959815, true, 1497557, 2226837, false, 2015233, 1806022);
    Bits(4, 2460659, 307582, 1806022, false, 1325545, 1230329, true, 2460657, 1);
    Nested(2, 2460659, 2, 4, 1230329, 1);
  }

  lemma Prime2460659()
    ensures Prime(2460659)
  {
    Prime1230329();
    Powers2460659();
    ProductOf(1230329, 1, 1);
    hide *;
    Excluded(2460659, 2, 1230329, 2, 4, 820220, 1);
    PrimeByOrder(2460659, 2, [1230329]);
  }

  lemma Powers295279081()
    ensures Leaves(2, 295279080, 1, 295279081)
    ensures Leaves(2, 120, 216873870, 295279081)
  {
    hide *;
    Start(2, 295279081); Bits(2, 295279081, 0, 1, false, 0, 1, true, 0, 2);
    Bits(2, 295279081, 1, 2, true, 0, 8, true, 0, 128);
    Bits(2, 295279081, 7, 128, true, 0, 32768, false, 3, 187904581);
    Bits(2, 295279081, 30, 187904581, false, 119575458, 212391463, false, 152771179, 216873870);
    Start(216873870, 295279081); Bits(216873870, 295279081, 0, 1, true, 0, 216873870, false, 159287530, 15616970);
    Bits(216873870, 295279081, 2, 15616970, false, 825963, 156400897, true, 17966067532251434, 167214676);
    Bits(216873870, 295279081, 9, 167214676, false, 94692613, 125656323, true, 11596935532853714, 209746396);
    Bits(216873870, 295279081, 37, 209746396, true, 32311979395692382, 16976978, false, 976086, 4955518);
    Bits(216873870, 295279081, 150, 4955518, false, 83165, 273876959, false, 254026084, 37538877);
    Bits(216873870, 295279081, 600, 37538877, true, 1034992258335932, 105760738, false, 37880549, 5809175);
    Bits(216873870, 295279081, 2402, 5809175, true, 24785830085139, 27091491, true, 539064042217245, 284441625);
    Bits(216873870, 295279081, 9611, 284441625, true, 59423858909856058, 14446052, true, 153275554659775, 23357705);
    Bits(216873870, 295279081, 38447, 23357705, true, 400714342429809, 98611221, true, 7142121290042482, 70705628);
    Bits(216873870, 295279081, 153791, 70705628, false, 16930714, 160280550, false, 87001946, 48210874);
    Bits(216873870, 295279081, 615164, 48210874, true, 1707121996216794, 14833806, true, 161614282538399, 1);
    Nested(2, 295279081, 120, 216873870, 2460659, 1);
  }

  lemma Prime295279081()
    ensures Prime(295279081)
  {
    Prime2460659();
    Powers295279081();
    ProductOf(2460659, 1, 1);
    hide *;
    Excluded(295279081, 2, 2460659, 120, 216873870, 112056615, 82302314);
    PrimeByOrder(295279081, 2, [2460659]);
  }

  lemma Powers590559793()
    ensures Leaves(2, 590559792, 1, 590559793)
    ensures Leaves(2, 427632, 178479798, 590559793)
    ensures Leaves(2, 3910992, 211554168, 590559793)
  {
    hide *;
    Start(2, 590559793); Bits(2, 590559793, 0, 1, true, 0, 2, false, 0, 4);
    Bits(2, 590559793, 2, 4, true, 0, 32, true, 0, 2048);
    Bits(2, 590559793, 11, 2048, false, 0, 4194304, false, 29789, 370739);
    Bits(2, 590559793, 44, 370739, false, 232, 437534145, true, 648320899, 170748143);
    Bits(2, 590559793, 177, 170748143, false, 49368292, 33664893, false, 1919069, 29308732);
    Bits(2, 590559793, 708, 29308732, false, 1454555, 71740709, false, 8715001, 141267888);
    Start(141267888, 590559793); Bits(141267888, 590559793, 0, 1, true, 0, 141267888, false, 33792710, 357471514);
    Bits(141267888, 590559793, 2, 357471514, false, 216380940, 185906776, true, 8267420273806241, 584112175);
    Bits(141267888, 590559793, 9, 584112175, false, 577734950, 502365275, true, 60369669850918800, 112221600);
    Bits(141267888, 590559793, 37, 112221600, true, 3012537692662929, 376266303, true, 33866493242847258, 178479798);
    Nested(2, 590559793, 2832, 141267888, 151, 178479798);
    Bits(141267888, 590559793, 0, 1, false, 0, 1, true, 0, 141267888);
    Bits(141267888, 590559793, 1, 141267888, false, 33792710, 357471514, true, 30567678441725505, 26261583);
    Bits(141267888, 590559793, 5, 26261583, false, 1167825, 251405664, true, 15119230648753268, 134514124);
    Bits(141267888, 590559793, 21, 134514124, true, 4328280042713711, 91760065, false, 14257505, 327307760);
    Bits(141267888, 590559793, 86, 327307760, false, 181404780, 430207060, true, 44272560808659922, 470600654);
    Bits(141267888, 590559793, 345, 470600654, false, 375008556, 340638808, true, 27756699615927048, 211554168);
    Nested(2, 590559793, 2832, 141267888, 1381, 211554168); Start(211554168, 590559793);
    Bits(211554168, 590559793, 0, 1, true, 0, 211554168, false, 75784309, 162484187);
    Bits(211554168, 590559793, 2, 162484187, false, 44705229, 240793372, true, 20770491212379731, 133884829);
    Bits(211554168, 590559793, 9, 133884829, false, 30352807, 17470290, true, 109334680161515, 77362405);
    Bits(211554168, 590559793, 37, 77362405, true, 2143964723711095, 410362865, true, 60324511951579943, 1);
    Nested(2, 590559793, 3910992, 211554168, 151, 1);
  }

  lemma Prime590559793()
    ensures Prime(590559793)
  {
    TrialPrimes2();
    TrialPrimes8();
    Powers590559793();
    ProductOf(1381, 151, 1);
    hide *;
    Excluded(590559793, 2, 1381, 427632, 178479798, 455036748, 137521835);
    Excluded(590559793, 2, 151, 3910992, 211554168, 125868832, 45089551);
    PrimeByOrder(590559793, 2, [1381, 151]);
  }

  lemma Powers1181116273()
    ensures Leaves(2, 1181116272, 1, 1181116273)
    ensures Leaves(2, 187152, 9224688, 1181116273)
    ensures Leaves(2, 2120496, 1093289499, 1181116273)
  {
    hide *;
    Start(2, 1181116273); Bits(2, 1181116273, 0, 1, false, 0, 1, true, 0, 2);
    Bits(2, 1181116273, 1, 2, false, 0, 4, true, 0, 32); Bits(2, 1181116273, 5, 32, false, 0, 1024, true, 0, 2097152);
    Bits(2, 1181116273, 21, 2097152, false, 3723, 750626725, false, 477040654, 962263083);
    Bits(2, 1181116273, 84, 962263083, false, 783961970, 724527079, false, 444443532, 129476005);
    Start(129476005, 1181116273); Bits(129476005, 1181116273, 0, 1, true, 0, 129476005, false, 14193383, 240538466);
    Bits(129476005, 1181116273, 2, 240538466, false, 48986501, 137202383, false, 15937883, 932408630);
    Bits(129476005, 1181116273, 8, 932408630, true, 95303578201231727, 193191029, false, 31599576, 252578593);
    Bits(129476005, 1181116273, 34, 252578593, true, 6993421702610940, 301395625, true, 9957963392697973, 123788496);
    Bits(129476005, 1181116273, 139, 123788496, false, 12973821, 635852883, true, 44321038416788109, 9224688);
    Nested(2, 1181116273, 336, 129476005, 557, 9224688);
    Bits(129476005, 1181116273, 0, 1, false, 0, 1, true, 0, 129476005);
    Bits(129476005, 1181116273, 1, 129476005, true, 1837702554643156, 1091022537, false, 1007801012, 1022848093);
    Bits(129476005, 1181116273, 6, 1022848093, false, 885787661, 524029196, false, 232497514, 1042961094);
    Bits(129476005, 1181116273, 24, 1042961094, true, 119242989006292375, 498001805, false, 209975769, 81669088);
    Bits(129476005, 1181116273, 98, 81669088, true, 731159368880456, 106642232, false, 9628658, 994990190);
    Bits(129476005, 1181116273, 394, 994990190, false, 838194766, 130208982, true, 1858568296375707, 1034025609);
    Bits(129476005, 1181116273, 1577, 1034025609, true, 117208532152520750, 932295655, true,
           95280484743887962, 1093289499);
    Nested(2, 1181116273, 336, 129476005, 6311, 1093289499); Start(1093289499, 1181116273);
    Bits(1093289499, 1181116273, 0, 1, true, 0, 1093289499, false, 1011993447, 202607970);
    Bits(1093289499, 1181116273, 2, 202607970, false, 34755248, 522570196, false, 231204679, 986837049);
    Bits(1093289499, 1181116273, 8, 986837049, true, 901432922442870245, 539064214, false, 246030161, 9527843);
    Bits(1093289499, 1181116273, 34, 9527843, true, 84029486205679, 424738484, true, 166988186721471373, 848540915);
    Bits(1093289499, 1181116273, 139, 848540915, false, 609611179, 709421358, true, 465855301557282395, 1);
    Nested(2, 1181116273, 2120496, 1093289499, 557, 1);
  }

  lemma Prime1181116273()
    ensures Prime(1181116273)
  {
    TrialPrimes15();
    TrialPrimes4();
    Powers1181116273();
    ProductOf(6311, 557, 1);
    hide *;
    Excluded(1181116273, 2, 6311, 187152, 9224688, 395611322, 3089781);
    Excluded(1181116273, 2, 557, 2120496, 1093289499, 675708067, 625463005);
    PrimeByOrder(1181116273, 2, [6311, 557]);
  }

  lemma Powers2362232233()
    ensures Leaves(2, 2362232232, 1, 2362232233)
    ensures Leaves(2, 268344, 1980496260, 2362232233)
    ensures Leaves(2, 633816, 1476992501, 2362232233)
  {
    hide *;
    Start(2, 2362232233); Bits(2, 2362232233, 0, 1, false, 0, 1, true, 0, 2);
    Bits(2, 2362232233, 1, 2, false, 0, 4, false, 0, 16); Bits(2, 2362232233, 4, 16, true, 0, 512, false, 0, 262144);
    Bits(2, 2362232233, 18, 262144, false, 29, 214741979, false, 19521415, 1798066746); Start(1798066746, 2362232233);
    Bits(1798066746, 2362232233, 0, 1, true, 0, 1798066746, true, 2460904929256408622, 1929816010);
    Bits(1798066746, 2362232233, 3, 1929816010, true, 2834751723381393891, 567905997, false, 136530700, 1094510909);
    Bits(1798066746, 2362232233, 14, 1094510909, true, 911850009559380580, 386996486, false, 63400320, 689833636);
    Bits(1798066746, 2362232233, 58, 689833636, false, 201449475, 2191052821, false, 2032277943, 1042521322);
    Bits(1798066746, 2362232233, 232, 1042521322, true, 827281114239185090, 1180390294, true,
           1060558129820629534, 1563407834);
    Bits(1798066746, 2362232233, 931, 1563407834, true, 1860491908352317460, 928388596, true,
           656058870777251772, 1980496260);
    Nested(2, 2362232233, 72, 1798066746, 3727, 1980496260);
    Bits(1798066746, 2362232233, 0, 1, true, 0, 1798066746, false, 1368639364, 2077608704);
    Bits(1798066746, 2362232233, 2, 2077608704, false, 1827279243, 430119997, false, 78317114, 732944447);
    Bits(1798066746, 2362232233, 8, 732944447, true, 408907744181910561, 377394801, false, 60293325, 72084876);
    Bits(1798066746, 2362232233, 34, 72084876, false, 2199711, 1120450713, true, 955583698723485731, 938029951);
    Bits(1798066746, 2362232233, 137, 938029951, true, 669756024615035973, 1145899437, false, 555866396, 1844174701);
    Bits(1798066746, 2362232233, 550, 1844174701, false, 1439731572, 1562279125, false, 1033224435, 130552270);
    Bits(1798066746, 2362232233, 2200, 130552270, true, 12973348156535834, 403126078, true,
           123698662713105211, 1476992501);
    Nested(2, 2362232233, 72, 1798066746, 8803, 1476992501); Start(1476992501, 2362232233);
    Bits(1476992501, 2362232233, 0, 1, true, 0, 1476992501, true, 1363993433998351451, 1310207418);
    Bits(1476992501, 2362232233, 3, 1310207418, true, 1073336274370321820, 1042572664, false, 460140093, 339839227);
    Bits(1476992501, 2362232233, 14, 339839227, true, 72210892629197482, 1956652723, false, 1620708508, 528376365);
    Bits(1476992501, 2362232233, 58, 528376365, false, 118185493, 2053017356, false, 1784278533, 734676547);
    Bits(1476992501, 2362232233, 232, 734676547, true, 337480008480151286, 1075174071, true,
           722791878049688908, 59733977);
    Bits(1476992501, 2362232233, 931, 59733977, true, 2230994809485964, 1245391417, true, 969767076403780036, 1);
    Nested(2, 2362232233, 633816, 1476992501, 3727, 1);
  }

  lemma Prime2362232233()
    ensures Prime(2362232233)
  {
    TrialPrimes12();
    TrialPrimes16();
    Powers2362232233();
    ProductOf(8803, 3727, 1);
    hide *;
    Excluded(2362232233, 2, 8803, 268344, 1980496260, 1302654290, 1092145773);
    Excluded(2362232233, 2, 3727, 633816, 1476992501, 815074383, 509627603);
    PrimeByOrder(2362232233, 2, [8803, 3727]);
  }
}
