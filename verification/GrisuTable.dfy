/** The cached powers of ten of `powers.h`, the search for one, and their accuracy. */
module GrisuTable {
  import opened Leb128
  import opened GrisuFp
  import opened GrisuDigits

  const NPOWERS := 87
  const STEP := 8
  const FIRST := -348

  /** Entry `i` approximates 10^(FIRST + STEP * i). */
  function Power(i: nat): Fp
    requires i < NPOWERS
  {
    match i
    case 0 => Fp(18054884314459144840, -1220) case 1 => Fp(13451937075301367670, -1193)
    case 2 => Fp(10022474136428063862, -1166) case 3 => Fp(14934650266808366570, -1140)
    case 4 => Fp(11127181549972568877, -1113) case 5 => Fp(16580792590934885855, -1087)
    case 6 => Fp(12353653155963782858, -1060) case 7 => Fp(18408377700990114895, -1034)
    case 8 => Fp(13715310171984221708, -1007) case 9 => Fp(10218702384817765436, -980)
    case 10 => Fp(15227053142812498563, -954) case 11 => Fp(11345038669416679861, -927)
    case 12 => Fp(16905424996341287883, -901) case 13 => Fp(12595523146049147757, -874)
    case 14 => Fp(9384396036005875287, -847) case 15 => Fp(13983839803942852151, -821)
    case 16 => Fp(10418772551374772303, -794) case 17 => Fp(15525180923007089351, -768)
    case 18 => Fp(11567161174868858868, -741) case 19 => Fp(17236413322193710309, -715)
    case 20 => Fp(12842128665889583758, -688) case 21 => Fp(9568131466127621947, -661)
    case 22 => Fp(14257626930069360058, -635) case 23 => Fp(10622759856335341974, -608)
    case 24 => Fp(15829145694278690180, -582) case 25 => Fp(11793632577567316726, -555)
    case 26 => Fp(17573882009934360870, -529) case 27 => Fp(13093562431584567480, -502)
    case 28 => Fp(9755464219737475723, -475) case 29 => Fp(14536774485912137811, -449)
    case 30 => Fp(10830740992659433045, -422) case 31 => Fp(16139061738043178685, -396)
    case 32 => Fp(12024538023802026127, -369) case 33 => Fp(17917957937422433684, -343)
    case 34 => Fp(13349918974505688015, -316) case 35 => Fp(9946464728195732843, -289)
    case 36 => Fp(14821387422376473014, -263) case 37 => Fp(11042794154864902060, -236)
    case 38 => Fp(16455045573212060422, -210) case 39 => Fp(12259964326927110867, -183)
    case 40 => Fp(18268770466636286478, -157) case 41 => Fp(13611294676837538539, -130)
    case 42 => Fp(10141204801825835212, -103) case 43 => Fp(15111572745182864684, -77)
    case 44 => Fp(11258999068426240000, -50) case 45 => Fp(16777216000000000000, -24)
    case 46 => Fp(12500000000000000000, 3) case 47 => Fp(9313225746154785156, 30)
    case 48 => Fp(13877787807814456755, 56) case 49 => Fp(10339757656912845936, 83)
    case 50 => Fp(15407439555097886824, 109) case 51 => Fp(11479437019748901445, 136)
    case 52 => Fp(17105694144590052135, 162) case 53 => Fp(12744735289059618216, 189)
    case 54 => Fp(9495567745759798747, 216) case 55 => Fp(14149498560666738074, 242)
    case 56 => Fp(10542197943230523224, 269) case 57 => Fp(15709099088952724970, 295)
    case 58 => Fp(11704190886730495818, 322) case 59 => Fp(17440603504673385349, 348)
    case 60 => Fp(12994262207056124023, 375) case 61 => Fp(9681479787123295682, 402)
    case 62 => Fp(14426529090290212157, 428) case 63 => Fp(10748601772107342003, 455)
    case 64 => Fp(16016664761464807395, 481) case 65 => Fp(11933345169920330789, 508)
    case 66 => Fp(17782069995880619868, 534) case 67 => Fp(13248674568444952270, 561)
    case 68 => Fp(9871031767461413346, 588) case 69 => Fp(14708983551653345445, 614)
    case 70 => Fp(10959046745042015199, 641) case 71 => Fp(16330252207878254650, 667)
    case 72 => Fp(12166986024289022870, 694) case 73 => Fp(18130221999122236476, 720)
    case 74 => Fp(13508068024458167312, 747) case 75 => Fp(10064294952495520794, 774)
    case 76 => Fp(14996968138956309548, 800) case 77 => Fp(11173611982879273257, 827)
    case 78 => Fp(16649979327439178909, 853) case 79 => Fp(12405201291620119593, 880)
    case 80 => Fp(9242595204427927429, 907) case 81 => Fp(13772540099066387757, 933)
    case 82 => Fp(10261342003245940623, 960) case 83 => Fp(15290591125556738113, 986)
    case 84 => Fp(11392378155556871081, 1013) case 85 => Fp(16975966327722178521, 1039)
    case _ => Fp(12648080533535911531, 1066)
  }

  lemma PowerNormalized(i: nat)
    requires i < NPOWERS
    ensures TWO63 <= Power(i).frac < TWO64
  {}

  /** The exponents of the table follow the binary logarithm of ten. */
  function Exponent(i: int): int { (FIRST + STEP * i) * 217706 / 65536 - 63 }

  lemma PowerExponent(i: nat)
    requires i < NPOWERS
    ensures Power(i).exp == Exponent(i)
  {}

  /** Consecutive exponents differ by less than the width of the accepted window. */
  lemma ExponentSteps(i: int)
    ensures 26 <= Exponent(i + 1) - Exponent(i) <= 27
  {}

  /** `find_cachedpow10`: from any first guess in the table, the walk stays in the table and stops at
      an entry that brings the exponent of the product into [-60, -32]. */
  method FindCachedPow10(exp: int, guess: nat) returns (cp: Fp, k: int)
    requires -1137 <= exp <= 960 && guess < NPOWERS
    ensures -60 <= exp + cp.exp + 64 <= -32
    ensures exists idx: nat :: idx < NPOWERS && cp == Power(idx) && k == FIRST + STEP * idx
  {
    var idx := guess;
    while true
      invariant 0 <= idx < NPOWERS
      decreases Misses(exp + Exponent(idx) + 64)
    {
      PowerExponent(idx);
      ExponentSteps(idx);
      ExponentSteps(idx - 1);
      cp := Power(idx);
      var current := exp + cp.exp + 64;
      if current < -60 {
        idx := idx + 1;
      } else if current > -32 {
        idx := idx - 1;
      } else {
        return cp, FIRST + STEP * idx;
      }
    }
  }

  /** Distance to the window. */
  function Misses(current: int): nat {
    if current < -60 then -60 - current else if current > -32 then current + 32 else 0
  }

  /** The first guess of the source, from its floating-point product `x`: conversion truncates. */
  function FirstGuess(x: real): int {
    var approx := if x >= 0.0 then x.Floor else -((-x).Floor);
    (approx - FIRST) / STEP
  }

  /** However the product of the exponent and the logarithm is rounded, the guess is in the table for every
      exponent that a double can have. */
  lemma FirstGuessInTable(exp: int, x: real)
    requires -1137 <= exp <= 960
    requires var exact := -(exp + NPOWERS) as real * 0.30102999566398114; exact - 1.0 <= x <= exact + 1.0
    ensures 0 <= FirstGuess(x) < NPOWERS
  {}
}
