/** Every cached power is the 64-bit number nearest to the power of ten that it stands for. */
module GrisuAccuracy {
  import opened Leb128
  import opened GrisuFp
  import opened GrisuDigits
  import opened GrisuTable
  import opened GrisuBounds

  const EXACT := 44   // the entry of 10^4, which has no error
  const GUARD := 0x1_0000_0000_0000_0000_0000

  /** A lower bound on 2^80 * 10^k / 2^exp for entry `i`. */
  function Lower(i: nat): nat
    requires i < NPOWERS
  {
    match i
    case 0 => 21827015817904833863457681603012246715478047 case 1 => 16262394054163123565508188011506383654086327
    case 2 => 12116427759947719846299430736531603078608459 case 3 => 18054884314459144840090618635016088304830282
    case 4 => 13451937075301367670365138825041121471546801 case 5 => 20044948272856127724595574773909332560817601
    case 6 => 14934650266808366570320408622852960646761657 case 7 => 22254363099945137754560125802238226900639619
    case 8 => 16580792590934885855436418803213705793499663 case 9 => 12353653155963782858428671064387042666598904
    case 10 => 18408377700990114895148085153679613272248066 case 11 => 13715310171984221708139840627968023175185968
    case 12 => 20437404769635530871361256581497226916530681 case 13 => 15227053142812498563052159981054981735744090
    case 14 => 11345038669416679861435413346480564576196738 case 15 => 16905424996341287883274873117328531408603099
    case 16 => 12595523146049147757347578642762103236170932 case 17 => 18768792072011750574927894238773142153279382
    case 18 => 13983839803942852150595109342614667231797712 case 19 => 20837545102749544606499536846003930616077353
    case 20 => 15525180923007089351489794884625025552568848 case 21 => 11567161174868858867503549817670155728287137
    case 22 => 17236413322193710308527275648221605611275342 case 23 => 12842128665889583757912572956250314124878751
    case 24 => 19136262932255243894327540630475154705164957 case 25 => 14257626930069360058253661267813410390291331
    case 26 => 21245519712670683947583528262098745093183713 case 27 => 15829145694278690179872161345257420162248398
    case 28 => 11793632577567316725754858065588340284115373 case 29 => 17573882009934360870353666045648366636209747
    case 30 => 13093562431584567480052758787310396608866563 case 31 => 19510928439474951446134982686207289410928731
    case 32 => 14536774485912137810986476157760090687072822 case 33 => 21661481985318866090456360813617841433097157
    case 34 => 16139061738043178685349494825018824214560656 case 35 => 12024538023802026126794140655561405580163491
    case 36 => 17917957937422433684459538244547554224973160 case 37 => 13349918974505688014968885663559700716266901
    case 38 => 19892929456391465686215289925872833604018243 case 39 => 14821387422376473014217086081112052205218556
    case 40 => 22085588309729804119791218759286481447843546 case 41 => 16455045573212060421549691825573505049827357
    case 42 => 12259964326927110866866776217202473468949912 case 43 => 18268770466636286477546060408953537745699156
    case 44 => 13611294676837538538534984297270728458240000 case 45 => 20282409603651670423947251286016000000000000
    case 46 => 15111572745182864683827200000000000000000000 case 47 => 11258999068426240000000000000000000000000000
    case 48 => 16777216000000000000000000000000000000000000 case 49 => 12500000000000000000000000000000000000000000
    case 50 => 18626451492309570312500000000000000000000000 case 51 => 13877787807814456755295395851135253906250000
    case 52 => 20679515313825691871785217301749071339145302 case 53 => 15407439555097886824447823540679418548304812
    case 54 => 11479437019748901445007192746310992947447904 case 55 => 17105694144590052135299433389769484024417257
    case 56 => 12744735289059618216231043182141694444728834 case 57 => 18991135491519597494946484539123914308441928
    case 58 => 14149498560666738074232998892012174657316452 case 59 => 21084395886461046448697148102540038015419918
    case 60 => 15709099088952724969906470255956082057520686 case 61 => 11704190886730495817889623534646691424787555
    case 62 => 17440603504673385348751580021748977042418055 case 63 => 12994262207056124023163005725852382959736924
    case 64 => 19362959574246591364090153166431759237851089 case 65 => 14426529090290212157435829316401302246638453
    case 66 => 21497203544214684005731089884640726814625342 case 67 => 16016664761464807395436681721091811965871857
    case 68 => 11933345169920330789265544504740694139802349 case 69 => 17782069995880619867541707314164480775300188
    case 70 => 13248674568444952270047148551169396024420997 case 71 => 19742063534922826692532224284364873207242782
    case 72 => 14708983551653345445195007536087090676458762 case 73 => 21918093490084030397526931071411208326308074
    case 74 => 16330252207878254650180735492267614846161063 case 75 => 12166986024289022870496463397344659899295168
    case 76 => 18130221999122236476088260706282645313881587 case 77 => 13508068024458167311614946057112995768995275
    case 78 => 20128589904991041588209489073027664078765027 case 79 => 14996968138956309548176444376280653535399606
    case 80 => 11173611982879273256790969056100140165835325 case 81 => 16649979327439178909049882078319996842496581
    case 82 => 12405201291620119593329639791190621884537176 case 83 => 18485190408855854858949243711219164557065331
    case 84 => 13772540099066387756876083993329975424010553 case 85 => 20522684006491881246680146445825659370438088
    case _ => 15290591125556738113373627100755020507006412
  }

  /** What a lower bound falls short by at most: it grows with the distance from the exact entry. */
  function Width(i: nat): nat
    requires i < NPOWERS
  {
    match i
    case 0 => 56 case 1 => 41 case 2 => 30 case 3 => 43 case 4 => 31 case 5 => 45 case 6 => 33 case 7 => 49
    case 8 => 36 case 9 => 26 case 10 => 38 case 11 => 28
    case 12 => 40 case 13 => 29 case 14 => 21 case 15 => 31 case 16 => 23 case 17 => 33 case 18 => 24
    case 19 => 34 case 20 => 25 case 21 => 18 case 22 => 25 case 23 => 18
    case 24 => 25 case 25 => 18 case 26 => 25 case 27 => 18 case 28 => 13 case 29 => 17 case 30 => 12
    case 31 => 17 case 32 => 12 case 33 => 17 case 34 => 12 case 35 => 8
    case 36 => 9 case 37 => 6 case 38 => 8 case 39 => 5 case 40 => 6 case 41 => 4 case 42 => 2 case 43 => 1
    case 44 => 0 case 45 => 0 case 46 => 0 case 47 => 0
    case 48 => 0 case 49 => 0 case 50 => 0 case 51 => 0 case 52 => 1 case 53 => 2 case 54 => 3 case 55 => 5
    case 56 => 4 case 57 => 6 case 58 => 5 case 59 => 8
    case 60 => 7 case 61 => 6 case 62 => 10 case 63 => 9 case 64 => 14 case 65 => 12 case 66 => 19 case 67 => 15
    case 68 => 12 case 69 => 19 case 70 => 15 case 71 => 23
    case 72 => 18 case 73 => 28 case 74 => 21 case 75 => 17 case 76 => 27 case 77 => 21 case 78 => 32
    case 79 => 24 case 80 => 19 case 81 => 29 case 82 => 22 case 83 => 34
    case 84 => 26 case 85 => 40 case _ => 31
  }

  function Upper(i: nat): nat
    requires i < NPOWERS
  {
    Lower(i) + Width(i)
  }

  /** x * 2^s, where 2^s is the step of the binary exponent after entry `i`. */
  function Shifted(i: int, x: int): int {
    if Exponent(i + 1) - Exponent(i) == 26 then 67108864 * x else 134217728 * x
  }

  /** The bounds of one entry follow from those of its neighbour on the side of the exact one. */
  predicate StepHolds(i: nat)
    requires i + 1 < NPOWERS
  {
    if i < EXACT then
      Lower(i) * 100000000 <= Shifted(i, Lower(i + 1)) && Shifted(i, Upper(i + 1)) <= Upper(i) * 100000000
    else
      Shifted(i, Lower(i + 1)) <= Lower(i) * 100000000 && Upper(i) * 100000000 <= Shifted(i, Upper(i + 1))
  }

  lemma Steps0(i: nat)
    requires 0 <= i < 8
    ensures StepHolds(i)
  {}

  lemma Steps8(i: nat)
    requires 8 <= i < 16
    ensures StepHolds(i)
  {}

  lemma Steps16(i: nat)
    requires 16 <= i < 24
    ensures StepHolds(i)
  {}

  lemma Steps24(i: nat)
    requires 24 <= i < 32
    ensures StepHolds(i)
  {}

  lemma Steps32(i: nat)
    requires 32 <= i < 40
    ensures StepHolds(i)
  {}

  lemma Steps40(i: nat)
    requires 40 <= i < 48
    ensures StepHolds(i)
  {}

  lemma Steps48(i: nat)
    requires 48 <= i < 56
    ensures StepHolds(i)
  {}

  lemma Steps56(i: nat)
    requires 56 <= i < 64
    ensures StepHolds(i)
  {}

  lemma Steps64(i: nat)
    requires 64 <= i < 72
    ensures StepHolds(i)
  {}

  lemma Steps72(i: nat)
    requires 72 <= i < 80
    ensures StepHolds(i)
  {}

  lemma Steps80(i: nat)
    requires 80 <= i < 86
    ensures StepHolds(i)
  {}

  lemma Halves(i: nat)
    requires i < NPOWERS
    ensures (2 * Power(i).frac - 1) * GUARD <= 2 * Lower(i) && 2 * Upper(i) <= (2 * Power(i).frac + 1) * GUARD
  {}

  lemma Step(i: nat)
    requires i + 1 < NPOWERS
    ensures StepHolds(i)
  {
    if i < 8 { Steps0(i); } else if i < 16 { Steps8(i); } else if i < 24 { Steps16(i); }
    else if i < 32 { Steps24(i); } else if i < 40 { Steps32(i); } else if i < 48 { Steps40(i); }
    else if i < 56 { Steps48(i); } else if i < 64 { Steps56(i); } else if i < 72 { Steps64(i); }
    else if i < 80 { Steps72(i); } else { Steps80(i); }
  }

  // ----- 10^k / 2^exp as a fraction, and how it changes from one entry to the next

  function Ten(k: int, e: int): (r: nat)
    ensures r > 0
  {
    Product(Pow10(Up(k)), Pow2(Down(e)));
    Pow10(Up(k)) * Pow2(Down(e))
  }

  function Unit(k: int, e: int): (r: nat)
    ensures r > 0
  {
    Product(Pow2(Up(e)), Pow10(Down(k)));
    Pow2(Up(e)) * Pow10(Down(k))
  }

  lemma Product(a: nat, b: nat)
    requires a > 0 && b > 0
    ensures a * b > 0
  {}

  lemma {:induction false} TenStep(k: int, e: int, s: nat)
    ensures Ten(k + 8, e + s) * (Unit(k, e) * Pow2(s)) == Ten(k, e) * (Unit(k + 8, e + s) * Pow10(8))
  {
    Pow10Add(Up(k + 8), Down(k));
    Pow10Add(Up(k), Down(k + 8));
    Pow10Add(Up(k) + Down(k + 8), 8);
    assert Up(k + 8) + Down(k) == Up(k) + Down(k + 8) + 8;
    Pow2Add(Up(e + s), Down(e));
    Pow2Add(Up(e), Down(e + s));
    Pow2Add(Up(e) + Down(e + s), s);
    assert Up(e + s) + Down(e) == Up(e) + Down(e + s) + s;
    Regroup(Pow10(Up(k + 8)), Pow2(Down(e + s)), Pow2(Up(e)), Pow10(Down(k)), Pow2(s),
            Pow10(Up(k)), Pow2(Down(e)), Pow2(Up(e + s)), Pow10(Down(k + 8)), Pow10(8));
  }

  lemma {:induction false} Regroup(a': nat, d': nat, u: nat, b: nat, s: nat, a: nat, d: nat, u': nat, b': nat, t: nat)
    requires a' * b == a * b' * t && u' * d == u * d' * s
    ensures (a' * d') * ((u * b) * s) == (a * d) * ((u' * b') * t)
  {
    assert (a' * d') * ((u * b) * s) == (a' * b) * (u * d' * s) by { Shuffle5(a', d', u, b, s); }
    assert (a * d) * ((u' * b') * t) == (a * b' * t) * (u' * d) by { Shuffle5(a, d, u', b', t); }
  }

  lemma {:induction false} Shuffle5(a: nat, d: nat, u: nat, b: nat, s: nat)
    ensures (a * d) * ((u * b) * s) == (a * b) * (u * d * s)
    ensures (a * d) * ((u * b) * s) == (a * b * s) * (u * d)
  {
    var x, y := a * b, u * d;
    assert (a * d) * (u * b) == x * y;
    assert (a * d) * ((u * b) * s) == (a * d) * (u * b) * s;
    assert x * y * s == x * (y * s) && x * y * s == x * s * y;
  }

  /** lo <= 2^80 * 10^k / 2^e <= hi */
  ghost predicate Between(lo: nat, hi: nat, k: int, e: int) {
    lo * Unit(k, e) <= GUARD * Ten(k, e) <= hi * Unit(k, e)
  }

  /** ten' unit s == ten unit' t carries a bound on one fraction to the other, both ways. */
  lemma {:induction false} Carry(lo: nat, hi: nat, ten: nat, unit: nat, s: nat, lo': nat, hi': nat, ten': nat,
                                 unit': nat, t: nat)
    requires unit > 0 && unit' > 0 && s > 0 && t > 0 && ten' * (unit * s) == ten * (unit' * t)
    requires lo' * s <= lo * t && hi * t <= hi' * s && lo * unit <= GUARD * ten <= hi * unit
    ensures lo' * unit' <= GUARD * ten' <= hi' * unit'
  {
    CarryBound(lo, ten, unit, s, lo', ten', unit', t, GUARD);
    CarryBound'(hi, ten, unit, s, hi', ten', unit', t, GUARD);
  }

  lemma {:induction false} Swap4(a: nat, b: nat, c: nat, d: nat)
    ensures (a * b) * (c * d) == (a * d) * (b * c)
  {}

  lemma {:induction false} Assoc(a: nat, b: nat, c: nat)
    ensures (a * b) * c == a * (b * c)
  {}

  lemma {:induction false} CarryBound(lo: nat, ten: nat, unit: nat, s: nat, lo': nat, ten': nat, unit': nat, t: nat,
                                      g: nat)
    requires unit > 0 && s > 0 && ten' * (unit * s) == ten * (unit' * t) && lo' * s <= lo * t && lo * unit <= g * ten
    ensures lo' * unit' <= g * ten'
  {
    Swap4(lo', unit', unit, s);
    MulMono(unit' * unit, lo' * s, lo * t);
    Swap4(lo, unit, unit', t);
    MulMono(unit' * t, lo * unit, g * ten);
    Assoc(g, ten, unit' * t);
    Assoc(g, ten', unit * s);
    CancelLe(lo' * unit', g * ten', unit * s);
  }

  lemma {:induction false} CarryBound'(hi: nat, ten: nat, unit: nat, s: nat, hi': nat, ten': nat, unit': nat, t: nat,
                                       g: nat)
    requires unit > 0 && s > 0 && ten' * (unit * s) == ten * (unit' * t) && hi * t <= hi' * s && g * ten <= hi * unit
    ensures g * ten' <= hi' * unit'
  {
    Assoc(g, ten', unit * s);
    Assoc(g, ten, unit' * t);
    MulMono(unit' * t, g * ten, hi * unit);
    Swap4(hi, unit, unit', t);
    MulMono(unit * unit', hi * t, hi' * s);
    Swap4(hi', unit', unit, s);
    CancelLe(g * ten', hi' * unit', unit * s);
  }

  lemma {:induction false} CancelLe(x: nat, y: nat, k: nat)
    requires k > 0 && x * k <= y * k
    ensures x <= y
  {
    CancelFactor(y, x, k);
  }

  lemma {:induction false} StepPowers()
    ensures Pow10(8) == 100000000 && Pow2(26) == 67108864 && Pow2(27) == 134217728
  {
    assert Pow10(8) == 100000000;
    assert Pow2(13) == 8192;
    Pow2Add(13, 13);
    Pow2Add(1, 26);
  }

  /** One step up the table. */
  lemma {:induction false} RiseBy(k: int, e: int, k': int, e': int, s: nat, lo: nat, hi: nat, lo': nat, hi': nat)
    requires k' == k + 8 && e' == e + s && Between(lo, hi, k, e) && Rises(lo, hi, lo', hi', Pow2(s), Pow10(8))
    ensures Between(lo', hi', k', e')
  {
    TenStep(k, e, s);
    Carry(lo, hi, Ten(k, e), Unit(k, e), Pow2(s), lo', hi', Ten(k', e'), Unit(k', e'), Pow10(8));
  }

  /** One step down the table. */
  lemma {:induction false} FallBy(k: int, e: int, k': int, e': int, s: nat, lo: nat, hi: nat, lo': nat, hi': nat)
    requires k' == k + 8 && e' == e + s && Between(lo', hi', k', e') && Rises(lo', hi', lo, hi, Pow10(8), Pow2(s))
    ensures Between(lo, hi, k, e)
  {
    TenStep(k, e, s);
    Carry(lo', hi', Ten(k', e'), Unit(k', e'), Pow10(8), lo, hi, Ten(k, e), Unit(k, e), Pow2(s));
  }

  predicate Rises(lo: nat, hi: nat, lo': nat, hi': nat, two: nat, ten: nat) {
    lo' * two <= lo * ten && hi * ten <= hi' * two
  }

  lemma {:induction false} StepInPowers(i: nat, s: nat)
    requires i + 1 < NPOWERS && s == Exponent(i + 1) - Exponent(i)
    ensures i >= EXACT ==> Rises(Lower(i), Upper(i), Lower(i + 1), Upper(i + 1), Pow2(s), Pow10(8))
    ensures i < EXACT ==> Rises(Lower(i + 1), Upper(i + 1), Lower(i), Upper(i), Pow10(8), Pow2(s))
  {
    Step(i);
    ExponentSteps(i);
    StepPowers();
    if s == 26 {
      SameRises(i, Pow2(s), 67108864, Pow10(8));
    } else {
      SameRises(i, Pow2(s), 134217728, Pow10(8));
    }
  }

  lemma {:induction false} SameRises(i: nat, two: nat, s: nat, ten: nat)
    requires i + 1 < NPOWERS && StepHolds(i) && two == s && ten == 100000000
    requires s == if Exponent(i + 1) - Exponent(i) == 26 then 67108864 else 134217728
    ensures i >= EXACT ==> Rises(Lower(i), Upper(i), Lower(i + 1), Upper(i + 1), two, ten)
    ensures i < EXACT ==> Rises(Lower(i + 1), Upper(i + 1), Lower(i), Upper(i), ten, two)
  {
    ShiftedIs(i, Lower(i + 1), s);
    ShiftedIs(i, Upper(i + 1), s);
  }

  lemma {:induction false} ShiftedIs(i: int, x: nat, s: nat)
    requires s == if Exponent(i + 1) - Exponent(i) == 26 then 67108864 else 134217728
    ensures Shifted(i, x) == x * s
  {}

  ghost predicate Bounded(i: nat)
    requires i < NPOWERS
  {
    Between(Lower(i), Upper(i), FIRST + STEP * i, Exponent(i))
  }

  /** The bounds hold at every entry: exactly at 10^4, and outward from there by induction. */
  lemma {:induction false} AllBounded(i: nat)
    requires i < NPOWERS
    ensures Bounded(i)
    decreases if i < EXACT then EXACT - i else i - EXACT
  {
    if i == EXACT {
      ExactEntry(i);
    } else if i > EXACT {
      AllBounded(i - 1);
      RiseFrom(i - 1);
    } else {
      AllBounded(i + 1);
      FallTo(i);
    }
  }

  lemma {:induction false} RiseFrom(i: nat)
    requires EXACT <= i < NPOWERS - 1 && Bounded(i)
    ensures Bounded(i + 1)
  {
    ExponentSteps(i);
    var s: nat := Exponent(i + 1) - Exponent(i);
    StepInPowers(i, s);
    RiseBy(FIRST + STEP * i, Exponent(i), FIRST + STEP * (i + 1), Exponent(i + 1), s, Lower(i), Upper(i), Lower(i + 1),
           Upper(i + 1));
  }

  lemma {:induction false} FallTo(i: nat)
    requires i < EXACT && Bounded(i + 1)
    ensures Bounded(i)
  {
    ExponentSteps(i);
    var s: nat := Exponent(i + 1) - Exponent(i);
    StepInPowers(i, s);
    FallBy(FIRST + STEP * i, Exponent(i), FIRST + STEP * (i + 1), Exponent(i + 1), s, Lower(i), Upper(i), Lower(i + 1),
           Upper(i + 1));
  }

  lemma {:induction false} ExactEntry(i: nat)
    requires i == EXACT
    ensures Bounded(i)
  {
    ExactBetween(4, -50);
  }

  lemma {:induction false} Pow2At50()
    ensures Pow2(50) == 1125899906842624
  {
    assert Pow2(10) == 1024;
    Pow2Add(10, 10);
    Pow2Add(20, 20);
    Pow2Add(40, 10);
  }

  lemma {:induction false} ExactBetween(k: int, e: int)
    requires k == 4 && e == -50
    ensures Between(11258999068426240000 * GUARD, 11258999068426240000 * GUARD, k, e)
  {
    Pow2At50();
    assert Pow10(4) == 10000;
    assert Up(e) == 0 && Down(k) == 0 && Pow2(0) == 1 && Pow10(0) == 1;
  }

  /** Each of the 87 cached powers is within half a unit of its power of ten. */
  lemma {:induction false} PowersAccurate(i: nat)
    requires i < NPOWERS
    ensures Approximates(Power(i), FIRST + STEP * i)
  {
    AllBounded(i);
    Halves(i);
    PowerExponent(i);
    PowerNormalized(i);
    Half(Power(i).frac, Lower(i), Upper(i), FIRST + STEP * i, Exponent(i));
  }

  lemma {:induction false} Half(c: u64, lo: nat, hi: nat, k: int, e: int)
    requires c > 0 && (2 * c - 1) * GUARD <= 2 * lo && 2 * hi <= (2 * c + 1) * GUARD && Between(lo, hi, k, e)
    ensures Approximates(Fp(c, e), k)
  {
    HalfUnit(2 * c - 1, lo, 2 * c + 1, hi, Ten(k, e), Unit(k, e));
    Assoc(2, Pow10(Up(k)), Pow2(Down(e)));
  }

  lemma {:induction false} HalfUnit(c: nat, lo: nat, c': nat, hi: nat, ten: nat, unit: nat)
    requires c * GUARD <= 2 * lo && 2 * hi <= c' * GUARD && lo * unit <= GUARD * ten <= hi * unit
    ensures c * unit <= 2 * ten <= c' * unit
  {
    MulMono(unit, c * GUARD, 2 * lo);
    MulMono(unit, 2 * hi, c' * GUARD);
    assert unit * (c * GUARD) == c * unit * GUARD && unit * (c' * GUARD) == c' * unit * GUARD;
    assert unit * (2 * lo) == 2 * (lo * unit) && unit * (2 * hi) == 2 * (hi * unit);
  }
}
