/**
 * The month-name rewrite that the date parser falls back on: month names of
 * many languages, long and abbreviated, are replaced by the month number
 * followed by a dot, so that "29. Juli 2015" becomes "29. 7. 2015".
 *
 * The tables keep the order and spelling of the source. An earlier group
 * wins over a later one, and a name that is a prefix of another shadows it:
 * the Czech "červenec" (July) meets the June group's "červen" first.
 */
module MonthNames {
  import opened Wrappers
  import opened MonthMatching

  /** The long names of January. */
  const JanuaryLong: seq<string> :=
    ["january", "januaro", "januari", "januar", "janvier"] +
    ["urtarrilaren", "siječanj", "януари", "jaanuar", "tammikuu"] +
    ["xaneiro", "Ιανουάριος", "janúar", "gennaio", "janvāris"] +
    ["sausis", "jannar", "јануари", "styczeń", "janeiro"] +
    ["ianuarie", "январь", "јануар", "január", "enero"] +
    ["leden", "ocak", "січень", "ionawr", "студзеня"]

  /** The long names of February. */
  const FebruaryLong: seq<string> :=
    ["februarie", "february", "februaro", "februari", "februar"] +
    ["février", "otsaila", "февруари", "veebruar", "helmikuu"] +
    ["febreiro", "Φεβρουάριος", "feabhra", "febrúar", "febbraio"] +
    ["febrer", "februāris", "vasaris", "frar", "luty"] +
    ["fevereiro", "февраль", "фебруар", "február", "febrero"] +
    ["únor", "Şubat", "лютого", "Chwefror", "лютага"]

  /** The long names of March. */
  const MarchLong: seq<string> :=
    ["märz", "maerz", "march", "mars", "marts"] +
    ["marto", "mart", "март", "märts", "maaliskuu"] +
    ["marzec", "marzo", "Μάρτιος", "Márta", "gājiens"] +
    ["kovas", "Marzu", "maart", "março", "martie"] +
    ["marec", "březen", "березня", "március", "Mawrth"] +
    ["сакавіка"]

  /** The long names of April. */
  const AprilLong: seq<string> :=
    ["aprilie", "aprilis", "aprilo", "aprill", "aprile"] +
    ["april", "avril", "април", "huhtikuu", "abril"] +
    ["Απρίλιος", "aibreán", "travanj", "aprīlis", "balandis"] +
    ["kwiecień", "апреля", "duben", "nisan", "квітня"] +
    ["április", "Aprel", "Ebrill"]

  /** The long names of May. */
  const MayLong: seq<string> :=
    ["maiatza", "maijs", "maig", "maio", "mai"] +
    ["mayıs", "mayo", "may", "majo", "maj"] +
    ["май", "toukokuu", "Μάιος", "bealtaine", "maí"] +
    ["maggio", "gegužė", "mejju", "мај", "mei"] +
    ["мая", "máj", "květen", "травня", "május"]

  /** The long names of June. */
  const JuneLong: seq<string> :=
    ["junio", "junij", "juni", "june", "juin"] +
    ["juny", "jun", "юни", "juuni", "kesäkuu"] +
    ["xuño", "Ιούνιος", "meitheamh", "júní", "giugno"] +
    ["jūnijs", "birželis", "Ġunju", "Јуни", "czerwiec"] +
    ["Junho", "iunie", "июнь", "јун", "június"] +
    ["jún", "červen", "haziran", "Червень", "iyun"] +
    ["mehefin"]

  /** The long names of July. */
  const JulyLong: seq<string> :=
    ["juliol", "julio", "julij", "juli", "july"] +
    ["juillet", "uztailaren", "юли", "juuli", "heinäkuu"] +
    ["xullo", "Ιούλιος", "Iúil", "júlí", "luglio"] +
    ["srpanj", "jūlijs", "liepa", "Lulju", "lipiec"] +
    ["julho", "iulie", "июль", "јул", "júl"] +
    ["červenec", "temmuz", "липня", "július", "iyul"] +
    ["gorffennaf"]

  /** The long names of August. */
  const AugustLong: seq<string> :=
    ["augustus", "augusts", "augusti", "august", "août"] +
    ["abuztua", "avgust", "август", "aŭgusto", "elokuu"] +
    ["agosto", "Αύγουστος", "Lúnasa", "ágúst", "agost"] +
    ["rugpjūtis", "Awissu", "sierpień", "srpen", "ağustos"] +
    ["серпня", "augusztus", "awst"]

  /** The long names of September. */
  const SeptemberLong: seq<string> :=
    ["september", "septembre", "septembar", "септември", "septembro"] +
    ["syyskuu", "setembro", "Σεπτέμβριος", "settembre", "setembre"] +
    ["septembris", "rugsėjis", "settembru", "wrzesień", "septembrie"] +
    ["сентябрь", "септембар", "septembra", "septiembre", "září"] +
    ["eylül", "вересень", "szeptember", "medi"]

  /** The long names of October. */
  const OctoberLong: seq<string> :=
    ["oktober", "october", "octobre", "urria", "oktobar"] +
    ["октомври", "oktobro", "oktoober", "lokakuu", "outubro"] +
    ["Οκτώβριος", "október", "ottobre", "octubre", "listopad"] +
    ["oktobris", "spalis", "ottubru", "październik", "octombrie"] +
    ["октября", "октобар", "říjen", "ekim", "Жовтень"] +
    ["hydref"]

  /** The long names of November. */
  const NovemberLong: seq<string> :=
    ["november", "novembre", "azaroa", "novembar", "ноември"] +
    ["novembro", "marraskuu", "Νοέμβριος", "Samhain", "nóvember"] +
    ["studeni", "novembris", "lapkritis", "novembru", "Ноември"] +
    ["listopad", "noiembrie", "ноябрь", "новембар", "noviembre"] +
    ["Kasım", "Листопад", "tachwedd"]

  /** The long names of December. */
  const DecemberLong: seq<string> :=
    ["dezember", "december", "décembre", "abendua", "decembar"] +
    ["декември", "decembro", "detsember", "joulukuu", "Δεκέμβριος"] +
    ["nollaig", "desember", "dicembre", "decembris", "gruodis"] +
    ["Diċembru", "grudzień", "dezembro", "decembrie", "декабрь"] +
    ["децембар", "diciembre", "prosinec", "Aralık", "грудня"] +
    ["rhagfyr"]

  /** The short names of January. */
  const JanuaryShort: seq<string> :=
    ["jan", "urt", "sij", "jaa", "tam"] +
    ["xan", "gen", "sau", "јан", "sty"] +
    ["ian", "ene", "led", "oca", "ion"]

  /** The short names of February. */
  const FebruaryShort: seq<string> :=
    ["feb", "fév", "ots", "фев", "veb"] +
    ["hel", "Φεβ", "fea", "vas", "fra"] +
    ["lut", "fev", "úno", "Şub", "Chw"]

  /** The short names of March. */
  const MarchShort: seq<string> :=
    ["mär", "mar", "мар", "maa", "Már"] +
    ["gāj", "kov", "bře", "Maw"]

  /** The short names of April. */
  const AprilShort: seq<string> :=
    ["apr", "avr", "апр", "huh", "abr"] +
    ["Απρ", "aib", "tra", "bal", "kwi"] +
    ["dub", "nis", "ápr", "Ebr"]

  /** The short names of May. */
  const MayShort: seq<string> :=
    ["mai", "may", "maj", "май", "tou"] +
    ["Μάι", "bea", "maí", "mag", "geg"] +
    ["mej", "mei", "мая", "máj", "kvě"]

  /** The short names of June. */
  const JuneShort: seq<string> :=
    ["jun", "jui", "юни", "juu", "kes"] +
    ["xuñ", "Ιού", "jún", "giu", "jūn"] +
    ["bir", "Ġun", "Јун", "cze", "iun"] +
    ["июн", "јун", "čer", "haz", "iyu"] +
    ["meh"]

  /** The short names of July. */
  const JulyShort: seq<string> :=
    ["jul", "jui", "uzt", "юли", "juu"] +
    ["hei", "xul", "Iúi", "júl", "lug"] +
    ["srp", "lie", "Lul", "lip", "iul"] +
    ["июл", "јул", "čer", "tem", "iyu"] +
    ["gor"]

  /** The short names of August. */
  const AugustShort: seq<string> :=
    ["aug", "aoû", "abu", "avg", "авг"] +
    ["aŭg", "elo", "ago", "Lún", "ágú"] +
    ["rug", "Awi", "sie", "ağu", "aws"]

  /** The short names of September. */
  const SeptemberShort: seq<string> :=
    ["sep", "сеп", "syy", "set", "Σεπ"] +
    ["rug", "wrz", "сен", "zář", "eyl"] +
    ["sze", "med"]

  /** The short names of October. */
  const OctoberShort: seq<string> :=
    ["okt", "oct", "urr", "окт", "lok"] +
    ["out", "Οκτ", "ott", "lis", "spa"] +
    ["paź", "říj", "eki", "Жов", "hyd"]

  /** The short names of November. */
  const NovemberShort: seq<string> :=
    ["nov", "aza", "ное", "mar", "Νοέ"] +
    ["Sam", "nóv", "stu", "lap", "noi"] +
    ["ноя", "нов", "Kas", "tac"]

  /** The short names of December. */
  const DecemberShort: seq<string> :=
    ["dez", "dec", "déc", "abe", "дек"] +
    ["det", "jou", "Δεκ", "nol", "des"] +
    ["dic", "gru", "Diċ", "дец", "pro"] +
    ["Ara", "rha"]

  /** The long-name alternations, January to December. */
  const LongGroups: seq<seq<string>> := [JanuaryLong, FebruaryLong, MarchLong, AprilLong, MayLong, JuneLong, JulyLong, AugustLong, SeptemberLong, OctoberLong, NovemberLong, DecemberLong]

  /** The abbreviated alternations, January to December. */
  const ShortGroups: seq<seq<string>> := [JanuaryShort, FebruaryShort, MarchShort, AprilShort, MayShort, JuneShort, JulyShort, AugustShort, SeptemberShort, OctoberShort, NovemberShort, DecemberShort]

  /** What the alternation of month `m` (counted from 0) is replaced by. */
  const Replacements: seq<string> := ["1.", "2.", "3.", "4.", "5.", "6.", "7.", "8.", "9.", "10.", "11.", "12."]

  /** `GroupWellFormed` from index `k` on, checked one name at a time. */
  predicate NamesOkFrom(alts: seq<string>, k: nat)
    decreases |alts| - k
  {
    k >= |alts| || (NameOk(alts[k]) && NamesOkFrom(alts, k + 1))
  }

  lemma {:induction false} NamesOkFromIff(alts: seq<string>, k: nat)
    ensures NamesOkFrom(alts, k) <==> forall j :: k <= j < |alts| ==> NameOk(alts[j])
    decreases |alts| - k
  {
    if k < |alts| {
      NamesOkFromIff(alts, k + 1);
    }
  }

  /**
   * Every name of every table is usable: each table is checked one row of
   * five names at a time, from its end to its start.
   */
  lemma JanuaryLongWellFormed()
    ensures GroupWellFormed(JanuaryLong)
  {
    JanuaryLongFrom0();
    NamesOkFromIff(JanuaryLong, 0);
  }

  lemma JanuaryLongFrom0()
    ensures NamesOkFrom(JanuaryLong, 0)
  {
    JanuaryLongFrom5();
    assert NamesOkFrom(JanuaryLong, 4);
    assert NamesOkFrom(JanuaryLong, 3);
    assert NamesOkFrom(JanuaryLong, 2);
    assert NamesOkFrom(JanuaryLong, 1);
  }

  lemma JanuaryLongFrom5()
    ensures NamesOkFrom(JanuaryLong, 5)
  {
    JanuaryLongFrom10();
    assert NamesOkFrom(JanuaryLong, 9);
    assert NamesOkFrom(JanuaryLong, 8);
    assert NamesOkFrom(JanuaryLong, 7);
    assert NamesOkFrom(JanuaryLong, 6);
  }

  lemma JanuaryLongFrom10()
    ensures NamesOkFrom(JanuaryLong, 10)
  {
    JanuaryLongFrom15();
    assert NamesOkFrom(JanuaryLong, 14);
    assert NamesOkFrom(JanuaryLong, 13);
    assert NamesOkFrom(JanuaryLong, 12);
    assert NamesOkFrom(JanuaryLong, 11);
  }

  lemma JanuaryLongFrom15()
    ensures NamesOkFrom(JanuaryLong, 15)
  {
    JanuaryLongFrom20();
    assert NamesOkFrom(JanuaryLong, 19);
    assert NamesOkFrom(JanuaryLong, 18);
    assert NamesOkFrom(JanuaryLong, 17);
    assert NamesOkFrom(JanuaryLong, 16);
  }

  lemma JanuaryLongFrom20()
    ensures NamesOkFrom(JanuaryLong, 20)
  {
    JanuaryLongFrom25();
    assert NamesOkFrom(JanuaryLong, 24);
    assert NamesOkFrom(JanuaryLong, 23);
    assert NamesOkFrom(JanuaryLong, 22);
    assert NamesOkFrom(JanuaryLong, 21);
  }

  lemma JanuaryLongFrom25()
    ensures NamesOkFrom(JanuaryLong, 25)
  {
    assert NamesOkFrom(JanuaryLong, 29);
    assert NamesOkFrom(JanuaryLong, 28);
    assert NamesOkFrom(JanuaryLong, 27);
    assert NamesOkFrom(JanuaryLong, 26);
  }

  lemma FebruaryLongWellFormed()
    ensures GroupWellFormed(FebruaryLong)
  {
    FebruaryLongFrom0();
    NamesOkFromIff(FebruaryLong, 0);
  }

  lemma FebruaryLongFrom0()
    ensures NamesOkFrom(FebruaryLong, 0)
  {
    FebruaryLongFrom5();
    assert NamesOkFrom(FebruaryLong, 4);
    assert NamesOkFrom(FebruaryLong, 3);
    assert NamesOkFrom(FebruaryLong, 2);
    assert NamesOkFrom(FebruaryLong, 1);
  }

  lemma FebruaryLongFrom5()
    ensures NamesOkFrom(FebruaryLong, 5)
  {
    FebruaryLongFrom10();
    assert NamesOkFrom(FebruaryLong, 9);
    assert NamesOkFrom(FebruaryLong, 8);
    assert NamesOkFrom(FebruaryLong, 7);
    assert NamesOkFrom(FebruaryLong, 6);
  }

  lemma FebruaryLongFrom10()
    ensures NamesOkFrom(FebruaryLong, 10)
  {
    FebruaryLongFrom15();
    assert NamesOkFrom(FebruaryLong, 14);
    assert NamesOkFrom(FebruaryLong, 13);
    assert NamesOkFrom(FebruaryLong, 12);
    assert NamesOkFrom(FebruaryLong, 11);
  }

  lemma FebruaryLongFrom15()
    ensures NamesOkFrom(FebruaryLong, 15)
  {
    FebruaryLongFrom20();
    assert NamesOkFrom(FebruaryLong, 19);
    assert NamesOkFrom(FebruaryLong, 18);
    assert NamesOkFrom(FebruaryLong, 17);
    assert NamesOkFrom(FebruaryLong, 16);
  }

  lemma FebruaryLongFrom20()
    ensures NamesOkFrom(FebruaryLong, 20)
  {
    FebruaryLongFrom25();
    assert NamesOkFrom(FebruaryLong, 24);
    assert NamesOkFrom(FebruaryLong, 23);
    assert NamesOkFrom(FebruaryLong, 22);
    assert NamesOkFrom(FebruaryLong, 21);
  }

  lemma FebruaryLongFrom25()
    ensures NamesOkFrom(FebruaryLong, 25)
  {
    assert NamesOkFrom(FebruaryLong, 29);
    assert NamesOkFrom(FebruaryLong, 28);
    assert NamesOkFrom(FebruaryLong, 27);
    assert NamesOkFrom(FebruaryLong, 26);
  }

  lemma MarchLongWellFormed()
    ensures GroupWellFormed(MarchLong)
  {
    MarchLongFrom0();
    NamesOkFromIff(MarchLong, 0);
  }

  lemma MarchLongFrom0()
    ensures NamesOkFrom(MarchLong, 0)
  {
    MarchLongFrom5();
    assert NamesOkFrom(MarchLong, 4);
    assert NamesOkFrom(MarchLong, 3);
    assert NamesOkFrom(MarchLong, 2);
    assert NamesOkFrom(MarchLong, 1);
  }

  lemma MarchLongFrom5()
    ensures NamesOkFrom(MarchLong, 5)
  {
    MarchLongFrom10();
    assert NamesOkFrom(MarchLong, 9);
    assert NamesOkFrom(MarchLong, 8);
    assert NamesOkFrom(MarchLong, 7);
    assert NamesOkFrom(MarchLong, 6);
  }

  lemma MarchLongFrom10()
    ensures NamesOkFrom(MarchLong, 10)
  {
    MarchLongFrom15();
    assert NamesOkFrom(MarchLong, 14);
    assert NamesOkFrom(MarchLong, 13);
    assert NamesOkFrom(MarchLong, 12);
    assert NamesOkFrom(MarchLong, 11);
  }

  lemma MarchLongFrom15()
    ensures NamesOkFrom(MarchLong, 15)
  {
    MarchLongFrom20();
    assert NamesOkFrom(MarchLong, 19);
    assert NamesOkFrom(MarchLong, 18);
    assert NamesOkFrom(MarchLong, 17);
    assert NamesOkFrom(MarchLong, 16);
  }

  lemma MarchLongFrom20()
    ensures NamesOkFrom(MarchLong, 20)
  {
    MarchLongFrom25();
    assert NamesOkFrom(MarchLong, 24);
    assert NamesOkFrom(MarchLong, 23);
    assert NamesOkFrom(MarchLong, 22);
    assert NamesOkFrom(MarchLong, 21);
  }

  lemma MarchLongFrom25()
    ensures NamesOkFrom(MarchLong, 25)
  {
  }

  lemma AprilLongWellFormed()
    ensures GroupWellFormed(AprilLong)
  {
    AprilLongFrom0();
    NamesOkFromIff(AprilLong, 0);
  }

  lemma AprilLongFrom0()
    ensures NamesOkFrom(AprilLong, 0)
  {
    AprilLongFrom5();
    assert NamesOkFrom(AprilLong, 4);
    assert NamesOkFrom(AprilLong, 3);
    assert NamesOkFrom(AprilLong, 2);
    assert NamesOkFrom(AprilLong, 1);
  }

  lemma AprilLongFrom5()
    ensures NamesOkFrom(AprilLong, 5)
  {
    AprilLongFrom10();
    assert NamesOkFrom(AprilLong, 9);
    assert NamesOkFrom(AprilLong, 8);
    assert NamesOkFrom(AprilLong, 7);
    assert NamesOkFrom(AprilLong, 6);
  }

  lemma AprilLongFrom10()
    ensures NamesOkFrom(AprilLong, 10)
  {
    AprilLongFrom15();
    assert NamesOkFrom(AprilLong, 14);
    assert NamesOkFrom(AprilLong, 13);
    assert NamesOkFrom(AprilLong, 12);
    assert NamesOkFrom(AprilLong, 11);
  }

  lemma AprilLongFrom15()
    ensures NamesOkFrom(AprilLong, 15)
  {
    AprilLongFrom20();
    assert NamesOkFrom(AprilLong, 19);
    assert NamesOkFrom(AprilLong, 18);
    assert NamesOkFrom(AprilLong, 17);
    assert NamesOkFrom(AprilLong, 16);
  }

  lemma AprilLongFrom20()
    ensures NamesOkFrom(AprilLong, 20)
  {
    assert NamesOkFrom(AprilLong, 22);
    assert NamesOkFrom(AprilLong, 21);
  }

  lemma MayLongWellFormed()
    ensures GroupWellFormed(MayLong)
  {
    MayLongFrom0();
    NamesOkFromIff(MayLong, 0);
  }

  lemma MayLongFrom0()
    ensures NamesOkFrom(MayLong, 0)
  {
    MayLongFrom5();
    assert NamesOkFrom(MayLong, 4);
    assert NamesOkFrom(MayLong, 3);
    assert NamesOkFrom(MayLong, 2);
    assert NamesOkFrom(MayLong, 1);
  }

  lemma MayLongFrom5()
    ensures NamesOkFrom(MayLong, 5)
  {
    MayLongFrom10();
    assert NamesOkFrom(MayLong, 9);
    assert NamesOkFrom(MayLong, 8);
    assert NamesOkFrom(MayLong, 7);
    assert NamesOkFrom(MayLong, 6);
  }

  lemma MayLongFrom10()
    ensures NamesOkFrom(MayLong, 10)
  {
    MayLongFrom15();
    assert NamesOkFrom(MayLong, 14);
    assert NamesOkFrom(MayLong, 13);
    assert NamesOkFrom(MayLong, 12);
    assert NamesOkFrom(MayLong, 11);
  }

  lemma MayLongFrom15()
    ensures NamesOkFrom(MayLong, 15)
  {
    MayLongFrom20();
    assert NamesOkFrom(MayLong, 19);
    assert NamesOkFrom(MayLong, 18);
    assert NamesOkFrom(MayLong, 17);
    assert NamesOkFrom(MayLong, 16);
  }

  lemma MayLongFrom20()
    ensures NamesOkFrom(MayLong, 20)
  {
    assert NamesOkFrom(MayLong, 24);
    assert NamesOkFrom(MayLong, 23);
    assert NamesOkFrom(MayLong, 22);
    assert NamesOkFrom(MayLong, 21);
  }

  lemma JuneLongWellFormed()
    ensures GroupWellFormed(JuneLong)
  {
    JuneLongFrom0();
    NamesOkFromIff(JuneLong, 0);
  }

  lemma JuneLongFrom0()
    ensures NamesOkFrom(JuneLong, 0)
  {
    JuneLongFrom5();
    assert NamesOkFrom(JuneLong, 4);
    assert NamesOkFrom(JuneLong, 3);
    assert NamesOkFrom(JuneLong, 2);
    assert NamesOkFrom(JuneLong, 1);
  }

  lemma JuneLongFrom5()
    ensures NamesOkFrom(JuneLong, 5)
  {
    JuneLongFrom10();
    assert NamesOkFrom(JuneLong, 9);
    assert NamesOkFrom(JuneLong, 8);
    assert NamesOkFrom(JuneLong, 7);
    assert NamesOkFrom(JuneLong, 6);
  }

  lemma JuneLongFrom10()
    ensures NamesOkFrom(JuneLong, 10)
  {
    JuneLongFrom15();
    assert NamesOkFrom(JuneLong, 14);
    assert NamesOkFrom(JuneLong, 13);
    assert NamesOkFrom(JuneLong, 12);
    assert NamesOkFrom(JuneLong, 11);
  }

  lemma JuneLongFrom15()
    ensures NamesOkFrom(JuneLong, 15)
  {
    JuneLongFrom20();
    assert NamesOkFrom(JuneLong, 19);
    assert NamesOkFrom(JuneLong, 18);
    assert NamesOkFrom(JuneLong, 17);
    assert NamesOkFrom(JuneLong, 16);
  }

  lemma JuneLongFrom20()
    ensures NamesOkFrom(JuneLong, 20)
  {
    JuneLongFrom25();
    assert NamesOkFrom(JuneLong, 24);
    assert NamesOkFrom(JuneLong, 23);
    assert NamesOkFrom(JuneLong, 22);
    assert NamesOkFrom(JuneLong, 21);
  }

  lemma JuneLongFrom25()
    ensures NamesOkFrom(JuneLong, 25)
  {
    JuneLongFrom30();
    assert NamesOkFrom(JuneLong, 29);
    assert NamesOkFrom(JuneLong, 28);
    assert NamesOkFrom(JuneLong, 27);
    assert NamesOkFrom(JuneLong, 26);
  }

  lemma JuneLongFrom30()
    ensures NamesOkFrom(JuneLong, 30)
  {
  }

  lemma JulyLongWellFormed()
    ensures GroupWellFormed(JulyLong)
  {
    JulyLongFrom0();
    NamesOkFromIff(JulyLong, 0);
  }

  lemma JulyLongFrom0()
    ensures NamesOkFrom(JulyLong, 0)
  {
    JulyLongFrom5();
    assert NamesOkFrom(JulyLong, 4);
    assert NamesOkFrom(JulyLong, 3);
    assert NamesOkFrom(JulyLong, 2);
    assert NamesOkFrom(JulyLong, 1);
  }

  lemma JulyLongFrom5()
    ensures NamesOkFrom(JulyLong, 5)
  {
    JulyLongFrom10();
    assert NamesOkFrom(JulyLong, 9);
    assert NamesOkFrom(JulyLong, 8);
    assert NamesOkFrom(JulyLong, 7);
    assert NamesOkFrom(JulyLong, 6);
  }

  lemma JulyLongFrom10()
    ensures NamesOkFrom(JulyLong, 10)
  {
    JulyLongFrom15();
    assert NamesOkFrom(JulyLong, 14);
    assert NamesOkFrom(JulyLong, 13);
    assert NamesOkFrom(JulyLong, 12);
    assert NamesOkFrom(JulyLong, 11);
  }

  lemma JulyLongFrom15()
    ensures NamesOkFrom(JulyLong, 15)
  {
    JulyLongFrom20();
    assert NamesOkFrom(JulyLong, 19);
    assert NamesOkFrom(JulyLong, 18);
    assert NamesOkFrom(JulyLong, 17);
    assert NamesOkFrom(JulyLong, 16);
  }

  lemma JulyLongFrom20()
    ensures NamesOkFrom(JulyLong, 20)
  {
    JulyLongFrom25();
    assert NamesOkFrom(JulyLong, 24);
    assert NamesOkFrom(JulyLong, 23);
    assert NamesOkFrom(JulyLong, 22);
    assert NamesOkFrom(JulyLong, 21);
  }

  lemma JulyLongFrom25()
    ensures NamesOkFrom(JulyLong, 25)
  {
    JulyLongFrom30();
    assert NamesOkFrom(JulyLong, 29);
    assert NamesOkFrom(JulyLong, 28);
    assert NamesOkFrom(JulyLong, 27);
    assert NamesOkFrom(JulyLong, 26);
  }

  lemma JulyLongFrom30()
    ensures NamesOkFrom(JulyLong, 30)
  {
  }

  lemma AugustLongWellFormed()
    ensures GroupWellFormed(AugustLong)
  {
    AugustLongFrom0();
    NamesOkFromIff(AugustLong, 0);
  }

  lemma AugustLongFrom0()
    ensures NamesOkFrom(AugustLong, 0)
  {
    AugustLongFrom5();
    assert NamesOkFrom(AugustLong, 4);
    assert NamesOkFrom(AugustLong, 3);
    assert NamesOkFrom(AugustLong, 2);
    assert NamesOkFrom(AugustLong, 1);
  }

  lemma AugustLongFrom5()
    ensures NamesOkFrom(AugustLong, 5)
  {
    AugustLongFrom10();
    assert NamesOkFrom(AugustLong, 9);
    assert NamesOkFrom(AugustLong, 8);
    assert NamesOkFrom(AugustLong, 7);
    assert NamesOkFrom(AugustLong, 6);
  }

  lemma AugustLongFrom10()
    ensures NamesOkFrom(AugustLong, 10)
  {
    AugustLongFrom15();
    assert NamesOkFrom(AugustLong, 14);
    assert NamesOkFrom(AugustLong, 13);
    assert NamesOkFrom(AugustLong, 12);
    assert NamesOkFrom(AugustLong, 11);
  }

  lemma AugustLongFrom15()
    ensures NamesOkFrom(AugustLong, 15)
  {
    AugustLongFrom20();
    assert NamesOkFrom(AugustLong, 19);
    assert NamesOkFrom(AugustLong, 18);
    assert NamesOkFrom(AugustLong, 17);
    assert NamesOkFrom(AugustLong, 16);
  }

  lemma AugustLongFrom20()
    ensures NamesOkFrom(AugustLong, 20)
  {
    assert NamesOkFrom(AugustLong, 22);
    assert NamesOkFrom(AugustLong, 21);
  }

  lemma SeptemberLongWellFormed()
    ensures GroupWellFormed(SeptemberLong)
  {
    SeptemberLongFrom0();
    NamesOkFromIff(SeptemberLong, 0);
  }

  lemma SeptemberLongFrom0()
    ensures NamesOkFrom(SeptemberLong, 0)
  {
    SeptemberLongFrom5();
    assert NamesOkFrom(SeptemberLong, 4);
    assert NamesOkFrom(SeptemberLong, 3);
    assert NamesOkFrom(SeptemberLong, 2);
    assert NamesOkFrom(SeptemberLong, 1);
  }

  lemma SeptemberLongFrom5()
    ensures NamesOkFrom(SeptemberLong, 5)
  {
    SeptemberLongFrom10();
    assert NamesOkFrom(SeptemberLong, 9);
    assert NamesOkFrom(SeptemberLong, 8);
    assert NamesOkFrom(SeptemberLong, 7);
    assert NamesOkFrom(SeptemberLong, 6);
  }

  lemma SeptemberLongFrom10()
    ensures NamesOkFrom(SeptemberLong, 10)
  {
    SeptemberLongFrom15();
    assert NamesOkFrom(SeptemberLong, 14);
    assert NamesOkFrom(SeptemberLong, 13);
    assert NamesOkFrom(SeptemberLong, 12);
    assert NamesOkFrom(SeptemberLong, 11);
  }

  lemma SeptemberLongFrom15()
    ensures NamesOkFrom(SeptemberLong, 15)
  {
    SeptemberLongFrom20();
    assert NamesOkFrom(SeptemberLong, 19);
    assert NamesOkFrom(SeptemberLong, 18);
    assert NamesOkFrom(SeptemberLong, 17);
    assert NamesOkFrom(SeptemberLong, 16);
  }

  lemma SeptemberLongFrom20()
    ensures NamesOkFrom(SeptemberLong, 20)
  {
    assert NamesOkFrom(SeptemberLong, 23);
    assert NamesOkFrom(SeptemberLong, 22);
    assert NamesOkFrom(SeptemberLong, 21);
  }

  lemma OctoberLongWellFormed()
    ensures GroupWellFormed(OctoberLong)
  {
    OctoberLongFrom0();
    NamesOkFromIff(OctoberLong, 0);
  }

  lemma OctoberLongFrom0()
    ensures NamesOkFrom(OctoberLong, 0)
  {
    OctoberLongFrom5();
    assert NamesOkFrom(OctoberLong, 4);
    assert NamesOkFrom(OctoberLong, 3);
    assert NamesOkFrom(OctoberLong, 2);
    assert NamesOkFrom(OctoberLong, 1);
  }

  lemma OctoberLongFrom5()
    ensures NamesOkFrom(OctoberLong, 5)
  {
    OctoberLongFrom10();
    assert NamesOkFrom(OctoberLong, 9);
    assert NamesOkFrom(OctoberLong, 8);
    assert NamesOkFrom(OctoberLong, 7);
    assert NamesOkFrom(OctoberLong, 6);
  }

  lemma OctoberLongFrom10()
    ensures NamesOkFrom(OctoberLong, 10)
  {
    OctoberLongFrom15();
    assert NamesOkFrom(OctoberLong, 14);
    assert NamesOkFrom(OctoberLong, 13);
    assert NamesOkFrom(OctoberLong, 12);
    assert NamesOkFrom(OctoberLong, 11);
  }

  lemma OctoberLongFrom15()
    ensures NamesOkFrom(OctoberLong, 15)
  {
    OctoberLongFrom20();
    assert NamesOkFrom(OctoberLong, 19);
    assert NamesOkFrom(OctoberLong, 18);
    assert NamesOkFrom(OctoberLong, 17);
    assert NamesOkFrom(OctoberLong, 16);
  }

  lemma OctoberLongFrom20()
    ensures NamesOkFrom(OctoberLong, 20)
  {
    OctoberLongFrom25();
    assert NamesOkFrom(OctoberLong, 24);
    assert NamesOkFrom(OctoberLong, 23);
    assert NamesOkFrom(OctoberLong, 22);
    assert NamesOkFrom(OctoberLong, 21);
  }

  lemma OctoberLongFrom25()
    ensures NamesOkFrom(OctoberLong, 25)
  {
  }

  lemma NovemberLongWellFormed()
    ensures GroupWellFormed(NovemberLong)
  {
    NovemberLongFrom0();
    NamesOkFromIff(NovemberLong, 0);
  }

  lemma NovemberLongFrom0()
    ensures NamesOkFrom(NovemberLong, 0)
  {
    NovemberLongFrom5();
    assert NamesOkFrom(NovemberLong, 4);
    assert NamesOkFrom(NovemberLong, 3);
    assert NamesOkFrom(NovemberLong, 2);
    assert NamesOkFrom(NovemberLong, 1);
  }

  lemma NovemberLongFrom5()
    ensures NamesOkFrom(NovemberLong, 5)
  {
    NovemberLongFrom10();
    assert NamesOkFrom(NovemberLong, 9);
    assert NamesOkFrom(NovemberLong, 8);
    assert NamesOkFrom(NovemberLong, 7);
    assert NamesOkFrom(NovemberLong, 6);
  }

  lemma NovemberLongFrom10()
    ensures NamesOkFrom(NovemberLong, 10)
  {
    NovemberLongFrom15();
    assert NamesOkFrom(NovemberLong, 14);
    assert NamesOkFrom(NovemberLong, 13);
    assert NamesOkFrom(NovemberLong, 12);
    assert NamesOkFrom(NovemberLong, 11);
  }

  lemma NovemberLongFrom15()
    ensures NamesOkFrom(NovemberLong, 15)
  {
    NovemberLongFrom20();
    assert NamesOkFrom(NovemberLong, 19);
    assert NamesOkFrom(NovemberLong, 18);
    assert NamesOkFrom(NovemberLong, 17);
    assert NamesOkFrom(NovemberLong, 16);
  }

  lemma NovemberLongFrom20()
    ensures NamesOkFrom(NovemberLong, 20)
  {
    assert NamesOkFrom(NovemberLong, 22);
    assert NamesOkFrom(NovemberLong, 21);
  }

  lemma DecemberLongWellFormed()
    ensures GroupWellFormed(DecemberLong)
  {
    DecemberLongFrom0();
    NamesOkFromIff(DecemberLong, 0);
  }

  lemma DecemberLongFrom0()
    ensures NamesOkFrom(DecemberLong, 0)
  {
    DecemberLongFrom5();
    assert NamesOkFrom(DecemberLong, 4);
    assert NamesOkFrom(DecemberLong, 3);
    assert NamesOkFrom(DecemberLong, 2);
    assert NamesOkFrom(DecemberLong, 1);
  }

  lemma DecemberLongFrom5()
    ensures NamesOkFrom(DecemberLong, 5)
  {
    DecemberLongFrom10();
    assert NamesOkFrom(DecemberLong, 9);
    assert NamesOkFrom(DecemberLong, 8);
    assert NamesOkFrom(DecemberLong, 7);
    assert NamesOkFrom(DecemberLong, 6);
  }

  lemma DecemberLongFrom10()
    ensures NamesOkFrom(DecemberLong, 10)
  {
    DecemberLongFrom15();
    assert NamesOkFrom(DecemberLong, 14);
    assert NamesOkFrom(DecemberLong, 13);
    assert NamesOkFrom(DecemberLong, 12);
    assert NamesOkFrom(DecemberLong, 11);
  }

  lemma DecemberLongFrom15()
    ensures NamesOkFrom(DecemberLong, 15)
  {
    DecemberLongFrom20();
    assert NamesOkFrom(DecemberLong, 19);
    assert NamesOkFrom(DecemberLong, 18);
    assert NamesOkFrom(DecemberLong, 17);
    assert NamesOkFrom(DecemberLong, 16);
  }

  lemma DecemberLongFrom20()
    ensures NamesOkFrom(DecemberLong, 20)
  {
    DecemberLongFrom25();
    assert NamesOkFrom(DecemberLong, 24);
    assert NamesOkFrom(DecemberLong, 23);
    assert NamesOkFrom(DecemberLong, 22);
    assert NamesOkFrom(DecemberLong, 21);
  }

  lemma DecemberLongFrom25()
    ensures NamesOkFrom(DecemberLong, 25)
  {
  }

  lemma JanuaryShortWellFormed()
    ensures GroupWellFormed(JanuaryShort)
  {
    JanuaryShortFrom0();
    NamesOkFromIff(JanuaryShort, 0);
  }

  lemma JanuaryShortFrom0()
    ensures NamesOkFrom(JanuaryShort, 0)
  {
    JanuaryShortFrom5();
    assert NamesOkFrom(JanuaryShort, 4);
    assert NamesOkFrom(JanuaryShort, 3);
    assert NamesOkFrom(JanuaryShort, 2);
    assert NamesOkFrom(JanuaryShort, 1);
  }

  lemma JanuaryShortFrom5()
    ensures NamesOkFrom(JanuaryShort, 5)
  {
    JanuaryShortFrom10();
    assert NamesOkFrom(JanuaryShort, 9);
    assert NamesOkFrom(JanuaryShort, 8);
    assert NamesOkFrom(JanuaryShort, 7);
    assert NamesOkFrom(JanuaryShort, 6);
  }

  lemma JanuaryShortFrom10()
    ensures NamesOkFrom(JanuaryShort, 10)
  {
    assert NamesOkFrom(JanuaryShort, 14);
    assert NamesOkFrom(JanuaryShort, 13);
    assert NamesOkFrom(JanuaryShort, 12);
    assert NamesOkFrom(JanuaryShort, 11);
  }

  lemma FebruaryShortWellFormed()
    ensures GroupWellFormed(FebruaryShort)
  {
    FebruaryShortFrom0();
    NamesOkFromIff(FebruaryShort, 0);
  }

  lemma FebruaryShortFrom0()
    ensures NamesOkFrom(FebruaryShort, 0)
  {
    FebruaryShortFrom5();
    assert NamesOkFrom(FebruaryShort, 4);
    assert NamesOkFrom(FebruaryShort, 3);
    assert NamesOkFrom(FebruaryShort, 2);
    assert NamesOkFrom(FebruaryShort, 1);
  }

  lemma FebruaryShortFrom5()
    ensures NamesOkFrom(FebruaryShort, 5)
  {
    FebruaryShortFrom10();
    assert NamesOkFrom(FebruaryShort, 9);
    assert NamesOkFrom(FebruaryShort, 8);
    assert NamesOkFrom(FebruaryShort, 7);
    assert NamesOkFrom(FebruaryShort, 6);
  }

  lemma FebruaryShortFrom10()
    ensures NamesOkFrom(FebruaryShort, 10)
  {
    assert NamesOkFrom(FebruaryShort, 14);
    assert NamesOkFrom(FebruaryShort, 13);
    assert NamesOkFrom(FebruaryShort, 12);
    assert NamesOkFrom(FebruaryShort, 11);
  }

  lemma MarchShortWellFormed()
    ensures GroupWellFormed(MarchShort)
  {
    MarchShortFrom0();
    NamesOkFromIff(MarchShort, 0);
  }

  lemma MarchShortFrom0()
    ensures NamesOkFrom(MarchShort, 0)
  {
    MarchShortFrom5();
    assert NamesOkFrom(MarchShort, 4);
    assert NamesOkFrom(MarchShort, 3);
    assert NamesOkFrom(MarchShort, 2);
    assert NamesOkFrom(MarchShort, 1);
  }

  lemma MarchShortFrom5()
    ensures NamesOkFrom(MarchShort, 5)
  {
    assert NamesOkFrom(MarchShort, 8);
    assert NamesOkFrom(MarchShort, 7);
    assert NamesOkFrom(MarchShort, 6);
  }

  lemma AprilShortWellFormed()
    ensures GroupWellFormed(AprilShort)
  {
    AprilShortFrom0();
    NamesOkFromIff(AprilShort, 0);
  }

  lemma AprilShortFrom0()
    ensures NamesOkFrom(AprilShort, 0)
  {
    AprilShortFrom5();
    assert NamesOkFrom(AprilShort, 4);
    assert NamesOkFrom(AprilShort, 3);
    assert NamesOkFrom(AprilShort, 2);
    assert NamesOkFrom(AprilShort, 1);
  }

  lemma AprilShortFrom5()
    ensures NamesOkFrom(AprilShort, 5)
  {
    AprilShortFrom10();
    assert NamesOkFrom(AprilShort, 9);
    assert NamesOkFrom(AprilShort, 8);
    assert NamesOkFrom(AprilShort, 7);
    assert NamesOkFrom(AprilShort, 6);
  }

  lemma AprilShortFrom10()
    ensures NamesOkFrom(AprilShort, 10)
  {
    assert NamesOkFrom(AprilShort, 13);
    assert NamesOkFrom(AprilShort, 12);
    assert NamesOkFrom(AprilShort, 11);
  }

  lemma MayShortWellFormed()
    ensures GroupWellFormed(MayShort)
  {
    MayShortFrom0();
    NamesOkFromIff(MayShort, 0);
  }

  lemma MayShortFrom0()
    ensures NamesOkFrom(MayShort, 0)
  {
    MayShortFrom5();
    assert NamesOkFrom(MayShort, 4);
    assert NamesOkFrom(MayShort, 3);
    assert NamesOkFrom(MayShort, 2);
    assert NamesOkFrom(MayShort, 1);
  }

  lemma MayShortFrom5()
    ensures NamesOkFrom(MayShort, 5)
  {
    MayShortFrom10();
    assert NamesOkFrom(MayShort, 9);
    assert NamesOkFrom(MayShort, 8);
    assert NamesOkFrom(MayShort, 7);
    assert NamesOkFrom(MayShort, 6);
  }

  lemma MayShortFrom10()
    ensures NamesOkFrom(MayShort, 10)
  {
    assert NamesOkFrom(MayShort, 14);
    assert NamesOkFrom(MayShort, 13);
    assert NamesOkFrom(MayShort, 12);
    assert NamesOkFrom(MayShort, 11);
  }

  lemma JuneShortWellFormed()
    ensures GroupWellFormed(JuneShort)
  {
    JuneShortFrom0();
    NamesOkFromIff(JuneShort, 0);
  }

  lemma JuneShortFrom0()
    ensures NamesOkFrom(JuneShort, 0)
  {
    JuneShortFrom5();
    assert NamesOkFrom(JuneShort, 4);
    assert NamesOkFrom(JuneShort, 3);
    assert NamesOkFrom(JuneShort, 2);
    assert NamesOkFrom(JuneShort, 1);
  }

  lemma JuneShortFrom5()
    ensures NamesOkFrom(JuneShort, 5)
  {
    JuneShortFrom10();
    assert NamesOkFrom(JuneShort, 9);
    assert NamesOkFrom(JuneShort, 8);
    assert NamesOkFrom(JuneShort, 7);
    assert NamesOkFrom(JuneShort, 6);
  }

  lemma JuneShortFrom10()
    ensures NamesOkFrom(JuneShort, 10)
  {
    JuneShortFrom15();
    assert NamesOkFrom(JuneShort, 14);
    assert NamesOkFrom(JuneShort, 13);
    assert NamesOkFrom(JuneShort, 12);
    assert NamesOkFrom(JuneShort, 11);
  }

  lemma JuneShortFrom15()
    ensures NamesOkFrom(JuneShort, 15)
  {
    JuneShortFrom20();
    assert NamesOkFrom(JuneShort, 19);
    assert NamesOkFrom(JuneShort, 18);
    assert NamesOkFrom(JuneShort, 17);
    assert NamesOkFrom(JuneShort, 16);
  }

  lemma JuneShortFrom20()
    ensures NamesOkFrom(JuneShort, 20)
  {
  }

  lemma JulyShortWellFormed()
    ensures GroupWellFormed(JulyShort)
  {
    JulyShortFrom0();
    NamesOkFromIff(JulyShort, 0);
  }

  lemma JulyShortFrom0()
    ensures NamesOkFrom(JulyShort, 0)
  {
    JulyShortFrom5();
    assert NamesOkFrom(JulyShort, 4);
    assert NamesOkFrom(JulyShort, 3);
    assert NamesOkFrom(JulyShort, 2);
    assert NamesOkFrom(JulyShort, 1);
  }

  lemma JulyShortFrom5()
    ensures NamesOkFrom(JulyShort, 5)
  {
    JulyShortFrom10();
    assert NamesOkFrom(JulyShort, 9);
    assert NamesOkFrom(JulyShort, 8);
    assert NamesOkFrom(JulyShort, 7);
    assert NamesOkFrom(JulyShort, 6);
  }

  lemma JulyShortFrom10()
    ensures NamesOkFrom(JulyShort, 10)
  {
    JulyShortFrom15();
    assert NamesOkFrom(JulyShort, 14);
    assert NamesOkFrom(JulyShort, 13);
    assert NamesOkFrom(JulyShort, 12);
    assert NamesOkFrom(JulyShort, 11);
  }

  lemma JulyShortFrom15()
    ensures NamesOkFrom(JulyShort, 15)
  {
    JulyShortFrom20();
    assert NamesOkFrom(JulyShort, 19);
    assert NamesOkFrom(JulyShort, 18);
    assert NamesOkFrom(JulyShort, 17);
    assert NamesOkFrom(JulyShort, 16);
  }

  lemma JulyShortFrom20()
    ensures NamesOkFrom(JulyShort, 20)
  {
  }

  lemma AugustShortWellFormed()
    ensures GroupWellFormed(AugustShort)
  {
    AugustShortFrom0();
    NamesOkFromIff(AugustShort, 0);
  }

  lemma AugustShortFrom0()
    ensures NamesOkFrom(AugustShort, 0)
  {
    AugustShortFrom5();
    assert NamesOkFrom(AugustShort, 4);
    assert NamesOkFrom(AugustShort, 3);
    assert NamesOkFrom(AugustShort, 2);
    assert NamesOkFrom(AugustShort, 1);
  }

  lemma AugustShortFrom5()
    ensures NamesOkFrom(AugustShort, 5)
  {
    AugustShortFrom10();
    assert NamesOkFrom(AugustShort, 9);
    assert NamesOkFrom(AugustShort, 8);
    assert NamesOkFrom(AugustShort, 7);
    assert NamesOkFrom(AugustShort, 6);
  }

  lemma AugustShortFrom10()
    ensures NamesOkFrom(AugustShort, 10)
  {
    assert NamesOkFrom(AugustShort, 14);
    assert NamesOkFrom(AugustShort, 13);
    assert NamesOkFrom(AugustShort, 12);
    assert NamesOkFrom(AugustShort, 11);
  }

  lemma SeptemberShortWellFormed()
    ensures GroupWellFormed(SeptemberShort)
  {
    SeptemberShortFrom0();
    NamesOkFromIff(SeptemberShort, 0);
  }

  lemma SeptemberShortFrom0()
    ensures NamesOkFrom(SeptemberShort, 0)
  {
    SeptemberShortFrom5();
    assert NamesOkFrom(SeptemberShort, 4);
    assert NamesOkFrom(SeptemberShort, 3);
    assert NamesOkFrom(SeptemberShort, 2);
    assert NamesOkFrom(SeptemberShort, 1);
  }

  lemma SeptemberShortFrom5()
    ensures NamesOkFrom(SeptemberShort, 5)
  {
    SeptemberShortFrom10();
    assert NamesOkFrom(SeptemberShort, 9);
    assert NamesOkFrom(SeptemberShort, 8);
    assert NamesOkFrom(SeptemberShort, 7);
    assert NamesOkFrom(SeptemberShort, 6);
  }

  lemma SeptemberShortFrom10()
    ensures NamesOkFrom(SeptemberShort, 10)
  {
    assert NamesOkFrom(SeptemberShort, 11);
  }

  lemma OctoberShortWellFormed()
    ensures GroupWellFormed(OctoberShort)
  {
    OctoberShortFrom0();
    NamesOkFromIff(OctoberShort, 0);
  }

  lemma OctoberShortFrom0()
    ensures NamesOkFrom(OctoberShort, 0)
  {
    OctoberShortFrom5();
    assert NamesOkFrom(OctoberShort, 4);
    assert NamesOkFrom(OctoberShort, 3);
    assert NamesOkFrom(OctoberShort, 2);
    assert NamesOkFrom(OctoberShort, 1);
  }

  lemma OctoberShortFrom5()
    ensures NamesOkFrom(OctoberShort, 5)
  {
    OctoberShortFrom10();
    assert NamesOkFrom(OctoberShort, 9);
    assert NamesOkFrom(OctoberShort, 8);
    assert NamesOkFrom(OctoberShort, 7);
    assert NamesOkFrom(OctoberShort, 6);
  }

  lemma OctoberShortFrom10()
    ensures NamesOkFrom(OctoberShort, 10)
  {
    assert NamesOkFrom(OctoberShort, 14);
    assert NamesOkFrom(OctoberShort, 13);
    assert NamesOkFrom(OctoberShort, 12);
    assert NamesOkFrom(OctoberShort, 11);
  }

  lemma NovemberShortWellFormed()
    ensures GroupWellFormed(NovemberShort)
  {
    NovemberShortFrom0();
    NamesOkFromIff(NovemberShort, 0);
  }

  lemma NovemberShortFrom0()
    ensures NamesOkFrom(NovemberShort, 0)
  {
    NovemberShortFrom5();
    assert NamesOkFrom(NovemberShort, 4);
    assert NamesOkFrom(NovemberShort, 3);
    assert NamesOkFrom(NovemberShort, 2);
    assert NamesOkFrom(NovemberShort, 1);
  }

  lemma NovemberShortFrom5()
    ensures NamesOkFrom(NovemberShort, 5)
  {
    NovemberShortFrom10();
    assert NamesOkFrom(NovemberShort, 9);
    assert NamesOkFrom(NovemberShort, 8);
    assert NamesOkFrom(NovemberShort, 7);
    assert NamesOkFrom(NovemberShort, 6);
  }

  lemma NovemberShortFrom10()
    ensures NamesOkFrom(NovemberShort, 10)
  {
    assert NamesOkFrom(NovemberShort, 13);
    assert NamesOkFrom(NovemberShort, 12);
    assert NamesOkFrom(NovemberShort, 11);
  }

  lemma DecemberShortWellFormed()
    ensures GroupWellFormed(DecemberShort)
  {
    DecemberShortFrom0();
    NamesOkFromIff(DecemberShort, 0);
  }

  lemma DecemberShortFrom0()
    ensures NamesOkFrom(DecemberShort, 0)
  {
    DecemberShortFrom5();
    assert NamesOkFrom(DecemberShort, 4);
    assert NamesOkFrom(DecemberShort, 3);
    assert NamesOkFrom(DecemberShort, 2);
    assert NamesOkFrom(DecemberShort, 1);
  }

  lemma DecemberShortFrom5()
    ensures NamesOkFrom(DecemberShort, 5)
  {
    DecemberShortFrom10();
    assert NamesOkFrom(DecemberShort, 9);
    assert NamesOkFrom(DecemberShort, 8);
    assert NamesOkFrom(DecemberShort, 7);
    assert NamesOkFrom(DecemberShort, 6);
  }

  lemma DecemberShortFrom10()
    ensures NamesOkFrom(DecemberShort, 10)
  {
    DecemberShortFrom15();
    assert NamesOkFrom(DecemberShort, 14);
    assert NamesOkFrom(DecemberShort, 13);
    assert NamesOkFrom(DecemberShort, 12);
    assert NamesOkFrom(DecemberShort, 11);
  }

  lemma DecemberShortFrom15()
    ensures NamesOkFrom(DecemberShort, 15)
  {
    assert NamesOkFrom(DecemberShort, 16);
  }

  lemma TablesWellFormed()
    ensures TableOk(LongGroups, Replacements) && TableOk(ShortGroups, Replacements)
  {
    JanuaryLongWellFormed();
    FebruaryLongWellFormed();
    MarchLongWellFormed();
    AprilLongWellFormed();
    MayLongWellFormed();
    JuneLongWellFormed();
    JulyLongWellFormed();
    AugustLongWellFormed();
    SeptemberLongWellFormed();
    OctoberLongWellFormed();
    NovemberLongWellFormed();
    DecemberLongWellFormed();
    JanuaryShortWellFormed();
    FebruaryShortWellFormed();
    MarchShortWellFormed();
    AprilShortWellFormed();
    MayShortWellFormed();
    JuneShortWellFormed();
    JulyShortWellFormed();
    AugustShortWellFormed();
    SeptemberShortWellFormed();
    OctoberShortWellFormed();
    NovemberShortWellFormed();
    DecemberShortWellFormed();
  }

  /**
   * The rewrite applied to a string the host parser rejected: every long
   * month name first, then every abbreviation. Afterwards no month name of
   * any table is left.
   */
  function RewriteMonthNames(s: string): (r: string)
    ensures NoneOccurs(r, LongGroups, 0)
    ensures NoneOccurs(r, ShortGroups, 0)
  {
    TablesWellFormed();
    var long := ReplaceGroups(s, LongGroups, Replacements, 0);
    ReplaceGroupsClears(s, LongGroups, Replacements, 0);
    ReplaceGroupsKeepsNoneOccurs(long, ShortGroups, Replacements, LongGroups);
    ReplaceGroupsClears(long, ShortGroups, Replacements, 0);
    ReplaceGroups(long, ShortGroups, Replacements, 0)
  }

  /** Text without month names passes through the rewrite unchanged. */
  lemma RewriteWithoutMonthName(s: string)
    requires NoneOccurs(s, LongGroups, 0) && NoneOccurs(s, ShortGroups, 0)
    ensures RewriteMonthNames(s) == s
  {
    TablesWellFormed();
  }

  /** Rewriting twice is rewriting once. */
  lemma RewriteMonthNamesIdempotent(s: string)
    ensures RewriteMonthNames(RewriteMonthNames(s)) == RewriteMonthNames(s)
  {
    RewriteWithoutMonthName(RewriteMonthNames(s));
  }

  /** Plain text holds no month name. */
  lemma PlainHoldsNoMonthName(s: string, groups: seq<seq<string>>, k: nat)
    requires AllPlain(s)
    requires forall g :: 0 <= g < |groups| ==> GroupWellFormed(groups[g])
    ensures NoneOccurs(s, groups, k)
  {
    forall g, j | k <= g < |groups| && 0 <= j < |groups[g]|
      ensures !OccursIn(s, groups[g][j])
    {
      PlainHoldsNoName(s, groups[g][j]);
    }
  }

  /** "Januar" against the first four January names, case folded. */
  lemma JanuarPrefixes()
    ensures !StartsWithFold("Januar", "january") && !StartsWithFold("Januar", "januaro")
    ensures !StartsWithFold("Januar", "januari") && StartsWithFold("Januar", "januar")
  {
    assert "Januar"[1..] == "anuar" && "anuar"[1..] == "nuar" && "nuar"[1..] == "uar";
    assert "uar"[1..] == "ar" && "ar"[1..] == "r" && "r"[1..] == "";
  }

  lemma JanuaryLongHead()
    ensures JanuaryLong[0] == "january" && JanuaryLong[1] == "januaro"
    ensures JanuaryLong[2] == "januari" && JanuaryLong[3] == "januar"
  {
  }

  /**
   * "Januar" meets the January group, where "january", "januaro" and
   * "januari" are tried and fail before "januar" matches.
   */
  lemma JanuarInJanuaryGroup()
    ensures GroupWellFormed(JanuaryLong) && ReplaceAll("Januar", JanuaryLong, "1.") == "1."
  {
    JanuaryLongWellFormed();
    JanuarPrefixes();
    JanuaryLongHead();
    assert FirstAlternative("Januar", JanuaryLong, 0) == Some(3);
    ReplaceAllOfName("Januar", JanuaryLong, "1.", 3);
  }

  /** "Januar 2015" becomes "1. 2015": the name is replaced where it stands and the year is kept. */
  lemma JanuarYearInJanuaryGroup()
    ensures GroupWellFormed(JanuaryLong) && ReplaceAll("Januar 2015", JanuaryLong, "1.") == "1. 2015"
  {
    JanuarInJanuaryGroup();
    JanuarYearPieces();
    ReplaceAllThenPlain("Januar", ' ', "2015", JanuaryLong, "1.", "Januar 2015", "1. 2015");
  }

  /** How "Januar 2015" and "1. 2015" are put together. */
  lemma JanuarYearPieces()
    ensures "Januar 2015" == "Januar" + [' '] + "2015" && "1. 2015" == "1." + [' '] + "2015"
    ensures AllPlain("2015") && IsPlain(' ')
  {
  }

  /** The whole rewrite turns "Januar" into "1." and touches nothing else. */
  lemma RewriteJanuarExample()
    ensures RewriteMonthNames("Januar") == "1."
  {
    TablesWellFormed();
    JanuarInJanuaryGroup();
    assert LongGroups[0] == JanuaryLong && Replacements[0] == "1.";
    assert ReplaceGroups("Januar", LongGroups, Replacements, 0) == ReplaceGroups("1.", LongGroups, Replacements, 1);
    assert AllPlain("1.");
    PlainHoldsNoMonthName("1.", LongGroups, 1);
    PlainHoldsNoMonthName("1.", ShortGroups, 0);
  }

  /** No alternative from index `k` up to `stop` begins `s`, checked one name at a time. */
  predicate NoneStartsBetween(s: string, alts: seq<string>, k: nat, stop: nat)
    requires stop <= |alts|
    decreases stop - k
  {
    k >= stop || (!StartsWithFold(s, alts[k]) && NoneStartsBetween(s, alts, k + 1, stop))
  }

  /** The alternatives that cannot begin `s` are passed over. */
  lemma {:induction false} FirstAlternativeSkips(s: string, alts: seq<string>, k: nat, stop: nat)
    requires k <= stop <= |alts| && NoneStartsBetween(s, alts, k, stop)
    ensures FirstAlternative(s, alts, k) == FirstAlternative(s, alts, stop)
    decreases stop - k
  {
    if k < stop {
      FirstAlternativeSkips(s, alts, k + 1, stop);
    }
  }

  /** None of the first 26 June names begins "červenec". */
  lemma CervenecFrom25()
    ensures NoneStartsBetween("červenec", JuneLong, 25, 26)
  {

  }

  lemma CervenecFrom20()
    ensures NoneStartsBetween("červenec", JuneLong, 20, 26)
  {
    CervenecFrom25();
    assert NoneStartsBetween("červenec", JuneLong, 24, 26);
    assert NoneStartsBetween("červenec", JuneLong, 23, 26);
    assert NoneStartsBetween("červenec", JuneLong, 22, 26);
    assert NoneStartsBetween("červenec", JuneLong, 21, 26);
  }

  lemma CervenecFrom15()
    ensures NoneStartsBetween("červenec", JuneLong, 15, 26)
  {
    CervenecFrom20();
    assert NoneStartsBetween("červenec", JuneLong, 19, 26);
    assert NoneStartsBetween("červenec", JuneLong, 18, 26);
    assert NoneStartsBetween("červenec", JuneLong, 17, 26);
    assert NoneStartsBetween("červenec", JuneLong, 16, 26);
  }

  lemma CervenecFrom10()
    ensures NoneStartsBetween("červenec", JuneLong, 10, 26)
  {
    CervenecFrom15();
    assert NoneStartsBetween("červenec", JuneLong, 14, 26);
    assert NoneStartsBetween("červenec", JuneLong, 13, 26);
    assert NoneStartsBetween("červenec", JuneLong, 12, 26);
    assert NoneStartsBetween("červenec", JuneLong, 11, 26);
  }

  lemma CervenecFrom5()
    ensures NoneStartsBetween("červenec", JuneLong, 5, 26)
  {
    CervenecFrom10();
    assert NoneStartsBetween("červenec", JuneLong, 9, 26);
    assert NoneStartsBetween("červenec", JuneLong, 8, 26);
    assert NoneStartsBetween("červenec", JuneLong, 7, 26);
    assert NoneStartsBetween("červenec", JuneLong, 6, 26);
  }

  lemma CervenecFrom0()
    ensures NoneStartsBetween("červenec", JuneLong, 0, 26)
  {
    CervenecFrom5();
    assert NoneStartsBetween("červenec", JuneLong, 4, 26);
    assert NoneStartsBetween("červenec", JuneLong, 3, 26);
    assert NoneStartsBetween("červenec", JuneLong, 2, 26);
    assert NoneStartsBetween("červenec", JuneLong, 1, 26);
  }

  /** No June name begins "ec" or "c". */
  lemma EcFrom30()
    ensures NoneStartsBetween("ec", JuneLong, 30, 31) && NoneStartsBetween("c", JuneLong, 30, 31)
  {

  }

  lemma EcFrom25()
    ensures NoneStartsBetween("ec", JuneLong, 25, 31) && NoneStartsBetween("c", JuneLong, 25, 31)
  {
    EcFrom30();
    assert NoneStartsBetween("ec", JuneLong, 29, 31) && NoneStartsBetween("c", JuneLong, 29, 31);
    assert NoneStartsBetween("ec", JuneLong, 28, 31) && NoneStartsBetween("c", JuneLong, 28, 31);
    assert NoneStartsBetween("ec", JuneLong, 27, 31) && NoneStartsBetween("c", JuneLong, 27, 31);
    assert NoneStartsBetween("ec", JuneLong, 26, 31) && NoneStartsBetween("c", JuneLong, 26, 31);
  }

  lemma EcFrom20()
    ensures NoneStartsBetween("ec", JuneLong, 20, 31) && NoneStartsBetween("c", JuneLong, 20, 31)
  {
    EcFrom25();
    assert NoneStartsBetween("ec", JuneLong, 24, 31) && NoneStartsBetween("c", JuneLong, 24, 31);
    assert NoneStartsBetween("ec", JuneLong, 23, 31) && NoneStartsBetween("c", JuneLong, 23, 31);
    assert NoneStartsBetween("ec", JuneLong, 22, 31) && NoneStartsBetween("c", JuneLong, 22, 31);
    assert NoneStartsBetween("ec", JuneLong, 21, 31) && NoneStartsBetween("c", JuneLong, 21, 31);
  }

  lemma EcFrom15()
    ensures NoneStartsBetween("ec", JuneLong, 15, 31) && NoneStartsBetween("c", JuneLong, 15, 31)
  {
    EcFrom20();
    assert NoneStartsBetween("ec", JuneLong, 19, 31) && NoneStartsBetween("c", JuneLong, 19, 31);
    assert NoneStartsBetween("ec", JuneLong, 18, 31) && NoneStartsBetween("c", JuneLong, 18, 31);
    assert NoneStartsBetween("ec", JuneLong, 17, 31) && NoneStartsBetween("c", JuneLong, 17, 31);
    assert NoneStartsBetween("ec", JuneLong, 16, 31) && NoneStartsBetween("c", JuneLong, 16, 31);
  }

  lemma EcFrom10()
    ensures NoneStartsBetween("ec", JuneLong, 10, 31) && NoneStartsBetween("c", JuneLong, 10, 31)
  {
    EcFrom15();
    assert NoneStartsBetween("ec", JuneLong, 14, 31) && NoneStartsBetween("c", JuneLong, 14, 31);
    assert NoneStartsBetween("ec", JuneLong, 13, 31) && NoneStartsBetween("c", JuneLong, 13, 31);
    assert NoneStartsBetween("ec", JuneLong, 12, 31) && NoneStartsBetween("c", JuneLong, 12, 31);
    assert NoneStartsBetween("ec", JuneLong, 11, 31) && NoneStartsBetween("c", JuneLong, 11, 31);
  }

  lemma EcFrom5()
    ensures NoneStartsBetween("ec", JuneLong, 5, 31) && NoneStartsBetween("c", JuneLong, 5, 31)
  {
    EcFrom10();
    assert NoneStartsBetween("ec", JuneLong, 9, 31) && NoneStartsBetween("c", JuneLong, 9, 31);
    assert NoneStartsBetween("ec", JuneLong, 8, 31) && NoneStartsBetween("c", JuneLong, 8, 31);
    assert NoneStartsBetween("ec", JuneLong, 7, 31) && NoneStartsBetween("c", JuneLong, 7, 31);
    assert NoneStartsBetween("ec", JuneLong, 6, 31) && NoneStartsBetween("c", JuneLong, 6, 31);
  }

  lemma EcFrom0()
    ensures NoneStartsBetween("ec", JuneLong, 0, 31) && NoneStartsBetween("c", JuneLong, 0, 31)
  {
    EcFrom5();
    assert NoneStartsBetween("ec", JuneLong, 4, 31) && NoneStartsBetween("c", JuneLong, 4, 31);
    assert NoneStartsBetween("ec", JuneLong, 3, 31) && NoneStartsBetween("c", JuneLong, 3, 31);
    assert NoneStartsBetween("ec", JuneLong, 2, 31) && NoneStartsBetween("c", JuneLong, 2, 31);
    assert NoneStartsBetween("ec", JuneLong, 1, 31) && NoneStartsBetween("c", JuneLong, 1, 31);
  }

  /** None of the first 14 October names begins "listopad". */
  lemma ListopadFrom10()
    ensures NoneStartsBetween("listopad", OctoberLong, 10, 14)
  {
    assert NoneStartsBetween("listopad", OctoberLong, 13, 14);
    assert NoneStartsBetween("listopad", OctoberLong, 12, 14);
    assert NoneStartsBetween("listopad", OctoberLong, 11, 14);
  }

  lemma ListopadFrom5()
    ensures NoneStartsBetween("listopad", OctoberLong, 5, 14)
  {
    ListopadFrom10();
    assert NoneStartsBetween("listopad", OctoberLong, 9, 14);
    assert NoneStartsBetween("listopad", OctoberLong, 8, 14);
    assert NoneStartsBetween("listopad", OctoberLong, 7, 14);
    assert NoneStartsBetween("listopad", OctoberLong, 6, 14);
  }

  lemma ListopadFrom0()
    ensures NoneStartsBetween("listopad", OctoberLong, 0, 14)
  {
    ListopadFrom5();
    assert NoneStartsBetween("listopad", OctoberLong, 4, 14);
    assert NoneStartsBetween("listopad", OctoberLong, 3, 14);
    assert NoneStartsBetween("listopad", OctoberLong, 2, 14);
    assert NoneStartsBetween("listopad", OctoberLong, 1, 14);
  }

  lemma CervenPrefix()
    ensures StartsWithFold("červenec", "červen")
  {
    assert "červenec"[1..] == "ervenec" && "ervenec"[1..] == "rvenec" && "rvenec"[1..] == "venec";
    assert "venec"[1..] == "enec" && "enec"[1..] == "nec" && "nec"[1..] == "ec";
    assert "červen"[1..] == "erven" && "erven"[1..] == "rven" && "rven"[1..] == "ven";
    assert "ven"[1..] == "en" && "en"[1..] == "n" && "n"[1..] == "";
  }

  /** Where the two Czech names sit in their tables. */
  lemma CzechSummerNames()
    ensures |JuneLong| == 31 && JuneLong[26] == "červen" && JulyLong[25] == "červenec"
  {
  }

  /** In the June group "červen" is the first alternative to match "červenec". */
  lemma CervenecFirstMatch()
    ensures FirstAlternative("červenec", JuneLong, 0) == Some(26)
  {
    CervenecFrom0();
    FirstAlternativeSkips("červenec", JuneLong, 0, 26);
    CervenPrefix();
    CzechSummerNames();
  }

  /** What "červen" leaves over, "ec", holds no June name. */
  lemma EcUnchanged()
    ensures GroupWellFormed(JuneLong) && ReplaceAll("ec", JuneLong, "6.") == "ec"
  {
    JuneLongWellFormed();
    EcFrom0();
    FirstAlternativeSkips("ec", JuneLong, 0, 31);
    FirstAlternativeSkips("c", JuneLong, 0, 31);
    assert "ec"[1..] == "c" && "c"[1..] == "";
    assert ReplaceAll("c", JuneLong, "6.") == "c";
  }

  /**
   * The Czech "červenec" (July) meets the June group first, where "červen"
   * matches its first six letters, so it becomes "6.ec".
   */
  lemma CervenecInJuneGroup()
    ensures JulyLong[25] == "červenec" && JuneLong[26] == "červen"
    ensures GroupWellFormed(JuneLong) && ReplaceAll("červenec", JuneLong, "6.") == "6.ec"
  {
    CzechSummerNames();
    CervenecFirstMatch();
    EcUnchanged();
    assert "červenec"[6..] == "ec";
  }

  lemma ListopadPrefix()
    ensures StartsWithFold("listopad", "listopad")
  {
    assert "listopad"[1..] == "istopad" && "istopad"[1..] == "stopad" && "stopad"[1..] == "topad";
    assert "topad"[1..] == "opad" && "opad"[1..] == "pad" && "pad"[1..] == "ad" && "ad"[1..] == "d";
    assert "d"[1..] == "";
  }

  /** "listopad" is listed under October and again under November. */
  lemma ListopadListedTwice()
    ensures OctoberLong[14] == "listopad" && NovemberLong[15] == "listopad"
  {
  }

  lemma ListopadInOctoberGroup()
    ensures GroupWellFormed(OctoberLong) && ReplaceAll("listopad", OctoberLong, "10.") == "10."
  {
    OctoberLongWellFormed();
    ListopadFrom0();
    FirstAlternativeSkips("listopad", OctoberLong, 0, 14);
    ListopadPrefix();
    ListopadListedTwice();
    assert FirstAlternative("listopad", OctoberLong, 0) == Some(14);
    assert "listopad"[8..] == "";
  }

  /** "10." passes through the long groups after October unchanged. */
  lemma TenAfterOctober()
    ensures TableOk(LongGroups, Replacements)
    ensures ReplaceGroups("10.", LongGroups, Replacements, 10) == "10."
  {
    TablesWellFormed();
    assert AllPlain("10.");
    PlainHoldsNoMonthName("10.", LongGroups, 10);
  }

  /**
   * October comes before November, so from October on "listopad" always
   * becomes "10.".
   */
  lemma ListopadIsOctober()
    ensures TableOk(LongGroups, Replacements)
    ensures ReplaceGroups("listopad", LongGroups, Replacements, 9) == "10."
  {
    TenAfterOctober();
    ListopadInOctoberGroup();
    assert LongGroups[9] == OctoberLong && Replacements[9] == "10.";
  }
}
