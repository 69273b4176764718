/** Calendar arithmetic on dd/mm/aaaa dates (v_misc.c, calcUltDia to somaData). */
module Calendar {
  import opened Memory
  import opened Digits
  import opened Conversions

  datatype Date = Date(dia: int, mes: int, ano: int)

  /** calcUltDia: the last day of a month; every fourth year is a leap year. */
  function CalcUltDia(mes: int, ano: int): int
  {
    if mes in {1, 3, 5, 7, 8, 10, 12} then 31
    else if mes in {4, 6, 9, 11} then 30
    else if mes == 2 then (if ano % 4 == 0 then 29 else 28)
    else 0
  }

  predicate ValidDate(d: Date)
  {
    1 <= d.mes <= 12 && 1 <= d.dia <= CalcUltDia(d.mes, d.ano) && d.ano >= 0
  }

  // ---- days counted from the start of year 0 ----------------------------------------------------

  function YearLength(ano: int): nat { if ano % 4 == 0 then 366 else 365 }

  /** The days of the years before `ano`. */
  function YearDays(ano: nat): nat
  {
    if ano == 0 then 0 else YearDays(ano - 1) + YearLength(ano - 1)
  }

  /** The days of the months of `ano` before `mes`. */
  function MonthDays(mes: int, ano: int): nat
    requires 1 <= mes <= 13
    decreases mes
  {
    if mes == 1 then 0 else MonthDays(mes - 1, ano) + CalcUltDia(mes - 1, ano)
  }

  function DayCount(d: Date): nat
    requires ValidDate(d)
  {
    YearDays(d.ano) + MonthDays(d.mes, d.ano) + d.dia as nat
  }

  lemma YearOfMonths(ano: int)
    ensures MonthDays(13, ano) == YearLength(ano)
  {
    assert MonthDays(5, ano) == 31 + CalcUltDia(2, ano) + 61;
    assert MonthDays(9, ano) == MonthDays(5, ano) + 123;
  }

  lemma {:induction false} MonthsGrow(a: int, b: int, ano: int)
    requires 1 <= a <= b <= 13
    ensures MonthDays(a, ano) <= MonthDays(b, ano)
    ensures a < b ==> MonthDays(a, ano) + CalcUltDia(a, ano) <= MonthDays(b, ano)
    decreases b
  {
    if a < b { MonthsGrow(a, b - 1, ano); }
  }

  lemma {:induction false} YearsGrow(a: nat, b: nat)
    requires a <= b
    ensures YearDays(a) <= YearDays(b)
    ensures a < b ==> YearDays(a) + YearLength(a) <= YearDays(b)
  {
    if a < b { YearsGrow(a, b - 1); }
  }

  predicate Earlier(a: Date, b: Date)
  {
    a.ano < b.ano || (a.ano == b.ano && (a.mes < b.mes || (a.mes == b.mes && a.dia < b.dia)))
  }

  lemma WithinYear(d: Date)
    requires ValidDate(d)
    ensures YearDays(d.ano) < DayCount(d) <= YearDays(d.ano) + YearLength(d.ano)
  {
    MonthsGrow(d.mes, 13, d.ano);
    MonthsGrow(d.mes, d.mes + 1, d.ano);
    YearOfMonths(d.ano);
  }

  /** Counting days keeps the order of dates, so two dates with the same count are the same date. */
  lemma CountOrders(a: Date, b: Date)
    requires ValidDate(a) && ValidDate(b)
    ensures Earlier(a, b) <==> DayCount(a) < DayCount(b)
    ensures DayCount(a) == DayCount(b) ==> a == b
  {
    if Earlier(a, b) {
      EarlierCount(a, b);
    } else if Earlier(b, a) {
      EarlierCount(b, a);
    }
  }

  lemma EarlierCount(a: Date, b: Date)
    requires ValidDate(a) && ValidDate(b) && Earlier(a, b)
    ensures DayCount(a) < DayCount(b)
  {
    if a.ano < b.ano {
      WithinYear(a);
      WithinYear(b);
      YearsGrow(a.ano, b.ano);
    } else if a.mes < b.mes {
      MonthsGrow(a.mes, b.mes, a.ano);
    }
  }

  // ---- adding days ------------------------------------------------------------------------------

  function FirstOfNext(d: Date): Date
  {
    if d.mes == 12 then Date(1, 1, d.ano + 1) else Date(1, d.mes + 1, d.ano)
  }

  /** A month at a time, as distancia1 goes. */
  function Plus(d: Date, n: nat): (r: Date)
    requires ValidDate(d)
    ensures ValidDate(r)
    decreases n
  {
    var distancia := CalcUltDia(d.mes, d.ano) - d.dia;
    if n > distancia then Plus(FirstOfNext(d), n - distancia - 1) else Date(d.dia + n, d.mes, d.ano)
  }

  lemma NextCount(d: Date)
    requires ValidDate(d)
    ensures ValidDate(FirstOfNext(d))
    ensures DayCount(FirstOfNext(d)) == DayCount(d) + CalcUltDia(d.mes, d.ano) - d.dia + 1
  {
    if d.mes == 12 { YearOfMonths(d.ano); }
  }

  /** Adding n days adds n to the day count. */
  lemma {:induction false} PlusCounts(d: Date, n: nat)
    requires ValidDate(d)
    ensures DayCount(Plus(d, n)) == DayCount(d) + n
    decreases n
  {
    var distancia := CalcUltDia(d.mes, d.ano) - d.dia;
    if n > distancia {
      NextCount(d);
      PlusCounts(FirstOfNext(d), n - distancia - 1);
    }
  }

  /** Additions compose. */
  lemma PlusComposes(d: Date, a: nat, b: nat)
    requires ValidDate(d)
    ensures Plus(Plus(d, a), b) == Plus(d, a + b)
  {
    PlusCounts(d, a);
    PlusCounts(Plus(d, a), b);
    PlusCounts(d, a + b);
    CountOrders(Plus(Plus(d, a), b), Plus(d, a + b));
  }

  // ---- the Gregorian calendar -------------------------------------------------------------------

  /** The leap rule of section 3.2.1 of ISO 8601:2004. */
  predicate GregorianLeap(ano: int) { ano % 4 == 0 && (ano % 100 != 0 || ano % 400 == 0) }

  function GregorianLength(mes: int, ano: int): int
    requires 1 <= mes <= 12
  {
    match mes
    case 2 => if GregorianLeap(ano) then 29 else 28
    case 4 => 30
    case 6 => 30
    case 9 => 30
    case 11 => 30
    case _ => 31
  }

  /** calcUltDia is right for every month but February of a century year that 400 does not divide. */
  lemma MonthLengths(mes: int, ano: int)
    requires 1 <= mes <= 12
    ensures CalcUltDia(mes, ano) == GregorianLength(mes, ano) <==> !(mes == 2 && ano % 100 == 0 && ano % 400 != 0)
  {}

  function GregorianYearDays(ano: nat): nat
  {
    if ano == 0 then 0 else GregorianYearDays(ano - 1) + if GregorianLeap(ano - 1) then 366 else 365
  }

  function GregorianMonthDays(mes: int, ano: int): nat
    requires 1 <= mes <= 13
    decreases mes
  {
    if mes == 1 then 0 else GregorianMonthDays(mes - 1, ano) + GregorianLength(mes - 1, ano)
  }

  predicate GregorianDate(d: Date)
  {
    1 <= d.mes <= 12 && 1 <= d.dia <= GregorianLength(d.mes, d.ano) && d.ano >= 0
  }

  function GregorianCount(d: Date): nat
    requires GregorianDate(d)
  {
    GregorianYearDays(d.ano) + GregorianMonthDays(d.mes, d.ano) + d.dia as nat
  }

  predicate Agreeing(ano: int) { 1901 <= ano <= 2099 }

  lemma {:induction false} SameMonths(mes: int, ano: int)
    requires 1 <= mes <= 13 && Agreeing(ano)
    ensures GregorianMonthDays(mes, ano) == MonthDays(mes, ano)
    decreases mes
  {
    if mes > 1 {
      MonthLengths(mes - 1, ano);
      SameMonths(mes - 1, ano);
    }
  }

  /** Between 1901 and 2100 both calendars count the same days from one new year to another. */
  lemma {:induction false} SameYears(a: nat, b: nat)
    requires 1901 <= a <= b <= 2100
    ensures GregorianYearDays(b) - GregorianYearDays(a) == YearDays(b) - YearDays(a)
    decreases b
  {
    if a < b {
      assert GregorianLeap(b - 1) <==> (b - 1) % 4 == 0;
      SameYears(a, b - 1);
    }
  }

  lemma SameDates(d: Date)
    requires Agreeing(d.ano)
    ensures GregorianDate(d) <==> ValidDate(d)
  {
    if 1 <= d.mes <= 12 { MonthLengths(d.mes, d.ano); }
  }

  /** In these years both calendars put a date the same number of days after the start of 1901. */
  lemma SameCounts(d: Date)
    requires Agreeing(d.ano) && ValidDate(d) && GregorianDate(d)
    ensures GregorianCount(d) - GregorianYearDays(1901) == DayCount(d) - YearDays(1901)
  {
    hide GregorianMonthDays, MonthDays;
    SameMonths(d.mes, d.ano);
    SameYears(1901, d.ano);
  }

  /** Where the two calendars part. */
  const PARTING: Date := Date(29, 2, 2100)

  lemma {:induction false} GregorianMonthsShort(mes: int, ano: int)
    requires 1 <= mes <= 13
    ensures GregorianMonthDays(mes, ano) <= MonthDays(mes, ano)
    ensures ano == 2100 ==> GregorianMonthDays(mes, ano) == MonthDays(mes, ano) - (if mes > 2 then 1 else 0)
    decreases mes
  {
    if mes > 1 {
      MonthLengths(mes - 1, ano);
      GregorianMonthsShort(mes - 1, ano);
    }
  }

  /** From 2101 on the Gregorian calendar is at least a day behind. */
  lemma {:induction false} GregorianYearsShort(b: nat)
    requires b >= 2101
    ensures GregorianYearDays(b) - GregorianYearDays(2100) < YearDays(b) - YearDays(2100)
  {
    if b == 2101 {
      assert !GregorianLeap(2100);
    } else {
      GregorianYearsShort(b - 1);
    }
  }

  /** From 1901 on, a date counts the same in both calendars exactly when it lies before the parting. */
  lemma SameCountsUntil(d: Date)
    requires d.ano >= 1901 && ValidDate(d) && GregorianDate(d)
    ensures GregorianCount(d) - GregorianYearDays(1901) == DayCount(d) - YearDays(1901) <==> Earlier(d, PARTING)
  {
    hide GregorianMonthDays, MonthDays, GregorianYearDays, YearDays;
    GregorianMonthsShort(d.mes, d.ano);
    if d.ano <= 2099 {
      SameCounts(d);
    } else {
      SameYears(1901, 2100);
      if d.ano > 2100 { GregorianYearsShort(d.ano); }
    }
  }

  lemma ValidUntil(d: Date)
    requires d.ano >= 1901 && ValidDate(d) && Earlier(d, PARTING)
    ensures GregorianDate(d)
  {
    MonthLengths(d.mes, d.ano);
  }

  lemma PlusNotEarlier(d: Date, n: nat)
    requires ValidDate(d)
    ensures Plus(d, n).ano >= d.ano
  {
    PlusCounts(d, n);
    CountOrders(Plus(d, n), d);
  }

  /** From a date of these years, an addition lands on the Gregorian date exactly when it stays before the parting. */
  lemma PlusIsGregorian(d: Date, n: nat)
    requires ValidDate(d) && Agreeing(d.ano)
    ensures GregorianDate(d)
    ensures GregorianDate(Plus(d, n)) && GregorianCount(Plus(d, n)) == GregorianCount(d) + n
            <==> Earlier(Plus(d, n), PARTING)
  {
    hide GregorianCount, DayCount;
    PlusCounts(d, n);
    PlusNotEarlier(d, n);
    SameDates(d);
    SameCounts(d);
    var p := Plus(d, n);
    if Earlier(p, PARTING) { ValidUntil(p); }
    if GregorianDate(p) { SameCountsUntil(p); }
  }

  /** So it does exactly when fewer days are added than there are up to the parting. */
  lemma PlusStaysGregorian(d: Date, n: nat)
    requires ValidDate(d) && Agreeing(d.ano)
    ensures GregorianDate(d) && ValidDate(PARTING)
    ensures GregorianDate(Plus(d, n)) && GregorianCount(Plus(d, n)) == GregorianCount(d) + n
            <==> DayCount(d) + n < DayCount(PARTING)
  {
    hide GregorianCount, DayCount;
    PlusIsGregorian(d, n);
    PlusCounts(d, n);
    CountOrders(Plus(d, n), PARTING);
  }

  /** 2100 is where it ends: the day after its 28 February is a day that year does not have. */
  lemma NotIn2100()
    ensures Plus(Date(28, 2, 2100), 1) == Date(29, 2, 2100)
    ensures ValidDate(Date(29, 2, 2100)) && !GregorianDate(Date(29, 2, 2100))
  {}

  // ---- the text form ----------------------------------------------------------------------------

  const SLASH: byte := 0x2F

  /** dateToInteger */
  function DateOf(data: Text): Date
    requires |data| >= 10
  {
    Date(Atoi(data[0..2]), Atoi(data[3..5]), Atoi(data[6..10]))
  }

  /** What integerToDate writes. */
  function DateText(d: Date): (t: Text)
    ensures |t| == 10
  {
    ItoaText(Unsigned(d.dia), 2) + [SLASH] + ItoaText(Unsigned(d.mes), 2) + [SLASH] + ItoaText(Unsigned(d.ano), 4)
  }

  lemma Pow10Parts()
    ensures Pow10(2) == 100 && Pow10(4) == 10_000
  {
    assert Pow10(4) == 100 * Pow10(2);
  }

  lemma PartBack(v: int, n: nat)
    requires n <= 4 && 0 <= v < Pow10(n)
    ensures Atoi(ItoaText(Unsigned(v), n)) == v
  {
    Pow10Parts();
    Pow10Grows(n, 4);
    AtoiValue(ItoaText(v, n));
    ItoaValue(v, n);
  }

  /** dd/mm/aaaa: day, month and year in digits, with slashes between. */
  lemma DateDigits(d: Date)
    requires ValidDate(d) && d.ano < 10_000
    ensures var t := DateText(d);
            && AllDigits(t[..2]) && Value(t[..2]) == d.dia && t[2] == 0x2F
            && AllDigits(t[3..5]) && Value(t[3..5]) == d.mes && t[5] == 0x2F
            && AllDigits(t[6..]) && Value(t[6..]) == d.ano
  {
    hide ItoaText, Unsigned, Value;
    Pow10Parts();
    ItoaValue(d.dia, 2);
    ItoaValue(d.mes, 2);
    ItoaValue(d.ano, 4);
    var t := DateText(d);
    assert t[..2] == ItoaText(Unsigned(d.dia), 2);
    assert t[3..5] == ItoaText(Unsigned(d.mes), 2);
    assert t[6..] == ItoaText(Unsigned(d.ano), 4);
  }

  /** A date with a four-digit year reads back as itself. */
  lemma DateBack(d: Date)
    requires ValidDate(d) && d.ano < 10_000
    ensures DateOf(DateText(d)) == d
  {
    hide Atoi, ItoaText, Unsigned;
    Pow10Parts();
    PartBack(d.dia, 2);
    PartBack(d.mes, 2);
    PartBack(d.ano, 4);
    var t := DateText(d);
    assert t[0..2] == ItoaText(Unsigned(d.dia), 2);
    assert t[3..5] == ItoaText(Unsigned(d.mes), 2);
    assert t[6..10] == ItoaText(Unsigned(d.ano), 4);
  }

  /** dd/mm/aaaa in digits. */
  predicate DateShaped(t: Text)
  {
    |t| == 10 && AllDigits(t[0..2]) && t[2] == SLASH && AllDigits(t[3..5]) && t[5] == SLASH && AllDigits(t[6..10])
  }

  lemma PartAgain(t: Text)
    requires AllDigits(t) && |t| <= 4
    ensures Atoi(t) >= 0 && ItoaText(Unsigned(Atoi(t)), |t|) == t
  {
    AtoiValue(t);
    ValueBound(t);
    DecimalValue(t);
    Pow10Parts();
    Pow10Grows(|t|, 4);
  }

  lemma TextBack(t: Text)
    requires DateShaped(t)
    ensures DateText(DateOf(t)) == t
  {
    PartAgain(t[0..2]);
    PartAgain(t[3..5]);
    PartAgain(t[6..10]);
    assert t == t[0..2] + [SLASH] + t[3..5] + [SLASH] + t[6..10];
  }

  /** The variables that distancia1 is given pointers to. */
  class Walk {
    var dia: int
    var mes: int
    var ano: int
    var ndias: int

    function Current(): Date
      reads this
    {
      Date(dia, mes, ano)
    }

    constructor (d: Date, dias: nat)
      ensures Current() == d && ndias == dias
    {
      dia, mes, ano, ndias := d.dia, d.mes, d.ano, dias;
    }

    /** distancia1: to the first of the next month, or to the day wanted. */
    method Distancia1() returns (left: int)
      requires ValidDate(Current()) && ndias >= 0
      modifies this
      ensures ValidDate(Current()) && left == ndias >= 0
      ensures left < old(ndias) || left == 0
      ensures Plus(Current(), ndias) == old(Plus(Current(), ndias))
      ensures left == 0 ==> Current() == old(Plus(Current(), ndias))
    {
      var ud := CalcUltDia(mes, ano);
      var distancia := ud - dia;
      if ndias > distancia {
        NextCount(Current());
        dia := 1;
        mes := mes + 1;
        if mes > 12 {
          mes := 1;
          ano := ano + 1;
        }
        ndias := ndias - distancia - 1;
      } else {
        dia := dia + ndias;
        ndias := 0;
      }
      return ndias;
    }
  }

  /** integerToDate */
  method IntegerToDate(d: Date, dataFim: array<byte>)
    requires dataFim.Length >= 10
    modifies dataFim
    ensures dataFim[..10] == DateText(d) && dataFim[10..] == old(dataFim[10..])
  {
    hide ItoaText, Unsigned;
    ghost var dd, mm, aaaa := ItoaText(Unsigned(d.dia), 2), ItoaText(Unsigned(d.mes), 2), ItoaText(Unsigned(d.ano), 4);
    Itoa(Unsigned(d.dia), dataFim, 0, 2);
    assert dataFim[0..2] == dd;
    Itoa(Unsigned(d.mes), dataFim, 3, 2);
    assert dataFim[0..2] == dd && dataFim[3..5] == mm;
    Itoa(Unsigned(d.ano), dataFim, 6, 4);
    assert dataFim[0..2] == dd && dataFim[3..5] == mm && dataFim[6..10] == aaaa;
    dataFim[2], dataFim[5] := SLASH, SLASH;
    DateCells(dataFim[..10], dd, mm, aaaa);
  }

  lemma DateCells(t: seq<byte>, dd: seq<byte>, mm: seq<byte>, aaaa: seq<byte>)
    requires |t| == 10 && |dd| == |mm| == 2 && |aaaa| == 4
    requires t[0..2] == dd && t[2] == SLASH && t[3..5] == mm && t[5] == SLASH && t[6..10] == aaaa
    ensures t == dd + [SLASH] + mm + [SLASH] + aaaa
  {
    assert t == t[0..2] + [t[2]] + t[3..5] + [t[5]] + t[6..10];
  }

  /** somaData: the loop over the months. */
  method SomaData(data: Text, dias: nat, dataFim: array<byte>)
    requires |data| >= 10 && ValidDate(DateOf(data)) && dataFim.Length >= 10
    modifies dataFim
    ensures dataFim[..10] == DateText(Plus(DateOf(data), dias))
    ensures dataFim[10..] == old(dataFim[10..])
  {
    var w := new Walk(DateOf(data), dias);
    var left := w.Distancia1();
    while left != 0
      modifies w
      invariant ValidDate(w.Current()) && left == w.ndias >= 0
      invariant Plus(w.Current(), w.ndias) == Plus(DateOf(data), dias)
      decreases left
    {
      left := w.Distancia1();
    }
    IntegerToDate(w.Current(), dataFim);
  }
}
