/** The documents section of the creation form: the dates of the
    certificates, checked against rolling windows of calendar months ending
    today, and the ordered list of violations that decides whether the
    form may be saved; and the years offered for the technical review. */
module Documentacion {
  import opened Wrappers
  import opened Dates
  import opened Text
  import opened CertStore
  import opened Requisitos

  /** The form's document inputs. A date or file is `None` while empty. */
  datatype DocState = DocState(
    propFile: Option<FileRef>,
    resBonificacionFile: Option<FileRef>,
    certBonificacionDate: Option<Date>,
    certBonificaFile: Option<FileRef>,
    revTecDate: Option<Date>,
    revTecText: string,
    revTecFile: Option<FileRef>,
    SanipesDate: Option<Date>,
    SanipesText: string,
    sanipesFile: Option<FileRef>,
    termokingDate: Option<Date>,
    termokingFile: Option<FileRef>,
    limpiezaDate: Option<Date>,
    limpiezaFile: Option<FileRef>,
    fumigacionDate: Option<Date>,
    fumigacionFile: Option<FileRef>)

  /** Every input empty, as the form starts and as a reset leaves it. */
  const EmptyDoc: DocState :=
    DocState(None, None, None, None, None, "", None, None, "", None, None, None, None, None, None, None)

  /** `toDateOrNull`: an empty value and a date that is not a real calendar
      day (`NaN`) are both null. */
  function ToDateOrNull(v: Option<Date>): (r: Option<Date>)
    ensures r.Some? <==> v.Some? && ValidDate(v.value)
    ensures r.Some? ==> r == v
  {
    if v.Some? && ValidDate(v.value) then v else None
  }

  /** `isWithinLastMonths(d, n)`: `d` is present and not before today minus
      `n` calendar months. */
  predicate IsWithinLastMonths(d: Option<Date>, n: nat, today: Date)
    requires ValidDate(today)
  {
    d.Some? && ValidDate(d.value) && !Before(d.value, MonthsAgo(today, n))
  }

  datatype Violation = Fumigacion | RevisionTecnica | Termoking | Limpieza

  /** The message shown for each violation. */
  function Message(v: Violation): string {
    match v
    case Fumigacion => "Fumigación: la fecha de emisión no puede superar 6 meses."
    case RevisionTecnica => "Revisión técnica: la fecha de vencimiento debe estar vigente."
    case Termoking => "Termoking: la fecha de emisión no puede tener una antigüedad mayor a 6 meses."
    case Limpieza => "Limpieza y desinfección: la fecha de emisión no puede superar 1 mes."
  }

  /** The position of each violation in the fixed order of the checks. */
  function Rank(v: Violation): nat {
    match v
    case Fumigacion => 0
    case RevisionTecnica => 1
    case Termoking => 2
    case Limpieza => 3
  }

  /** A present date that is older than the window. */
  predicate Stale(d: Option<Date>, n: nat, today: Date)
    requires ValidDate(today)
  {
    var x := ToDateOrNull(d);
    x.Some? && !IsWithinLastMonths(x, n, today)
  }

  /** A present date strictly before today. */
  predicate Expired(d: Option<Date>, today: Date) {
    var x := ToDateOrNull(d);
    x.Some? && Before(x.value, today)
  }

  /** The four checks, each giving its violation or nothing. */
  function FumigacionCheck(doc: DocState, show: ShowFlags, today: Date): seq<Violation>
    requires ValidDate(today)
  {
    if show.fumigacion && Stale(doc.fumigacionDate, 6, today) then [Fumigacion] else []
  }

  function RevisionTecnicaCheck(doc: DocState, today: Date): seq<Violation> {
    if Expired(doc.revTecDate, today) then [RevisionTecnica] else []
  }

  function TermokingCheck(doc: DocState, show: ShowFlags, today: Date): seq<Violation>
    requires ValidDate(today)
  {
    if show.termoking && Stale(doc.termokingDate, 6, today) then [Termoking] else []
  }

  function LimpiezaCheck(doc: DocState, show: ShowFlags, today: Date): seq<Violation>
    requires ValidDate(today)
  {
    if show.limpieza && Stale(doc.limpiezaDate, 1, today) then [Limpieza] else []
  }

  /** The violations the validation effect finds, in the order it checks
      them: fumigación (6 months, when required), technical review (expired
      before today, always checked), termoking (6 months, when required),
      limpieza (1 month, when required). */
  function Violations(doc: DocState, show: ShowFlags, today: Date): seq<Violation>
    requires ValidDate(today)
  {
    FumigacionCheck(doc, show, today) + RevisionTecnicaCheck(doc, today)
    + TermokingCheck(doc, show, today) + LimpiezaCheck(doc, show, today)
  }

  function Messages(vs: seq<Violation>): (r: seq<string>)
    ensures |r| == |vs| && forall i :: 0 <= i < |vs| ==> r[i] == Message(vs[i])
  {
    seq(|vs|, i requires 0 <= i < |vs| => Message(vs[i]))
  }

  /** The violations come in the fixed order of the checks, each at most
      once, so there are at most four. */
  lemma ViolationsOrdered(doc: DocState, show: ShowFlags, today: Date)
    requires ValidDate(today)
    ensures var vs := Violations(doc, show, today);
      && |vs| <= 4
      && (forall i, j :: 0 <= i < j < |vs| ==> Rank(vs[i]) < Rank(vs[j]))
  {
  }

  /** Each violation is reported exactly when its check fails. */
  lemma ViolationsExact(doc: DocState, show: ShowFlags, today: Date)
    requires ValidDate(today)
    ensures var vs := Violations(doc, show, today);
      var f, r, t, l := doc.fumigacionDate, doc.revTecDate, doc.termokingDate, doc.limpiezaDate;
      && (Fumigacion in vs <==>
            show.fumigacion && f.Some? && ValidDate(f.value) && Before(f.value, MonthsAgo(today, 6)))
      && (RevisionTecnica in vs <==> r.Some? && ValidDate(r.value) && Before(r.value, today))
      && (Termoking in vs <==>
            show.termoking && t.Some? && ValidDate(t.value) && Before(t.value, MonthsAgo(today, 6)))
      && (Limpieza in vs <==>
            show.limpieza && l.Some? && ValidDate(l.value) && Before(l.value, MonthsAgo(today, 1)))
  {
  }

  /** Empty or unreadable dates never produce a violation. */
  lemma AbsentDatesPass(doc: DocState, show: ShowFlags, today: Date)
    requires ValidDate(today)
    requires ToDateOrNull(doc.fumigacionDate).None? && ToDateOrNull(doc.revTecDate).None?
    requires ToDateOrNull(doc.termokingDate).None? && ToDateOrNull(doc.limpiezaDate).None?
    ensures Violations(doc, show, today) == []
  {
  }

  /** With a check switched off, its date is irrelevant: each of the
      three conditional checks on its own. */
  lemma HiddenChecksIgnoreTheirDates(doc: DocState, show: ShowFlags, today: Date, d: Option<Date>)
    requires ValidDate(today)
    ensures !show.fumigacion ==>
      Violations(doc.(fumigacionDate := d), show, today) == Violations(doc, show, today)
    ensures !show.termoking ==>
      Violations(doc.(termokingDate := d), show, today) == Violations(doc, show, today)
    ensures !show.limpieza ==>
      Violations(doc.(limpiezaDate := d), show, today) == Violations(doc, show, today)
  {
  }

  /** A date exactly `n` months back is inside the window; the day before
      it is outside. */
  lemma WindowBoundary(today: Date, n: nat)
    requires ValidDate(today)
    ensures IsWithinLastMonths(Some(MonthsAgo(today, n)), n, today)
    ensures !IsWithinLastMonths(Some(PrevDay(MonthsAgo(today, n))), n, today)
  {
    var m := MonthsAgo(today, n);
    PrevDayIsPrevious(m, m);
  }

  /** The technical review dated today is valid; one dated yesterday is
      expired. */
  lemma RevisionTecnicaBoundary(today: Date)
    requires ValidDate(today)
    ensures !Expired(Some(today), today)
    ensures Expired(Some(PrevDay(today)), today)
  {
    PrevDayIsPrevious(today, today);
  }

  /** A longer window accepts every date a shorter one does. */
  lemma WindowMonotone(d: Option<Date>, n: nat, m: nat, today: Date)
    requires ValidDate(today) && n <= m
    requires IsWithinLastMonths(d, n, today)
    ensures IsWithinLastMonths(d, m, today)
  {
    if n < m {
      MonthsAgoStrictlyDecreasing(today, n, m);
      if Before(d.value, MonthsAgo(today, m)) {
        BeforeTransitive(d.value, MonthsAgo(today, m), MonthsAgo(today, n));
      }
    }
  }

  /** `setMonth` lets a day that does not exist in the target month run
      over into the next: on 31 March 2025 the one-month window starts on
      3 March, so a limpieza certificate of 2 March is already stale. */
  lemma OneMonthBackFromMarch31()
    ensures MonthsAgo(Date(2025, 3, 31), 1) == Date(2025, 3, 3)
    ensures Stale(Some(Date(2025, 3, 2)), 1, Date(2025, 3, 31))
  {
    var t := MonthIndex(Date(2025, 3, 31)) - 1;
    assert t == 2025 * 12 + 1;
    assert t / 12 == 2025 && t % 12 + 1 == 2;
    assert DaysInMonthAt(t) == 28;
    assert (t + 1) / 12 == 2025 && (t + 1) % 12 + 1 == 3;
  }

  // ---------------------------------------------------------------------------
  // The validation effect
  // ---------------------------------------------------------------------------

  /** A call of `onValidityChange(ok, errors)`. */
  datatype Report = Report(ok: bool, errors: seq<string>)

  /** The section's error state and the reports it has made to the form. */
  class DocumentacionSection {
    var errors: seq<string>
    var reported: seq<Report>

    constructor ()
      ensures errors == [] && reported == []
    {
      errors := [];
      reported := [];
    }

    /** The validation effect: the messages of the failed checks, in order,
        become the section's errors and are reported to the form with `ok`
        exactly when no check failed. */
    method Validate(doc: DocState, show: ShowFlags, today: Date)
      requires ValidDate(today)
      modifies this
      ensures errors == Messages(Violations(doc, show, today))
      ensures reported == old(reported) + [Report(errors == [], errors)]
      ensures errors == [] <==> Violations(doc, show, today) == []
    {
      var e := Messages(Violations(doc, show, today));
      errors := e;
      reported := reported + [Report(e == [], e)];
    }
  }

  // ---------------------------------------------------------------------------
  // Years of the technical review
  // ---------------------------------------------------------------------------

  datatype YearOption = YearOption(key: string, text: string)

  /** `Array.from({ length: currentYear - 1979 }, (_, i) => 1980 + i)`; a
      negative length gives no years. */
  function YearsAscending(currentYear: int): (r: seq<int>)
    ensures |r| == if currentYear < 1980 then 0 else currentYear - 1979
    ensures forall i :: 0 <= i < |r| ==> r[i] == 1980 + i
  {
    var n := if currentYear < 1980 then 0 else currentYear - 1979;
    seq(n, i requires 0 <= i < n => 1980 + i)
  }

  function Reverse(s: seq<int>): (r: seq<int>)
    ensures |r| == |s| && forall i :: 0 <= i < |s| ==> r[i] == s[|s| - 1 - i]
  {
    seq(|s|, i requires 0 <= i < |s| => s[|s| - 1 - i])
  }

  /** `yearOptions`: the years as options, newest first. */
  function YearOptions(currentYear: int): seq<YearOption> {
    var ys := Reverse(YearsAscending(currentYear));
    seq(|ys|, i requires 0 <= i < |ys| => YearOption(DecimalString(ys[i]), DecimalString(ys[i])))
  }

  /** The options run from the current year down to 1980, one per year,
      key and text alike. */
  lemma YearOptionsNewestFirst(currentYear: int)
    ensures var os := YearOptions(currentYear);
      && |os| == (if currentYear < 1980 then 0 else currentYear - 1979)
      && (forall i :: 0 <= i < |os| ==> os[i].key == os[i].text == DecimalString(currentYear - i))
      && (forall y :: 1980 <= y <= currentYear ==> YearOption(DecimalString(y), DecimalString(y)) in os)
  {
    var os := YearOptions(currentYear);
    forall y | 1980 <= y <= currentYear
      ensures YearOption(DecimalString(y), DecimalString(y)) in os
    {
      assert os[currentYear - y].key == DecimalString(y);
    }
  }
}
