/** `calcAge` (app/page.tsx): the whole-year age shown next to each patient.
    Parsing the stored date string and reading the clock are outside the model:
    the parser is a function parameter and "now" is an already-split date. */
module Age {
  import opened Wrappers
  import Text

  /** A calendar date split into its local year, month and day of month.
      Only differences of months and of days are ever used, so months may count
      from 0 (as `getMonth` does) or from 1, provided the parser and "now" use
      the same base. */
  datatype CivilDate = CivilDate(year: int, month: int, day: int)

  /** The text shown when there is no usable birth date. */
  const Unknown: string := "-"
  /** The unit appended to the number of years. */
  const YearsSuffix: string := " anos"

  /** (a.month, a.day) comes strictly before (b.month, b.day) within a year. */
  predicate MonthDayBefore(a: CivilDate, b: CivilDate) {
    a.month < b.month || (a.month == b.month && a.day < b.day)
  }

  /** Chronological order on dates: by year, then by month and day. */
  predicate DateLe(a: CivilDate, b: CivilDate) {
    a.year < b.year || (a.year == b.year && !MonthDayBefore(b, a))
  }

  /** The date `k` years after `birth` (the k-th birthday). */
  function Anniversary(birth: CivilDate, k: int): CivilDate {
    birth.(year := birth.year + k)
  }

  /** Age in whole years: the year difference, less one while this year's
      birthday is still to come. Never decremented on the birthday itself. */
  function AgeInYears(birth: CivilDate, now: CivilDate): (age: int)
    ensures age == now.year - birth.year || age == now.year - birth.year - 1
    ensures age == now.year - birth.year - 1 <==> MonthDayBefore(now, birth)
    ensures now.month == birth.month && now.day == birth.day ==> age == now.year - birth.year
    ensures DateLe(birth, now) ==> age >= 0
  {
    var age := now.year - birth.year;
    var m := now.month - birth.month;
    if m < 0 || (m == 0 && now.day < birth.day) then age - 1 else age
  }

  /** The age is the number of birthdays already reached: the `age`-th birthday
      is on or before `now`, the next one is after it, and so for every `k`,
      the k-th birthday has been reached exactly when `k <= age`. */
  lemma AgeIsCompletedYears(birth: CivilDate, now: CivilDate, k: int)
    ensures DateLe(Anniversary(birth, AgeInYears(birth, now)), now)
    ensures !DateLe(Anniversary(birth, AgeInYears(birth, now) + 1), now)
    ensures DateLe(Anniversary(birth, k), now) <==> k <= AgeInYears(birth, now)
  {
  }

  /** Someone born exactly `k` years before today is `k` years old. */
  lemma ExactAnniversary(birth: CivilDate, k: int)
    ensures AgeInYears(birth, Anniversary(birth, k)) == k
  {
  }

  /** `calcAge(birthDateISO)`: "-" when the stored value is null or empty or
      does not parse to a date; otherwise the age followed by " anos". */
  function CalcAge(birthDateISO: Option<string>, parse: string -> Option<CivilDate>, now: CivilDate): (shown: string)
    ensures shown == Unknown <==>
      birthDateISO.None? || birthDateISO.value == "" || parse(birthDateISO.value).None?
    ensures AgeOfLabel(shown) ==
      if shown == Unknown then None else Some(AgeInYears(parse(birthDateISO.value).value, now))
  {
    if birthDateISO.None? || birthDateISO.value == "" then Unknown
    else match parse(birthDateISO.value)
      case None => Unknown
      case Some(d) =>
        var age := AgeInYears(d, now);
        AgeLabelReadsBack(age);
        Text.ShowInt(age) + YearsSuffix
  }

  /** Reads an age label back: the number before " anos", or nothing for any other text. */
  function AgeOfLabel(s: string): Option<int> {
    if |s| >= |YearsSuffix| && s[|s| - |YearsSuffix|..] == YearsSuffix
    then Text.ParseInt(s[..|s| - |YearsSuffix|])
    else None
  }

  /** Every age label reads back as its age, and none of them is the "-" marker. */
  lemma AgeLabelReadsBack(age: int)
    ensures AgeOfLabel(Text.ShowInt(age) + YearsSuffix) == Some(age)
    ensures Text.ShowInt(age) + YearsSuffix != Unknown
  {
    var shown := Text.ShowInt(age) + YearsSuffix;
    assert shown[..|shown| - |YearsSuffix|] == Text.ShowInt(age);
    assert shown[|shown| - |YearsSuffix|..] == YearsSuffix;
    Text.ParseShowInt(age);
  }

  /** AgeOfLabel accepts only the exact labels CalcAge writes: a text that reads
      back as `age` is `age` in canonical decimal followed by " anos". With
      CalcAge's contract this fixes the shown label exactly. */
  lemma AgeOfLabelOnlyExact(s: string, age: int)
    ensures AgeOfLabel(s) == Some(age) ==> s == Text.ShowInt(age) + YearsSuffix
  {
    if AgeOfLabel(s) == Some(age) {
      var digits := s[..|s| - |YearsSuffix|];
      Text.ParseIntOnlyCanonical(digits, age);
      assert s == digits + s[|s| - |YearsSuffix|..];
    }
  }
}
