/** The Gregorian calendar as days counted from 1 January 2000. */
module Calendar {

  predicate IsLeap(y: int) {
    y % 4 == 0 && (y % 100 != 0 || y % 400 == 0)
  }

  function DaysInYear(y: int): int {
    if IsLeap(y) then 366 else 365
  }

  /** Days from 1 January 2000 to 1 January of year y. */
  function DaysBefore(y: int): int
    decreases if y >= 2000 then y - 2000 else 2000 - y
  {
    if y == 2000 then 0
    else if y > 2000 then DaysBefore(y - 1) + DaysInYear(y - 1)
    else DaysBefore(y + 1) - DaysInYear(y)
  }

  /** The year of the day `day`, searched for from year y on. */
  function YearFrom(y: int, day: int): int
    requires y >= 2000 && DaysBefore(y) <= day
    decreases day - DaysBefore(y)
  {
    if day < DaysBefore(y) + DaysInYear(y) then y else YearFrom(y + 1, day)
  }

  function YearBackFrom(y: int, day: int): int
    requires y <= 2000 && day < DaysBefore(y)
    decreases DaysBefore(y) - day
  {
    if DaysBefore(y - 1) <= day then y - 1 else YearBackFrom(y - 1, day)
  }

  function YearOf(day: int): int {
    if day >= 0 then YearFrom(2000, day) else YearBackFrom(2000, day)
  }

  lemma {:induction false} YearFromIsYear(y: int, day: int)
    requires y >= 2000 && DaysBefore(y) <= day
    ensures var r := YearFrom(y, day); r >= y && DaysBefore(r) <= day < DaysBefore(r + 1)
    decreases day - DaysBefore(y)
  {
    if day >= DaysBefore(y) + DaysInYear(y) {
      YearFromIsYear(y + 1, day);
    }
  }

  lemma {:induction false} YearBackFromIsEarlier(y: int, day: int)
    requires y <= 2000 && day < DaysBefore(y)
    ensures YearBackFrom(y, day) < y
    decreases DaysBefore(y) - day
  {
    if day < DaysBefore(y - 1) {
      YearBackFromIsEarlier(y - 1, day);
    }
  }

  lemma {:induction false} DaysBeforeGrows(y: int, z: int)
    requires 2000 <= y <= z
    ensures DaysBefore(y) + 365 * (z - y) <= DaysBefore(z)
    decreases z
  {
    if y < z {
      DaysBeforeGrows(y, z - 1);
    }
  }

  /** The year of a day is the one year whose first day is not after it and whose last is not before. */
  lemma YearOfIsUnique(day: int, y: int)
    requires day >= 0 && y >= 2000
    ensures YearOf(day) == y <==> DaysBefore(y) <= day < DaysBefore(y + 1)
  {
    YearFromIsYear(2000, day);
    var r := YearOf(day);
    if r < y {
      DaysBeforeGrows(r + 1, y);
    } else if y < r {
      DaysBeforeGrows(y + 1, r);
    }
  }
}
