/**
 * The cours-id codec of main.ts: a (year, season) pair is packed into one
 * integer key by `yearSeson2Cours`, and the keys the service knows about
 * run from `coursidMin` to `coursidMax`.
 */
module CoursId {

  /** Smallest cours id the cache walks over. */
  const CoursIdMin: int := 1
  /** Largest cours id the cache walks over: the last season of 2039. */
  const CoursIdMax: int := 104
  /** The year whose first season has id 1. */
  const EpochYear: int := 2014
  /** Seasons (cours) per year. */
  const SeasonsPerYear: int := 4
  /** The last year whose seasons fall inside [CoursIdMin, CoursIdMax]. */
  const HorizonYear: int := 2039

  predicate IsSeason(season: int) {
    1 <= season <= SeasonsPerYear
  }

  predicate InCoursIdRange(id: int) {
    CoursIdMin <= id <= CoursIdMax
  }

  /**
   * `yearSeson2Cours`: total on all integers, no validation of either
   * argument (its caller passes the parsed route parameters unchecked).
   * For a proper season the pair can be read back from the id: the year
   * from its quotient by the stride, the season from its remainder.
   */
  function YearSeason2Cours(year: int, season: int): (id: int)
    ensures IsSeason(season) ==> EpochYear + (id - CoursIdMin) / SeasonsPerYear == year
    ensures IsSeason(season) ==> (id - CoursIdMin) % SeasonsPerYear + 1 == season
  {
    (year - EpochYear) * SeasonsPerYear + season
  }

  /** The first season of the epoch year and the last season of the horizon year are the range ends. */
  lemma RangeEnds()
    ensures YearSeason2Cours(EpochYear, 1) == CoursIdMin
    ensures YearSeason2Cours(HorizonYear, SeasonsPerYear) == CoursIdMax
  {
  }

  /** Within a year the seasons are consecutive ids, and season 4 is followed by season 1 of the next year. */
  lemma Dense(year: int, season: int)
    ensures YearSeason2Cours(year, season + 1) == YearSeason2Cours(year, season) + 1
    ensures YearSeason2Cours(year + 1, 1) == YearSeason2Cours(year, SeasonsPerYear) + 1
  {
  }

  /** Moving one year later moves every season exactly one stride later. */
  lemma YearStride(year: int, season: int)
    ensures YearSeason2Cours(year + 1, season) == YearSeason2Cours(year, season) + SeasonsPerYear
  {
  }

  /**
   * For proper seasons, the ids are ordered exactly as the (year, season)
   * pairs are ordered lexicographically.
   */
  lemma OrderIsLexicographic(y1: int, s1: int, y2: int, s2: int)
    requires IsSeason(s1) && IsSeason(s2)
    ensures YearSeason2Cours(y1, s1) < YearSeason2Cours(y2, s2) <==> y1 < y2 || (y1 == y2 && s1 < s2)
  {
  }

  /** For proper seasons the encoding is injective. */
  lemma Injective(y1: int, s1: int, y2: int, s2: int)
    requires IsSeason(s1) && IsSeason(s2)
    ensures YearSeason2Cours(y1, s1) == YearSeason2Cours(y2, s2) <==> y1 == y2 && s1 == s2
  {
  }

  /** A proper season lands in [CoursIdMin, CoursIdMax] exactly when its year is 2014..2039. */
  lemma InRangeIffHorizon(year: int, season: int)
    requires IsSeason(season)
    ensures InCoursIdRange(YearSeason2Cours(year, season)) <==> EpochYear <= year <= HorizonYear
  {
  }

  /** Every id in [CoursIdMin, CoursIdMax] is the code of some season of 2014..2039. */
  lemma {:induction false} Onto(id: int)
    requires InCoursIdRange(id)
    ensures exists year, season :: EpochYear <= year <= HorizonYear && IsSeason(season) && YearSeason2Cours(year, season) == id
  {
    var year := EpochYear + (id - 1) / SeasonsPerYear;
    var season := (id - 1) % SeasonsPerYear + 1;
    assert YearSeason2Cours(year, season) == id;
  }

  /**
   * Without validation, an out-of-range season silently aliases another
   * (year, season): season 5 of a year is season 1 of the next, and
   * season 0 is season 4 of the previous.
   */
  lemma UncheckedSeasonAliases(year: int)
    ensures YearSeason2Cours(year, SeasonsPerYear + 1) == YearSeason2Cours(year + 1, 1)
    ensures YearSeason2Cours(year, 0) == YearSeason2Cours(year - 1, SeasonsPerYear)
  {
  }
}
