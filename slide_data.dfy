/**
  The parts of the story data the slides compute with: the contribution
  calendar, the daily commit series, the top languages and the top
  repositories' topics. Dates stay the strings the API returns; where a
  slide compares dates, it takes their timestamps as a parameter.
 */
module SlideData {

  /** One day of the contribution calendar: an ISO date and its contribution count. */
  datatype ContributionDay = ContributionDay(date: string, count: int)

  /** The contribution count of each calendar day, in calendar order. */
  function Counts(days: seq<ContributionDay>): (cs: seq<int>)
    ensures |cs| == |days| && forall i :: 0 <= i < |days| ==> cs[i] == days[i].count
  {
    seq(|days|, i requires 0 <= i < |days| => days[i].count)
  }

  /** One day of the commit series behind the velocity chart. */
  datatype DailyCommits = DailyCommits(date: string, commits: int)

  /** A language of the profile with its share of the code and its display colour. */
  datatype TopLanguage = TopLanguage(name: string, percentage: real, color: string)

  /** A highlighted repository; only its topics are read by the slides. */
  datatype TopRepo = TopRepo(name: string, topics: seq<string>)
}
