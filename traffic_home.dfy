/**
 * The traffic remote's home page, as far as it computes what it shows: the "time ago"
 * text of a date, the stat cards with their fallbacks, and the commit and event rows.
 *
 * The clock and `new Date(...)` are not modelled: a date arrives as the number of
 * milliseconds elapsed between it and the clock read (`now.getTime() - date.getTime()`),
 * or as `InvalidDate` when the string does not parse and the difference is NaN.
 */
module TrafficHome {
  import opened Wrappers
  import opened Text
  import opened Records
  import opened TrafficService

  const MsPerMinute: int := 60000
  const MsPerHour: int := 3600000
  const MsPerDay: int := 86400000

  /** The elapsed milliseconds since a date, or the NaN of an unparsable date. */
  datatype Elapsed = Millis(ms: int) | InvalidDate

  /** The branch `formatTimeAgo` takes, with the number it shows. */
  datatype TimeAgo = MinutesAgo(n: int) | HoursAgo(n: int) | DaysAgo(n: int) | NaNDaysAgo

  // ---------------------------------------------------------------------------
  // formatTimeAgo
  // ---------------------------------------------------------------------------

  /** The three `Math.floor` divisions and the two thresholds. A NaN difference fails
      both comparisons and falls through to the days branch. A date in the future
      takes the minutes branch with a negative count. */
  function TimeAgoOf(e: Elapsed): (r: TimeAgo)
    ensures r.NaNDaysAgo? <==> e.InvalidDate?
    ensures e.Millis? ==> (r.MinutesAgo? <==> e.ms < MsPerHour)
    ensures e.Millis? ==> (r.HoursAgo? <==> MsPerHour <= e.ms < MsPerDay)
    ensures e.Millis? ==> (r.DaysAgo? <==> MsPerDay <= e.ms)
    ensures r.MinutesAgo? ==> r.n < 60 && r.n * MsPerMinute <= e.ms < (r.n + 1) * MsPerMinute
    ensures r.MinutesAgo? ==> (r.n < 0 <==> e.ms < 0)
    ensures r.HoursAgo? ==> 1 <= r.n < 24 && r.n * MsPerHour <= e.ms < (r.n + 1) * MsPerHour
    ensures r.DaysAgo? ==> 1 <= r.n && r.n * MsPerDay <= e.ms < (r.n + 1) * MsPerDay
  {
    match e
    case InvalidDate => NaNDaysAgo
    case Millis(ms) =>
      // Euclidean division by a positive divisor is `Math.floor` of the quotient.
      var mins := ms / MsPerMinute;
      var hours := ms / MsPerHour;
      var days := ms / MsPerDay;
      if mins < 60 then MinutesAgo(mins)
      else if hours < 24 then HoursAgo(hours)
      else DaysAgo(days)
  }

  /** The unit letter after the number. */
  function UnitLetter(t: TimeAgo): char {
    match t
    case MinutesAgo(_) => 'm'
    case HoursAgo(_) => 'h'
    case DaysAgo(_) => 'd'
    case NaNDaysAgo => 'd'
  }

  /** The template literals `${n}m ago`, `${n}h ago`, `${n}d ago`; NaN prints as "NaN". */
  function TimeAgoText(t: TimeAgo): (r: string)
    ensures |r| >= 6 && r[|r| - 5] == UnitLetter(t)
  {
    match t
    case NaNDaysAgo => NaNText
    case _ => CountText(t.n, UnitLetter(t))
  }

  const NaNText: string := "NaNd ago"

  /** A count, its unit letter and " ago". */
  function CountText(n: int, unit: char): (r: string)
    ensures |r| >= 6 && r[|r| - 5] == unit
  {
    var r := IntToString(n) + ([unit] + " ago");
    assert r[|r| - 5] == ([unit] + " ago")[0];
    r
  }

  function FormatTimeAgo(e: Elapsed): string {
    TimeAgoText(TimeAgoOf(e))
  }

  /** `parseInt` reads the count back from a count text. */
  lemma CountTextReadBack(n: int, unit: char)
    requires !IsDigit(unit)
    ensures ParseInt(CountText(n, unit)) == Some(n)
  {
    ParseIntOfNumberThen(n, [unit] + " ago");
  }

  /** Reading the number back: `parseInt` recovers the count from the text, and finds
      no number in the text of an invalid date. */
  lemma TimeAgoTextReadBack(t: TimeAgo)
    ensures t.NaNDaysAgo? ==> ParseInt(TimeAgoText(t)) == None
    ensures !t.NaNDaysAgo? ==> ParseInt(TimeAgoText(t)) == Some(t.n)
  {
    if t.NaNDaysAgo? {
      assert !IsDigit(NaNText[0]) && NaNText[0] !in "+-";
      TrimStartOfNonSpace(NaNText);
    } else {
      CountTextReadBack(t.n, UnitLetter(t));
    }
  }

  /** Different branches or counts never print the same text. */
  lemma TimeAgoTextInjective(t1: TimeAgo, t2: TimeAgo)
    ensures TimeAgoText(t1) == TimeAgoText(t2) <==> t1 == t2
  {
    TimeAgoTextReadBack(t1);
    TimeAgoTextReadBack(t2);
    if TimeAgoText(t1) == TimeAgoText(t2) {
      assert UnitLetter(t1) == UnitLetter(t2);
    }
  }

  /** Within the same unit, a later reading never shows a smaller count. */
  lemma TimeAgoMonotone(a: int, b: int)
    requires a <= b
    requires TimeAgoOf(Millis(a)).MinutesAgo? == TimeAgoOf(Millis(b)).MinutesAgo?
    requires TimeAgoOf(Millis(a)).HoursAgo? == TimeAgoOf(Millis(b)).HoursAgo?
    ensures TimeAgoOf(Millis(a)).n <= TimeAgoOf(Millis(b)).n
  {
    var ta, tb := TimeAgoOf(Millis(a)), TimeAgoOf(Millis(b));
    if ta.MinutesAgo? {
      assert ta.n * MsPerMinute <= b < (tb.n + 1) * MsPerMinute;
    } else if ta.HoursAgo? {
      assert ta.n * MsPerHour <= b < (tb.n + 1) * MsPerHour;
    } else {
      assert ta.n * MsPerDay <= b < (tb.n + 1) * MsPerDay;
    }
  }

  // ---------------------------------------------------------------------------
  // Stat cards
  // ---------------------------------------------------------------------------

  /** The four stat cards' figures. */
  datatype StatCards = StatCards(commits: nat, events: nat, contributors: nat, lastActivity: string)

  /** `trafficStats?.x || 0` for the three counts, and the last-activity card: the time
      ago of a non-empty `lastActivity`, otherwise "N/A". `lastElapsed` is the elapsed
      time of `lastActivity`. */
  function StatCardsOf(stats: Option<TrafficStats>, lastElapsed: Elapsed): (r: StatCards)
    ensures stats.None? ==> r == StatCards(0, 0, 0, "N/A")
    ensures stats.Some? ==> r.commits == stats.value.totalCommits &&
                            r.events == stats.value.totalEvents &&
                            r.contributors == stats.value.uniqueContributors
    ensures stats.Some? && stats.value.lastActivity != "" ==>
              r.lastActivity == FormatTimeAgo(lastElapsed)
    ensures stats.Some? && stats.value.lastActivity == "" ==> r.lastActivity == "N/A"
  {
    match stats
    case None => StatCards(0, 0, 0, "N/A")
    case Some(s) =>
      StatCards(s.totalCommits, s.totalEvents, s.uniqueContributors,
                if s.lastActivity != "" then FormatTimeAgo(lastElapsed) else "N/A")
  }

  /** Once the statistics are fetched, the cards show the list sizes and the number of
      distinct linked authors, and the last-activity card always shows a time ago,
      never "N/A", because the fallback clock string is never empty. */
  lemma CardsOfFetchedStats(commits: seq<Commit>, events: seq<Event>, now: string, e: Elapsed)
    requires now != ""
    ensures StatCardsOf(Some(TrafficStatsOf(commits, events, now)), e).commits == |commits|
    ensures StatCardsOf(Some(TrafficStatsOf(commits, events, now)), e).events == |events|
    ensures StatCardsOf(Some(TrafficStatsOf(commits, events, now)), e).contributors
            == |Logins(commits)|
    ensures StatCardsOf(Some(TrafficStatsOf(commits, events, now)), e).lastActivity
            == FormatTimeAgo(e)
    ensures StatCardsOf(Some(TrafficStatsOf(commits, events, now)), e).lastActivity != "N/A"
  {
    assert |FormatTimeAgo(e)| >= 6;
  }

  // ---------------------------------------------------------------------------
  // Commit and event rows
  // ---------------------------------------------------------------------------

  /** `commit.sha.slice(0, 7)`. */
  function ShortSha(sha: string): (r: string)
    ensures |r| == if |sha| < 7 then |sha| else 7
    ensures r == sha[..|r|]
  {
    var r := Take(sha, 7);
    assert r == sha[..|r|];
    r
  }

  /** `commit.author?.login || commit.commit.author.name`: the linked login unless it is
      missing or empty. */
  function DisplayAuthor(c: Commit): (r: string)
    ensures c.author.Some? && c.author.value.login != "" ==> r == c.author.value.login
    ensures c.author.None? || c.author.value.login == "" ==> r == c.gitAuthor.name
  {
    match c.author
    case Some(a) => if a.login != "" then a.login else c.gitAuthor.name
    case None => c.gitAuthor.name
  }

  /** One commit row: the message's first line, the author, the time ago and the
      short sha; `ago` is the elapsed time of the commit's date. */
  datatype CommitRow = CommitRow(title: string, author: string, timeAgo: string, sha: string,
                                 href: string)

  function CommitRowOf(c: Commit, ago: Elapsed): (r: CommitRow)
    ensures '\n' !in r.title && |r.title| <= |c.message| && r.title == c.message[..|r.title|]
    ensures |r.title| < |c.message| ==> c.message[|r.title|] == '\n'
    ensures r.author == DisplayAuthor(c) && r.timeAgo == FormatTimeAgo(ago)
    ensures |r.sha| <= 7 && |r.sha| <= |c.sha| && r.sha == c.sha[..|r.sha|]
    ensures r.href == c.htmlUrl
  {
    CommitRow(FirstLine(c.message), DisplayAuthor(c), FormatTimeAgo(ago), ShortSha(c.sha), c.htmlUrl)
  }

  /** A commit whose message is a header line followed by a body shows the header. */
  lemma CommitTitleIsHeader(c: Commit, ago: Elapsed, header: string, body: string)
    requires '\n' !in header
    requires c.message == header + "\n" + body
    ensures CommitRowOf(c, ago).title == header
  {
    FirstLineOfLines(header, body);
  }

  /** `event.payload.action || "performed"`. */
  function EventAction(e: Event): (r: string)
    ensures r != ""
    ensures e.action.Some? && e.action.value != "" ==> r == e.action.value
    ensures e.action.None? || e.action.value == "" ==> r == "performed"
  {
    match e.action
    case Some(a) => if a != "" then a else "performed"
    case None => "performed"
  }

  /** One event row: the badge class and label of the type, the time ago, the actor,
      the action and the repository. */
  datatype EventRow = EventRow(badgeClass: string, badge: string, timeAgo: string, actor: string,
                               action: string, repo: string)

  function EventRowOf(e: Event, ago: Elapsed): (r: EventRow)
    ensures r.badgeClass == EventColorClass(e.eventType) && r.badge == FormatEventType(e.eventType)
    ensures r.timeAgo == FormatTimeAgo(ago)
    ensures r.actor == e.actor.login && r.repo == e.repoName
    ensures r.action != "" && (e.action.Some? && e.action.value != "" ==> r.action == e.action.value)
  {
    EventRow(EventColorClass(e.eventType), FormatEventType(e.eventType), FormatTimeAgo(ago),
             e.actor.login, EventAction(e), e.repoName)
  }

  /** An event of an unlisted, unlabelled type still gets a badge: the default class,
      and its type without the first "Event". */
  lemma UnlistedEventBadge(e: Event, ago: Elapsed)
    requires !HasKey(EventLabels, e.eventType) && !HasKey(EventColors, e.eventType)
    ensures EventRowOf(e, ago).badgeClass == DefaultColor
    ensures EventRowOf(e, ago).badge == ReplaceFirst(e.eventType, "Event", "")
  {
    ColorUnlistedEvent(e.eventType);
    GetMissing(EventLabels, e.eventType, ReplaceFirst(e.eventType, "Event", ""));
  }
}
