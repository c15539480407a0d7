/**
 * The traffic remote's GitHub service: the statistics computed from fetched commits and
 * events, the event label and colour tables, and the query keys.
 */
module TrafficService {
  import opened Wrappers
  import opened Text
  import opened Records
  import opened QueryKeys

  /** The git author block of a commit. */
  datatype GitAuthor = GitAuthor(name: string, email: string, date: string)

  /** A GitHub account as the API attaches it to a commit or an event. */
  datatype Account = Account(login: string, avatarUrl: string)

  /** A commit; `author` is the linked GitHub account, null when none matched. */
  datatype Commit = Commit(sha: string, message: string, gitAuthor: GitAuthor,
                           author: Option<Account>, htmlUrl: string)

  /** A repository event; `action` is the optional payload action. */
  datatype Event = Event(id: string, eventType: string, actor: Account, repoName: string,
                         createdAt: string, action: Option<string>)

  datatype TrafficStats = TrafficStats(
    totalCommits: nat,
    totalEvents: nat,
    uniqueContributors: nat,
    lastActivity: string,
    recentCommits: seq<Commit>,
    recentEvents: seq<Event>)

  const RecentLimit: nat := 10

  // ---------------------------------------------------------------------------
  // Aggregation
  // ---------------------------------------------------------------------------

  /** The logins of the commits that have a linked account, as a set. */
  function Logins(commits: seq<Commit>): set<string> {
    if commits == [] then {}
    else
      (match commits[0].author case Some(a) => {a.login} case None => {})
      + Logins(commits[1..])
  }

  lemma {:induction false} LoginsMembers(commits: seq<Commit>, login: string)
    ensures login in Logins(commits)
        <==> exists i :: 0 <= i < |commits| && commits[i].author.Some? &&
                        commits[i].author.value.login == login
  {
    if commits != [] {
      LoginsMembers(commits[1..], login);
      var tail := commits[1..];
      if exists i :: 0 <= i < |tail| && tail[i].author.Some? && tail[i].author.value.login == login {
        var i :| 0 <= i < |tail| && tail[i].author.Some? && tail[i].author.value.login == login;
        assert commits[i + 1] == tail[i];
      }
      if exists i :: 0 <= i < |commits| && commits[i].author.Some? &&
                     commits[i].author.value.login == login {
        var i :| 0 <= i < |commits| && commits[i].author.Some? &&
                 commits[i].author.value.login == login;
        if i > 0 { assert tail[i - 1] == commits[i]; }
      }
    }
  }

  /** The number of commits that have a linked account. */
  function CountLinked(commits: seq<Commit>): nat {
    if commits == [] then 0
    else (if commits[0].author.Some? then 1 else 0) + CountLinked(commits[1..])
  }

  /** Distinct authors never outnumber the commits that have one, nor the commits. */
  lemma {:induction false} LoginsBound(commits: seq<Commit>)
    ensures |Logins(commits)| <= CountLinked(commits) <= |commits|
  {
    if commits != [] {
      LoginsBound(commits[1..]);
      var head: set<string> := match commits[0].author case Some(a) => {a.login} case None => {};
      assert |head + Logins(commits[1..])| <= |head| + |Logins(commits[1..])|;
    }
  }

  /** `commits[0]?.commit.author.date || now`; `now` stands for the clock read. */
  function LastActivity(commits: seq<Commit>, now: string): string {
    if commits != [] && commits[0].gitAuthor.date != "" then commits[0].gitAuthor.date else now
  }

  /** The statistics of `fetchTrafficStats`, from the already fetched lists. */
  function TrafficStatsOf(commits: seq<Commit>, events: seq<Event>, now: string): (s: TrafficStats)
    ensures s.totalCommits == |commits| && s.totalEvents == |events|
    ensures s.uniqueContributors == |Logins(commits)|
    ensures s.uniqueContributors <= CountLinked(commits) <= s.totalCommits
    ensures commits != [] && commits[0].gitAuthor.date != "" ==> s.lastActivity == commits[0].gitAuthor.date
    ensures commits == [] || commits[0].gitAuthor.date == "" ==> s.lastActivity == now
    ensures |s.recentCommits| == (if |commits| < RecentLimit then |commits| else RecentLimit)
    ensures |s.recentEvents| == (if |events| < RecentLimit then |events| else RecentLimit)
    ensures commits[..|s.recentCommits|] == s.recentCommits
    ensures events[..|s.recentEvents|] == s.recentEvents
  {
    LoginsBound(commits);
    var s := TrafficStats(|commits|, |events|, |Logins(commits)|, LastActivity(commits, now),
                          Take(commits, RecentLimit), Take(events, RecentLimit));
    assert commits[..|s.recentCommits|] == s.recentCommits;
    assert events[..|s.recentEvents|] == s.recentEvents;
    s
  }

  // ---------------------------------------------------------------------------
  // Label and colour tables
  // ---------------------------------------------------------------------------

  const EventLabels: Table<string> := [
    ("PushEvent", "Push"),
    ("PullRequestEvent", "Pull Request"),
    ("IssuesEvent", "Issue"),
    ("IssueCommentEvent", "Comment"),
    ("CreateEvent", "Create"),
    ("DeleteEvent", "Delete"),
    ("WatchEvent", "Star"),
    ("ForkEvent", "Fork"),
    ("ReleaseEvent", "Release")
  ]

  const EventColors: Table<string> := [
    ("PushEvent", "bg-emerald-100 text-emerald-800"),
    ("PullRequestEvent", "bg-purple-100 text-purple-800"),
    ("IssuesEvent", "bg-red-100 text-red-800"),
    ("IssueCommentEvent", "bg-blue-100 text-blue-800"),
    ("CreateEvent", "bg-green-100 text-green-800"),
    ("WatchEvent", "bg-yellow-100 text-yellow-800"),
    ("ForkEvent", "bg-indigo-100 text-indigo-800"),
    ("ReleaseEvent", "bg-pink-100 text-pink-800")
  ]

  const DefaultColor: string := "bg-slate-100 text-slate-800"

  /** `eventLabels[type] || type.replace("Event", "")`. */
  function FormatEventType(eventType: string): string {
    Get(EventLabels, eventType, ReplaceFirst(eventType, "Event", ""))
  }

  /** `colors[type] || "bg-slate-100 text-slate-800"`. */
  function EventColorClass(eventType: string): string {
    Get(EventColors, eventType, DefaultColor)
  }

  lemma EventLabelsDistinct()
    ensures DistinctKeys(EventLabels)
  {
  }

  lemma EventColorsDistinct()
    ensures DistinctKeys(EventColors)
  {
  }

  /** The nine listed types get their table label. */
  lemma FormatListedEvent(i: nat)
    requires i < |EventLabels|
    ensures FormatEventType(EventLabels[i].0) == EventLabels[i].1
  {
    EventLabelsDistinct();
    GetEntry(EventLabels, i, ReplaceFirst(EventLabels[i].0, "Event", ""));
  }

  /** Any other type loses its first "Event" and nothing else. */
  lemma FormatUnlistedEvent(eventType: string)
    requires !HasKey(EventLabels, eventType)
    ensures IndexOf(eventType, "Event").None? ==> FormatEventType(eventType) == eventType
    ensures IndexOf(eventType, "Event").Some? ==>
              var i := IndexOf(eventType, "Event").value;
              FormatEventType(eventType) == eventType[..i] + eventType[i + 5..]
  {
    GetMissing(EventLabels, eventType, ReplaceFirst(eventType, "Event", ""));
  }

  /** A type named `<name>Event`, whose name has no capital E, shows as `<name>`
      ("MemberEvent" shows as "Member"). */
  lemma FormatSuffixedEvent(name: string)
    requires 'E' !in name
    requires !HasKey(EventLabels, name + "Event")
    ensures FormatEventType(name + "Event") == name
  {
    var t := name + "Event";
    assert MatchesAt(t, "Event", |name|) by {
      assert t[|name|..|name| + 5] == "Event";
    }
    forall j | 0 <= j < |name| ensures !MatchesAt(t, "Event", j) {
      assert t[j] == name[j];
    }
    var f := IndexOf(t, "Event");
    assert f == Some(|name|);
    FormatUnlistedEvent(t);
    assert t[..|name|] == name;
    assert t[|name| + 5..] == [];
  }

  /** The eight listed types get their table class. */
  lemma ColorListedEvent(i: nat)
    requires i < |EventColors|
    ensures EventColorClass(EventColors[i].0) == EventColors[i].1
  {
    EventColorsDistinct();
    GetEntry(EventColors, i, DefaultColor);
  }

  /** Every other type, DeleteEvent among them although it has a label, gets the
      default class. */
  lemma ColorUnlistedEvent(eventType: string)
    requires !HasKey(EventColors, eventType)
    ensures EventColorClass(eventType) == DefaultColor
  {
    GetMissing(EventColors, eventType, DefaultColor);
  }

  lemma DeleteEventHasNoColor()
    ensures HasKey(EventLabels, "DeleteEvent") && !HasKey(EventColors, "DeleteEvent")
  {
    assert EventLabels[5].0 == "DeleteEvent";
  }

  // ---------------------------------------------------------------------------
  // Query keys
  // ---------------------------------------------------------------------------

  const DefaultOwner: string := "facebook"
  const DefaultRepo: string := "react"

  /** The first two key segments, one per query kind. */
  datatype QueryKind = Commits | Events | TrafficStatsKind

  function KindSegment(kind: QueryKind): string {
    match kind
    case Commits => "commits"
    case Events => "events"
    case TrafficStatsKind => "traffic-stats"
  }

  lemma KindSegmentInjective(k1: QueryKind, k2: QueryKind)
    ensures KindSegment(k1) == KindSegment(k2) <==> k1 == k2
  {
  }

  /** `[...GITHUB_<KIND>_KEY, owner, repo]`, the expression shared by each hook and
      its key builder. */
  function QueryKey(kind: QueryKind, owner: string := DefaultOwner, repo: string := DefaultRepo)
    : seq<string>
  {
    GitHubKey(KindSegment(kind), [owner, repo])
  }

  /** Different kinds, owners or repositories never share a key; in particular the
      traffic-stats key differs from the commits and events keys in its second segment. */
  lemma QueryKeyInjective(k1: QueryKind, o1: string, r1: string, k2: QueryKind, o2: string, r2: string)
    ensures QueryKey(k1, o1, r1) == QueryKey(k2, o2, r2) <==> k1 == k2 && o1 == o2 && r1 == r2
  {
    GitHubKeyInjective(KindSegment(k1), [o1, r1], KindSegment(k2), [o2, r2]);
    KindSegmentInjective(k1, k2);
    if [o1, r1] == [o2, r2] {
      assert [o1, r1][0] == o1 && [o1, r1][1] == r1;
    }
  }
}
