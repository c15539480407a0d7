/**
 * The admin remote's GitHub service: the statistics computed from fetched contributors
 * and the optional organisation, the contributor roles, the query switches and keys.
 */
module AdminService {
  import opened Wrappers
  import opened Records
  import opened QueryKeys

  datatype Contributor = Contributor(login: string, id: int, avatarUrl: string, htmlUrl: string,
                                     contributions: int, accountType: string)

  datatype Org = Org(login: string, id: int, description: Option<string>, name: Option<string>,
                     publicRepos: int, followers: int)

  datatype AdminStats = AdminStats(
    totalContributors: nat,
    totalContributions: int,
    topContributors: seq<Contributor>,
    orgInfo: Option<Org>)

  const TopLimit: nat := 20

  // ---------------------------------------------------------------------------
  // Aggregation
  // ---------------------------------------------------------------------------

  /** `reduce((sum, c) => sum + c.contributions, 0)`. */
  function TotalContributions(cs: seq<Contributor>): int {
    if cs == [] then 0 else TotalContributions(cs[..|cs| - 1]) + cs[|cs| - 1].contributions
  }

  lemma {:induction false} TotalAppend(a: seq<Contributor>, b: seq<Contributor>)
    ensures TotalContributions(a + b) == TotalContributions(a) + TotalContributions(b)
  {
    if b == [] {
      assert a + b == a;
    } else {
      assert (a + b)[..|a + b| - 1] == a + b[..|b| - 1];
      TotalAppend(a, b[..|b| - 1]);
    }
  }

  ghost predicate NoNegative(cs: seq<Contributor>) {
    forall i :: 0 <= i < |cs| ==> cs[i].contributions >= 0
  }

  lemma {:induction false} TotalNonNegative(cs: seq<Contributor>)
    requires NoNegative(cs)
    ensures TotalContributions(cs) >= 0
  {
    if cs != [] {
      TotalNonNegative(cs[..|cs| - 1]);
    }
  }

  /** `fetchAdminStats` after the fetches; `org` is None when the organisation lookup
      failed (its `.catch(() => null)`). */
  function AdminStatsOf(contributors: seq<Contributor>, org: Option<Org>): (s: AdminStats)
    ensures s.totalContributors == |contributors|
    ensures s.totalContributions == TotalContributions(contributors)
    ensures |s.topContributors| == (if |contributors| < TopLimit then |contributors| else TopLimit)
    ensures contributors[..|s.topContributors|] == s.topContributors
    ensures s.orgInfo == org
  {
    var top := Take(contributors, TopLimit);
    assert contributors[..|top|] == top;
    AdminStats(|contributors|, TotalContributions(contributors), top, org)
  }

  /** The top contributors never account for more than the total. */
  lemma TopWithinTotal(contributors: seq<Contributor>, org: Option<Org>)
    requires NoNegative(contributors)
    ensures TotalContributions(AdminStatsOf(contributors, org).topContributors)
            <= AdminStatsOf(contributors, org).totalContributions
  {
    var top := AdminStatsOf(contributors, org).topContributors;
    var rest := contributors[|top|..];
    assert contributors == top + rest;
    TotalAppend(top, rest);
    assert NoNegative(rest) by {
      forall i | 0 <= i < |rest| ensures rest[i].contributions >= 0 {
        assert rest[i] == contributors[|top| + i];
      }
    }
    TotalNonNegative(rest);
  }

  /** A failed organisation lookup changes nothing but `orgInfo`. */
  lemma OrgFailureKeepsFigures(contributors: seq<Contributor>, o: Org)
    ensures AdminStatsOf(contributors, None)
         == AdminStatsOf(contributors, Some(o)).(orgInfo := None)
  {
  }

  // ---------------------------------------------------------------------------
  // Roles
  // ---------------------------------------------------------------------------

  datatype Role = CoreRole | ActiveRole | RegularRole | ContributorRole

  /** The `{ label, color }` badge of a role. */
  datatype Badge = Badge(text: string, color: string)

  /** The thresholds of `getContributorRole`. */
  function RoleOf(contributions: int): (r: Role)
    ensures r == CoreRole <==> contributions >= 1000
    ensures r == ActiveRole <==> 100 <= contributions < 1000
    ensures r == RegularRole <==> 10 <= contributions < 100
    ensures r == ContributorRole <==> contributions < 10
  {
    if contributions >= 1000 then CoreRole
    else if contributions >= 100 then ActiveRole
    else if contributions >= 10 then RegularRole
    else ContributorRole
  }

  function RoleBadge(r: Role): Badge {
    match r
    case CoreRole => Badge("Core", "bg-purple-100 text-purple-800")
    case ActiveRole => Badge("Active", "bg-emerald-100 text-emerald-800")
    case RegularRole => Badge("Regular", "bg-blue-100 text-blue-800")
    case ContributorRole => Badge("Contributor", "bg-slate-100 text-slate-800")
  }

  function ContributorRoleBadge(contributions: int): Badge {
    RoleBadge(RoleOf(contributions))
  }

  /** The rank of a role, Contributor lowest. */
  function Rank(r: Role): nat {
    match r case ContributorRole => 0 case RegularRole => 1 case ActiveRole => 2 case CoreRole => 3
  }

  /** More contributions never mean a lower role. */
  lemma RoleMonotone(a: int, b: int)
    requires a <= b
    ensures Rank(RoleOf(a)) <= Rank(RoleOf(b))
  {
  }

  /** Different roles show different badges. */
  lemma RoleBadgeInjective(r1: Role, r2: Role)
    ensures RoleBadge(r1) == RoleBadge(r2) <==> r1 == r2
  {
  }

  // ---------------------------------------------------------------------------
  // Queries
  // ---------------------------------------------------------------------------

  const DefaultOwner: string := "vercel"
  const DefaultRepo: string := "next.js"

  /** What a hook hands to `useQuery`: its key and whether it may run. */
  datatype Query = Query(key: seq<string>, enabled: bool)

  function ContributorsQueryKey(owner: string := DefaultOwner, repo: string := DefaultRepo): seq<string> {
    GitHubKey("contributors", [owner, repo])
  }

  function AdminStatsQueryKey(owner: string := DefaultOwner, repo: string := DefaultRepo): seq<string> {
    GitHubKey("admin-stats", [owner, repo])
  }

  /** `useGitHubUser`: keyed by the user name, run only for a non-empty name. */
  function UserQuery(username: string): Query {
    Query(GitHubKey("user", [username]), username != "")
  }

  /** `useGitHubOrg`: keyed by the organisation name, run only for a non-empty name. */
  function OrgQuery(org: string): Query {
    Query(GitHubKey("org", [org]), org != "")
  }

  /** The hooks without an `enabled` option always run, under the builders' keys. */
  function ContributorsQuery(owner: string := DefaultOwner, repo: string := DefaultRepo): Query {
    Query(ContributorsQueryKey(owner, repo), true)
  }

  function AdminStatsQuery(owner: string := DefaultOwner, repo: string := DefaultRepo): Query {
    Query(AdminStatsQueryKey(owner, repo), true)
  }

  /** A user or organisation query is enabled exactly for a non-empty name, and no two
      of the four admin queries ever share a key. */
  lemma QueriesApart(name: string, name2: string, o: string, r: string, o2: string, r2: string)
    ensures UserQuery(name).enabled <==> |name| > 0
    ensures OrgQuery(name).enabled <==> |name| > 0
    ensures UserQuery(name).key != OrgQuery(name2).key
    ensures UserQuery(name).key != ContributorsQueryKey(o, r)
    ensures ContributorsQueryKey(o, r) != AdminStatsQueryKey(o2, r2)
    ensures ContributorsQueryKey(o, r) == ContributorsQueryKey(o2, r2) <==> o == o2 && r == r2
    ensures AdminStatsQueryKey(o, r) == AdminStatsQueryKey(o2, r2) <==> o == o2 && r == r2
  {
    GitHubKeyInjective("user", [name], "org", [name2]);
    GitHubKeyInjective("contributors", [o, r], "admin-stats", [o2, r2]);
    GitHubKeyInjective("contributors", [o, r], "contributors", [o2, r2]);
    GitHubKeyInjective("admin-stats", [o, r], "admin-stats", [o2, r2]);
    assert |UserQuery(name).key| == 3 && |ContributorsQueryKey(o, r)| == 4;
    if [o, r] == [o2, r2] {
      assert [o, r][0] == o && [o, r][1] == r;
    }
  }
}
