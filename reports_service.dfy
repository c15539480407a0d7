/**
 * The reports remote's GitHub service: the repository report built from the fetched
 * repository, language byte counts and releases, the language colours and the report key.
 */
module ReportsService {
  import opened Wrappers
  import opened StableSort
  import opened Records
  import opened QueryKeys

  datatype Repo = Repo(id: int, name: string, fullName: string, description: Option<string>,
                       stars: int, forks: int, openIssues: int, language: Option<string>)

  datatype Release = Release(id: int, tagName: string, name: string, publishedAt: string,
                             prerelease: bool, draft: bool)

  /** The languages object, as its entries in `Object.entries` order. */
  type Languages = Table<int>

  /** One entry of `languagePercentages`, without its percentage. */
  datatype LanguageShare = LanguageShare(name: string, bytes: int)

  datatype RepoReport = RepoReport(
    repo: Repo,
    languages: Languages,
    releases: seq<Release>,
    languagePercentages: seq<LanguageShare>,
    totalBytes: int)

  // ---------------------------------------------------------------------------
  // Aggregation
  // ---------------------------------------------------------------------------

  /** `Object.values(languages).reduce((sum, bytes) => sum + bytes, 0)`. */
  function TotalBytes(langs: Languages): int {
    if langs == [] then 0 else TotalBytes(langs[..|langs| - 1]) + langs[|langs| - 1].1
  }

  /** `Object.entries(languages).map(([name, bytes]) => ...)`. */
  function Shares(langs: Languages): (r: seq<LanguageShare>)
    ensures |r| == |langs|
    ensures forall i :: 0 <= i < |langs| ==> r[i] == LanguageShare(langs[i].0, langs[i].1)
  {
    if langs == [] then [] else [LanguageShare(langs[0].0, langs[0].1)] + Shares(langs[1..])
  }

  /** The sort key of the comparator `(a, b) => b.bytes - a.bytes`: ascending in
      `-bytes` is descending in `bytes`. */
  function DescendingBytes(s: LanguageShare): int { -s.bytes }

  function LanguageShares(langs: Languages): seq<LanguageShare> {
    SortBy(Shares(langs), DescendingBytes)
  }

  /** `fetchRepoReport` after the fetches. */
  function RepoReportOf(repo: Repo, langs: Languages, releases: seq<Release>): (r: RepoReport)
    ensures r.repo == repo && r.languages == langs && r.releases == releases
    ensures r.totalBytes == TotalBytes(langs)
    ensures r.languagePercentages == LanguageShares(langs)
    ensures |r.languagePercentages| == |langs|
  {
    RepoReport(repo, langs, releases, LanguageShares(langs), TotalBytes(langs))
  }

  /** The shares are the languages' entries, in descending byte order, languages with
      equal bytes in entry order; and only one sequence has these three properties. */
  lemma LanguageSharesSpec(langs: Languages, other: seq<LanguageShare>)
    ensures multiset(LanguageShares(langs)) == multiset(Shares(langs))
    ensures forall i, j :: 0 <= i < j < |LanguageShares(langs)| ==>
              LanguageShares(langs)[i].bytes >= LanguageShares(langs)[j].bytes
    ensures SameKeyOrder(LanguageShares(langs), Shares(langs), DescendingBytes)
    ensures SortedBy(other, DescendingBytes) && SameKeyOrder(other, Shares(langs), DescendingBytes)
            ==> other == LanguageShares(langs)
  {
    var r := LanguageShares(langs);
    SortByCorrect(Shares(langs), DescendingBytes);
    forall i, j | 0 <= i < j < |r| ensures r[i].bytes >= r[j].bytes {
      assert DescendingBytes(r[i]) <= DescendingBytes(r[j]);
    }
    if SortedBy(other, DescendingBytes) && SameKeyOrder(other, Shares(langs), DescendingBytes) {
      StableSortUnique(other, r, DescendingBytes);
    }
  }

  /** Each language has an entry carrying its bytes, and each entry comes from a language. */
  lemma LanguageSharesEntries(langs: Languages)
    ensures forall i :: 0 <= i < |langs| ==> LanguageShare(langs[i].0, langs[i].1) in LanguageShares(langs)
    ensures forall s :: s in LanguageShares(langs) ==>
              exists i :: 0 <= i < |langs| && s == LanguageShare(langs[i].0, langs[i].1)
  {
    var sh := Shares(langs);
    var r := LanguageShares(langs);
    forall i | 0 <= i < |langs| ensures LanguageShare(langs[i].0, langs[i].1) in r {
      assert sh[i] in multiset(sh);
    }
    forall s | s in r ensures exists i :: 0 <= i < |langs| && s == LanguageShare(langs[i].0, langs[i].1) {
      assert s in multiset(r);
      assert s in sh;
      var i :| 0 <= i < |sh| && sh[i] == s;
      assert s == LanguageShare(langs[i].0, langs[i].1);
    }
  }

  /** The bytes of a share list. */
  function ShareBytes(xs: seq<LanguageShare>): int {
    if xs == [] then 0 else xs[0].bytes + ShareBytes(xs[1..])
  }

  lemma {:induction false} ShareBytesInsert(x: LanguageShare, ys: seq<LanguageShare>)
    ensures ShareBytes(Insert(x, ys, DescendingBytes)) == x.bytes + ShareBytes(ys)
  {
    if ys != [] && DescendingBytes(x) > DescendingBytes(ys[0]) {
      ShareBytesInsert(x, ys[1..]);
      var r := Insert(x, ys, DescendingBytes);
      assert r[0] == ys[0] && r[1..] == Insert(x, ys[1..], DescendingBytes);
    }
  }

  lemma {:induction false} ShareBytesSort(xs: seq<LanguageShare>)
    ensures ShareBytes(SortBy(xs, DescendingBytes)) == ShareBytes(xs)
  {
    if xs != [] {
      ShareBytesSort(xs[1..]);
      ShareBytesInsert(xs[0], SortBy(xs[1..], DescendingBytes));
    }
  }

  lemma {:induction false} ShareBytesOfShares(langs: Languages)
    ensures ShareBytes(Shares(langs)) == TotalBytes(langs)
  {
    if langs != [] {
      var init := langs[..|langs| - 1];
      var last := LanguageShare(langs[|langs| - 1].0, langs[|langs| - 1].1);
      ShareBytesOfShares(init);
      SharesSnoc(langs);
      ShareBytesAppend(Shares(init), [last]);
      assert ShareBytes([last]) == last.bytes;
    }
  }

  lemma SharesSnoc(langs: Languages)
    requires langs != []
    ensures Shares(langs) == Shares(langs[..|langs| - 1])
                             + [LanguageShare(langs[|langs| - 1].0, langs[|langs| - 1].1)]
  {
    var init := langs[..|langs| - 1];
    var r := Shares(init) + [LanguageShare(langs[|langs| - 1].0, langs[|langs| - 1].1)];
    forall i | 0 <= i < |langs| ensures Shares(langs)[i] == r[i] {
      if i < |init| { assert init[i] == langs[i]; }
    }
  }

  lemma {:induction false} ShareBytesAppend(a: seq<LanguageShare>, b: seq<LanguageShare>)
    ensures ShareBytes(a + b) == ShareBytes(a) + ShareBytes(b)
  {
    if a != [] {
      assert (a + b)[1..] == a[1..] + b;
      ShareBytesAppend(a[1..], b);
    } else {
      assert a + b == b;
    }
  }

  /** The shares account for exactly the total byte count. */
  lemma SharesCoverTotal(repo: Repo, langs: Languages, releases: seq<Release>)
    ensures ShareBytes(RepoReportOf(repo, langs, releases).languagePercentages)
         == RepoReportOf(repo, langs, releases).totalBytes
  {
    ShareBytesSort(Shares(langs));
    ShareBytesOfShares(langs);
  }

  // ---------------------------------------------------------------------------
  // Colours
  // ---------------------------------------------------------------------------

  const LanguageColors: Table<string> := [
    ("TypeScript", "#3178c6"),
    ("JavaScript", "#f1e05a"),
    ("Python", "#3572A5"),
    ("Java", "#b07219"),
    ("Go", "#00ADD8"),
    ("Rust", "#dea584"),
    ("Ruby", "#701516"),
    ("PHP", "#4F5D95"),
    ("C++", "#f34b7d"),
    ("C", "#555555"),
    ("C#", "#178600"),
    ("Swift", "#F05138"),
    ("Kotlin", "#A97BFF"),
    ("Scala", "#c22d40"),
    ("HTML", "#e34c26"),
    ("CSS", "#563d7c"),
    ("Shell", "#89e051"),
    ("Makefile", "#427819")
  ]

  const DefaultLanguageColor: string := "#6e7681"

  /** `colors[language] || "#6e7681"`. */
  function LanguageColor(language: string): string {
    Get(LanguageColors, language, DefaultLanguageColor)
  }

  /** The position of each listed language in the colour table; a proof device that
      makes the table's keys visibly distinct. */
  function ListedPosition(k: string): int {
    if k == "TypeScript" then 0
    else if k == "JavaScript" then 1
    else if k == "Python" then 2
    else if k == "Java" then 3
    else if k == "Go" then 4
    else if k == "Rust" then 5
    else if k == "Ruby" then 6
    else if k == "PHP" then 7
    else if k == "C++" then 8
    else if k == "C" then 9
    else if k == "C#" then 10
    else if k == "Swift" then 11
    else if k == "Kotlin" then 12
    else if k == "Scala" then 13
    else if k == "HTML" then 14
    else if k == "CSS" then 15
    else if k == "Shell" then 16
    else if k == "Makefile" then 17
    else -1
  }

  lemma PositionedKeysDistinct<V>(table: Table<V>)
    requires forall i :: 0 <= i < |table| ==> ListedPosition(table[i].0) == i
    ensures DistinctKeys(table)
  {
  }

  lemma LanguageColorsDistinct()
    ensures DistinctKeys(LanguageColors)
  {
    ListedPositionsLow();
    ListedPositionsMiddle();
    ListedPositionsHigh();
    PositionedKeysDistinct(LanguageColors);
  }

  /** The listed positions, checked a third of the table at a time. */
  lemma ListedPositionsLow()
    ensures forall i :: 0 <= i < 6 ==> ListedPosition(LanguageColors[i].0) == i
  {
  }

  lemma ListedPositionsMiddle()
    ensures forall i :: 6 <= i < 12 ==> ListedPosition(LanguageColors[i].0) == i
  {
  }

  lemma ListedPositionsHigh()
    ensures forall i :: 12 <= i < 18 ==> ListedPosition(LanguageColors[i].0) == i
  {
  }

  /** The eighteen listed languages get their colour. */
  lemma ColorOfListed(i: nat)
    requires i < |LanguageColors|
    ensures LanguageColor(LanguageColors[i].0) == LanguageColors[i].1
  {
    LanguageColorsDistinct();
    GetEntry(LanguageColors, i, DefaultLanguageColor);
  }

  /** Any other language gets the default grey. */
  lemma ColorOfUnlisted(language: string)
    requires !HasKey(LanguageColors, language)
    ensures LanguageColor(language) == DefaultLanguageColor
  {
    GetMissing(LanguageColors, language, DefaultLanguageColor);
  }

  // ---------------------------------------------------------------------------
  // Query keys
  // ---------------------------------------------------------------------------

  const DefaultOwner: string := "microsoft"
  const DefaultRepo: string := "typescript"

  /** `[...GITHUB_REPO_REPORT_KEY, owner, repo]`, shared by `useGitHubRepoReport` and
      `getGitHubRepoReportQueryKey`. */
  function RepoReportQueryKey(owner: string := DefaultOwner, repo: string := DefaultRepo): seq<string> {
    GitHubKey("repo-report", [owner, repo])
  }

  /** `[...GITHUB_REPO_KEY, owner, repo]`, the key of `useGitHubRepo`. */
  function RepoQueryKey(owner: string := DefaultOwner, repo: string := DefaultRepo): seq<string> {
    GitHubKey("repo", [owner, repo])
  }

  /** Report keys of different repositories differ, and never equal a repository key. */
  lemma RepoReportKeyApart(o: string, r: string, o2: string, r2: string)
    ensures RepoReportQueryKey(o, r) == RepoReportQueryKey(o2, r2) <==> o == o2 && r == r2
    ensures RepoReportQueryKey(o, r) != RepoQueryKey(o2, r2)
    ensures RepoReportQueryKey() == ["github", "repo-report", "microsoft", "typescript"]
  {
    GitHubKeyInjective("repo-report", [o, r], "repo-report", [o2, r2]);
    GitHubKeyInjective("repo-report", [o, r], "repo", [o2, r2]);
    if [o, r] == [o2, r2] {
      assert [o, r][0] == o && [o, r][1] == r;
    }
  }
}
