# Micro-frontend monorepo: verified model of its small pieces of logic

The repository is a React micro-frontend application. A shell host composes three remotes
through module federation. Traffic shows commits and events of a GitHub repository,
reports shows a repository's languages and releases, and admin shows contributors and roles.
The shell draws a sidebar from a static route manifest. It also ships two Node scripts:
a commit-message hook that checks Conventional Commits headers, and a generator that
scaffolds a new remote.

This project models the sequential logic of those pieces and proves what each promises:

- **Commit-message hook** (`CommitMsg`, over `Text`):
  - the header grammar `type(scope)!: subject`, as a parser with soundness and completeness lemmas;
  - the house rules and the fixed order of errors and warnings;
  - the step-by-step validator, as a method proved equal to its specification function;
  - comment-line stripping and the exit code.
- **Domain generator** (`CreateDomain`):
  - the kebab, Pascal and title case converters;
  - the used-port collection, a loop, proved unique, complete and in first-occurrence order;
  - the next-free-port search, a loop, proved to return the least free port from 3005;
  - the defaulting of the four prompts and the derived names.
- **Shell** (`RemoteManifest`, `Sidebar`, over `StableSort`):
  - route lookup with the "Not Found" fallback;
  - the flattened route list and the navigation items, sorted stably by `order ?? 99`;
  - the active-link rule.
- **GitHub services** (`TrafficService`, `AdminService`, `ReportsService`, `NumberFormat`, `QueryKeys`, `Records`):
  - the statistics computed from already-fetched lists;
  - the label and colour tables read with a fallback;
  - the role thresholds and the number and byte suffixes;
  - the query keys and `enabled` switches.
- **Traffic page** (`TrafficHome`):
  - relative-time bucketing from elapsed milliseconds;
  - the display fallbacks of the stat cards, commit rows and event rows.

Shared JavaScript built-ins get their own modules, and each is proved against its own
specification:

- `Text`: `trim`, `split`/`join`, `indexOf`/`replace`, `parseInt` and number-to-text;
- `StableSort`: the stable `Array.prototype.sort`;
- `Records`: `table[key] || fallback` and `slice(0, n)`;
- `QueryKeys`: the `["github", segment, ...args]` keys.

No clock, network or file system appears in the model. Elapsed milliseconds, the current
time's text, the organisation lookup's outcome, the config file contents and the prompt
answers are all parameters.

### Behaviour of the code worth noting
- `remoteManifests` is a constant list of three manifests. `RemoteManifest.AllRoutes` models that constant.
- A missing order reads as 99, so a route with an explicit order above 99 sorts after an unordered one. `RemoteManifest.LargeOrderAfterUnordered` proves this.
- The route lookup's fallback is a "Not Found" placeholder for a missing id or a missing component. Load failures of a remote's code are not handled in the manifest.

## Model

| member | source | states |
|---|---|---|
| CommitMsg.WordPrefix | scripts/commit-msg.mjs:45 | `(\w+)` takes the longest run of word characters: a prefix of the input, all word characters, followed by a non-word character or the end |
| CommitMsg.ScopePrefix | scripts/commit-msg.mjs:45 | `[\w-]+` inside the parentheses takes the longest run of word characters and hyphens |
| CommitMsg.WordPrefixOfConcat | scripts/commit-msg.mjs:45 | a run of word characters followed by a non-word character is exactly what the type group captures |
| CommitMsg.ScopePrefixOfConcat | scripts/commit-msg.mjs:45 | a run of scope characters followed by a non-scope character is exactly what the scope group captures |
| CommitMsg.ScopePart | scripts/commit-msg.mjs:45 | the optional `(scope)` group: when it succeeds, the input is the scope's text followed by the rest, and a present scope is non-empty and made of scope characters |
| CommitMsg.ScopePartComplete | scripts/commit-msg.mjs:45 | every well-formed optional scope followed by text not starting with "(" is read back as that scope and that text |
| CommitMsg.ParseRestSound | scripts/commit-msg.mjs:45 | what follows the scope is an optional "!", ":", one whitespace character and a non-empty subject without line terminators |
| CommitMsg.ParseRestComplete | scripts/commit-msg.mjs:45 | every such tail is accepted and yields back its bang flag, gap and subject |
| CommitMsg.ParseHeaderSound | scripts/commit-msg.mjs:45 | every header the parser accepts is well formed, and reassembling its parts gives the header back |
| CommitMsg.ParseHeaderWellFormed | scripts/commit-msg.mjs:45 | the parts of an accepted header satisfy the grammar |
| CommitMsg.ParseHeaderReadsBack | scripts/commit-msg.mjs:45 | the parts of an accepted header reassemble to the header |
| CommitMsg.ParseHeaderComplete | scripts/commit-msg.mjs:45 | every well-formed header is accepted, with exactly the parts it was built from |
| CommitMsg.IssueTexts | scripts/commit-msg.mjs:53-93 | the texts of a list of issues, one per issue, in order |
| CommitMsg.Validate | scripts/commit-msg.mjs:47-104 | `valid` holds iff there are no errors; a blank message gives only the "cannot be empty" error; a non-matching header gives exactly the three format errors and no warnings |
| CommitMsg.ValidateCommitMessage | scripts/commit-msg.mjs:47-104 | the validator with its pushes and early returns computes exactly `Validate` |
| CommitMsg.ReportBlank | scripts/commit-msg.mjs:52-55 | the empty-message branch returns `Validate`'s result |
| CommitMsg.ReportNoMatch | scripts/commit-msg.mjs:61-68 | the no-match branch pushes the three format errors and returns `Validate`'s result |
| CommitMsg.ReportMatch | scripts/commit-msg.mjs:70-103 | the matched branch returns `Validate`'s result |
| CommitMsg.CheckMatch | scripts/commit-msg.mjs:73-94 | the checks of a matched header push the type errors, then the subject error, then the length error; the warnings are the period and capital warnings |
| CommitMsg.ValidateOfBlank | scripts/commit-msg.mjs:52-55 | a message that trims to "" is invalid with the single empty-message error and no warnings |
| CommitMsg.ValidateOfNoMatch | scripts/commit-msg.mjs:63-68 | a header the pattern rejects gives the three format errors, no parsed parts and no warnings |
| CommitMsg.ValidateOfMatch | scripts/commit-msg.mjs:70-103 | a matched header gives its type, scope and subject, the errors in order type, subject, header, and the subject warnings |
| CommitMsg.OnlyFirstLineMatters | scripts/commit-msg.mjs:58 | text after the first newline never changes the result |
| CommitMsg.MalformedHeader | scripts/commit-msg.mjs:61-68 | a non-blank message whose trimmed first line is no well-formed header gives exactly the three format errors |
| CommitMsg.WellFormedHeader | scripts/commit-msg.mjs:70-103 | a well-formed first line is parsed into its own parts, with the errors and warnings its parts call for |
| CommitMsg.ValidIff | scripts/commit-msg.mjs:52-97 | valid iff non-blank, the header matches, the type is allowed, the subject has at least 3 characters and the header at most 100 |
| CommitMsg.HeaderOfPlainLine | scripts/commit-msg.mjs:58 | a single line without surrounding whitespace is its own header |
| CommitMsg.CapitalisedTypeNotAllowed | scripts/commit-msg.mjs:26-38 | no allowed type starts with a capital letter |
| CommitMsg.TypeIsCaseSensitive | scripts/commit-msg.mjs:73-76 | a capitalised type such as "Feat" makes the message invalid, with the two invalid-type errors first |
| CommitMsg.TypeErrorsFirst | scripts/commit-msg.mjs:73-76 | a type outside the allowed list makes the message invalid, with the two invalid-type errors first |
| CommitMsg.WarningsKeepValidity | scripts/commit-msg.mjs:83-97 | the period and capital warnings never make an otherwise valid message invalid |
| CommitMsg.Uncommented | scripts/commit-msg.mjs:165 | the filter keeps no line starting with "#" and never lengthens the list |
| CommitMsg.UncommentedFrom | scripts/commit-msg.mjs:165 | every kept line is one of the input lines |
| CommitMsg.UncommentedNone | scripts/commit-msg.mjs:165 | without comment lines the filter keeps every line |
| CommitMsg.StrippedHasNoComments | scripts/commit-msg.mjs:163-166 | after the split, filter and join, splitting again yields no line starting with "#" |
| CommitMsg.CleanWithoutComments | scripts/commit-msg.mjs:156-167 | a file without comment lines is validated as its trimmed text |
| CommitMsg.ExitCode | scripts/commit-msg.mjs:139-207 | the exit code is 0 or 1, and 0 exactly for a help flag or a readable file whose cleaned message is valid |
| CreateDomain.HyphenateCamelIsEachPair | scripts/create-domain.mjs:23 | the global `([a-z])([A-Z])` replacement puts one hyphen inside every lowercase-uppercase pair of the input |
| CreateDomain.HyphenateCamelIdentity | scripts/create-domain.mjs:23 | text without such a pair is unchanged |
| CreateDomain.DropSeps | scripts/create-domain.mjs:24 | the leading run of whitespace and underscores is removed, and nothing else |
| CreateDomain.CollapseSeps | scripts/create-domain.mjs:24 | after `[\s_]+` is replaced by "-" no whitespace or underscore remains |
| CreateDomain.CollapseSepsIdentity | scripts/create-domain.mjs:24 | text without whitespace or underscores is unchanged |
| CreateDomain.CollapseRun | scripts/create-domain.mjs:24 | a whole run of separators becomes a single hyphen |
| CreateDomain.CollapseConcat | scripts/create-domain.mjs:24 | the replacement distributes over a split point that does not cut a run |
| CreateDomain.LowerAll | scripts/create-domain.mjs:25 | `toLowerCase` maps each character on its own and keeps the length |
| CreateDomain.LowerAllIdentity | scripts/create-domain.mjs:25 | text without capitals is unchanged |
| CreateDomain.ToKebabCase | scripts/create-domain.mjs:21-26 | the result has no capital letters, whitespace or underscores |
| CreateDomain.KebabIdempotent | scripts/create-domain.mjs:21-26 | converting twice equals converting once |
| CreateDomain.KebabOfKebab | scripts/create-domain.mjs:21-26 | text already in kebab form is unchanged |
| CreateDomain.KebabOfCapitals | scripts/create-domain.mjs:23-25 | an all-capital word such as "ABC" only gets lower-cased, with no hyphens |
| CreateDomain.CapitalsHaveNoPairOrSep | scripts/create-domain.mjs:23-24 | an all-capital word contains no lowercase-uppercase pair and no separator |
| CreateDomain.Capitalize | scripts/create-domain.mjs:31 | only the first character is upper-cased; the rest and the length are kept |
| CreateDomain.CapitalizeAll | scripts/create-domain.mjs:31 | every piece is capitalised, in order |
| CreateDomain.CapitalizeKeeps | scripts/create-domain.mjs:31 | capitalising never introduces a character that is not a letter |
| CreateDomain.TitleWords | scripts/create-domain.mjs:35-40 | splitting the title-cased name on spaces gives back its capitalised hyphen pieces |
| CreateDomain.PascalIsTitleWithoutSpaces | scripts/create-domain.mjs:28-40 | the Pascal form is the title form with its spaces removed: the two differ only in the joiner |
| CreateDomain.LowerOfCapitalizedJoin | scripts/create-domain.mjs:28-33 | lower-casing the joined capitalised pieces equals lower-casing the joined pieces |
| CreateDomain.PascalLowered | scripts/create-domain.mjs:28-33 | the Pascal form, lower-cased, is the input with its hyphens removed, lower-cased |
| CreateDomain.FindPortLeftmost | scripts/create-domain.mjs:50 | `content.match(/port:\s*(\d+)/)` finds the leftmost position where the pattern matches, or reports that none does |
| CreateDomain.PortInOfEntry | scripts/create-domain.mjs:50-52 | "port:", whitespace, a number and a non-digit yield that number |
| CreateDomain.NumberAfterSpacesOf | scripts/create-domain.mjs:50-52 | `\s*(\d+)` reads the number after any whitespace |
| CreateDomain.ConfigPortsStep | scripts/create-domain.mjs:46-55 | each config adds its own port, if it has one, after those of the earlier configs |
| CreateDomain.DedupAfterMembers | scripts/create-domain.mjs:57 | `[...new Set(ports)]` keeps exactly the ports of the list |
| CreateDomain.DedupAfterUnique | scripts/create-domain.mjs:57 | the deduplicated list has no repeated port |
| CreateDomain.FirstIndex | scripts/create-domain.mjs:57 | the position of a port's first occurrence |
| CreateDomain.DedupAfterOrder | scripts/create-domain.mjs:57 | the deduplicated list keeps the order of first occurrences |
| CreateDomain.PushedPortsStep | scripts/create-domain.mjs:46-55 | the `forEach` push appends each config's port to the defaults in config order |
| CreateDomain.UsedPortsMembers | scripts/create-domain.mjs:42-58 | a port is used iff it is a default port or found in a config |
| CreateDomain.UsedPortsFacts | scripts/create-domain.mjs:42-58 | the used list has no duplicates, starts with 3000–3004, and lists ports in first-occurrence order |
| CreateDomain.DedupPrefix | scripts/create-domain.mjs:43-57 | deduplication keeps the five default ports at the front |
| CreateDomain.GetUsedPorts | scripts/create-domain.mjs:42-58 | the push loop followed by deduplication computes the used-port list |
| CreateDomain.NextAvailablePort | scripts/create-domain.mjs:60-67 | the search returns a port from 3005 up that is not used, and every port from 3005 below it is used |
| CreateDomain.LeastFreePortUnique | scripts/create-domain.mjs:60-67 | that least free port is unique and is neither a default nor a configured port |
| CreateDomain.OrDefault | scripts/create-domain.mjs:92 | `input.trim() \|\| fallback`: a blank answer gives the fallback, any other the non-empty trimmed answer |
| CreateDomain.PortChoice | scripts/create-domain.mjs:97 | a NaN or 0 from `parseInt` gives the default port; any other parsed integer is used as is |
| CreateDomain.PortChoiceOfNumber | scripts/create-domain.mjs:97 | a typed non-zero integer is the chosen port |
| CreateDomain.PortChoiceOfBlank | scripts/create-domain.mjs:97 | a blank port answer gives the default port |
| CreateDomain.PlanDomain | scripts/create-domain.mjs:73-107 | the run aborts with "name required" iff the kebab-cased trimmed name is empty, with "already exists" iff it names an existing app, and otherwise plans that name |
| CreateDomain.RemoteNameHasNoHyphen | scripts/create-domain.mjs:437 | `replace(/-/g, "_")` leaves no hyphen |
| CreateDomain.PlanDefaults | scripts/create-domain.mjs:90-102 | blank answers give base path "/" + name, the default port and the title-cased name as label |
| CreateDomain.PlanNames | scripts/create-domain.mjs:74-107 | the planned name is non-empty, new and in kebab form; the route id is name + "-home"; the remote name has no hyphen; the Pascal name is the title form without spaces |
| RemoteManifest.FindRoute | apps/shell/src/remote-manifest.tsx:40 | `find` returns the first route with the id, or reports that no route has it |
| RemoteManifest.ResolveFirst | apps/shell/src/remote-manifest.tsx:40-45 | a lazy route renders the component of the first route with its id, or "Not Found" when that route has none |
| RemoteManifest.ResolveIff | apps/shell/src/remote-manifest.tsx:40-45 | a component is rendered iff the first route with the id carries it; with no such route the result is "Not Found" |
| RemoteManifest.FlatRoutesAppend | apps/shell/src/remote-manifest.tsx:88 | `flatMap` over a concatenation is the concatenation of the flattened parts |
| RemoteManifest.FlatRoutesMembers | apps/shell/src/remote-manifest.tsx:88 | a route is in the flattened list iff some manifest has it |
| RemoteManifest.AllRoutes | apps/shell/src/remote-manifest.tsx:81-89 | all routes are the traffic, reports and admin routes, in that order |
| RemoteManifest.AllRouteIdsDistinct | apps/shell/src/remote-manifest.tsx:52-85 | no two shown routes share an id |
| RemoteManifest.WithNav | apps/shell/src/remote-manifest.tsx:93 | the filter keeps only routes with a nav entry, drawn from the input |
| RemoteManifest.WithNavMembers | apps/shell/src/remote-manifest.tsx:93 | a route is kept iff it is in the input and has a nav entry |
| RemoteManifest.WithNavCount | apps/shell/src/remote-manifest.tsx:93 | the filter keeps as many routes as have a nav entry |
| RemoteManifest.ToNavItems | apps/shell/src/remote-manifest.tsx:95-98 | each route becomes the `{path, label}` of that same route, in order |
| RemoteManifest.NavRoutesSpec | apps/shell/src/remote-manifest.tsx:92-94 | the sorted routes are a permutation of the kept ones, non-decreasing in `order ?? 99`, ties in manifest order, and the only such arrangement |
| RemoteManifest.NavRoutesHaveNav | apps/shell/src/remote-manifest.tsx:93-94 | every sorted route has a nav entry |
| RemoteManifest.NavRoutesSorted | apps/shell/src/remote-manifest.tsx:94 | the sorted routes are non-decreasing in `order ?? 99` |
| RemoteManifest.NavItemsProjection | apps/shell/src/remote-manifest.tsx:91-98 | there are as many nav items as routes with a nav entry, and item i is the path and label of sorted route i |
| RemoteManifest.LargeOrderAfterUnordered | apps/shell/src/remote-manifest.tsx:94 | a route with an explicit order above 99 comes after every unordered route |
| RemoteManifest.NavRoutesOfSorted | apps/shell/src/remote-manifest.tsx:92-94 | routes already in order, all with nav entries, come out unchanged |
| RemoteManifest.WithNavAll | apps/shell/src/remote-manifest.tsx:93 | when every route has a nav entry the filter keeps them all |
| RemoteManifest.ShownRoutesSorted | apps/shell/src/remote-manifest.tsx:52-85 | the shown routes all carry nav entries and already come in order 1, 2, 3 |
| RemoteManifest.NavItemsOfSorted | apps/shell/src/remote-manifest.tsx:91-98 | for such routes the nav items are their projections in the same order |
| RemoteManifest.ShownNavItems | apps/shell/src/remote-manifest.tsx:52-98 | the sidebar items are Traffic, Reports and Admin, in that order, with their paths |
| Sidebar.ActiveIff | apps/shell/src/components/Sidebar.tsx:8-10 | a path is active iff the pathname equals it or continues it after a "/" |
| Sidebar.NoBoundaryNotActive | apps/shell/src/components/Sidebar.tsx:9 | a pathname extending the path without a "/" boundary ("/trafficx") is not active |
| Sidebar.ShorterNotActive | apps/shell/src/components/Sidebar.tsx:9 | a pathname shorter than the path is never active |
| Sidebar.ActivePathsNested | apps/shell/src/components/Sidebar.tsx:9 | two paths active at once are prefixes of one another |
| Sidebar.SidebarLinks | apps/shell/src/components/Sidebar.tsx:21-51 | the Home link comes first, highlighted iff the pathname is "/", then one link per nav item |
| Sidebar.ItemLinks | apps/shell/src/components/Sidebar.tsx:46-51 | one link per nav item in order, to its path with its label, highlighted iff its path is active |
| Sidebar.HomeIsExact | apps/shell/src/components/Sidebar.tsx:25 | whatever the nav items, Home is highlighted iff the pathname is exactly "/"; the prefix rule would also have highlighted it for every path starting with "//" |
| Sidebar.AtMostOneActive | apps/shell/src/components/Sidebar.tsx:46-51 | when no item path is a prefix of another, at most one item is highlighted, and the links' paths (their keys) are distinct |
| Sidebar.PairNotBothActive | apps/shell/src/components/Sidebar.tsx:9 | two paths neither of which extends the other are never active together |
| Sidebar.SecondCharUnrelated | apps/shell/src/components/Sidebar.tsx:46-47 | paths that differ in their second character are unrelated |
| Sidebar.ShownPathsUnrelated | apps/shell/src/components/Sidebar.tsx:46-47 | the three shown paths are unrelated, so at most one shown item is highlighted |
| TrafficService.LoginsMembers | apps/traffic/src/services/githubService.ts:122-123 | a login is counted iff some commit's linked author has it |
| TrafficService.LoginsBound | apps/traffic/src/services/githubService.ts:122-124 | distinct logins never outnumber the commits with an author, nor the commits |
| TrafficService.TrafficStatsOf | apps/traffic/src/services/githubService.ts:122-133 | totals are the list lengths; unique contributors are the distinct logins, at most the commits; last activity is the first commit's non-empty date, else now; recent lists are the first min(10, n) elements |
| TrafficService.EventLabelsDistinct | apps/traffic/src/services/githubService.ts:186-196 | the label table lists each event type once |
| TrafficService.EventColorsDistinct | apps/traffic/src/services/githubService.ts:204-213 | the colour table lists each event type once |
| TrafficService.FormatListedEvent | apps/traffic/src/services/githubService.ts:185-197 | each of the nine listed types gets its table label |
| TrafficService.FormatUnlistedEvent | apps/traffic/src/services/githubService.ts:197 | any other type loses its first "Event" and nothing else, or is unchanged without one |
| TrafficService.FormatSuffixedEvent | apps/traffic/src/services/githubService.ts:197 | an unlisted `<name>Event` shows as `<name>` |
| TrafficService.ColorListedEvent | apps/traffic/src/services/githubService.ts:203-214 | each of the eight listed types gets its table class |
| TrafficService.ColorUnlistedEvent | apps/traffic/src/services/githubService.ts:214 | every other type gets "bg-slate-100 text-slate-800" |
| TrafficService.DeleteEventHasNoColor | apps/traffic/src/services/githubService.ts:186-213 | DeleteEvent has a label but no colour, so it shows the default class |
| TrafficService.KindSegmentInjective | apps/traffic/src/services/githubService.ts:51-53 | the three key segments are distinct |
| TrafficService.QueryKeyInjective | apps/traffic/src/services/githubService.ts:139-180 | two keys are equal iff their kind, owner and repository are, so the traffic-stats key differs from the commits and events keys in its second segment; a hook and its key builder share the key because both are the one function `QueryKey` |
| AdminService.TotalAppend | apps/admin/src/services/githubUsersService.ts:137-140 | the contribution sum of a concatenation is the sum of the parts' sums |
| AdminService.TotalNonNegative | apps/admin/src/services/githubUsersService.ts:137-140 | non-negative contributions have a non-negative sum |
| AdminService.AdminStatsOf | apps/admin/src/services/githubUsersService.ts:137-146 | the count is the list length, the total is the contribution sum, the top list is the first min(20, n) contributors in order, and the org is passed through |
| AdminService.TopWithinTotal | apps/admin/src/services/githubUsersService.ts:137-145 | the top contributors never account for more than the total |
| AdminService.OrgFailureKeepsFigures | apps/admin/src/services/githubUsersService.ts:134-146 | a failed org lookup changes nothing but `orgInfo` |
| AdminService.RoleOf | apps/admin/src/services/githubUsersService.ts:220-234 | Core iff at least 1000, Active iff 100–999, Regular iff 10–99, Contributor iff below 10 |
| AdminService.RoleMonotone | apps/admin/src/services/githubUsersService.ts:220-234 | more contributions never give a lower role |
| AdminService.RoleBadgeInjective | apps/admin/src/services/githubUsersService.ts:224-233 | different roles show different badges |
| AdminService.QueriesApart | apps/admin/src/services/githubUsersService.ts:153-202 | user and org queries run iff the name is non-empty; the four keys never collide; each builder's key determines its owner and repository |
| ReportsService.Shares | apps/reports/src/services/githubRepoService.ts:152-157 | one entry per language with that language's name and bytes, in entry order |
| ReportsService.RepoReportOf | apps/reports/src/services/githubRepoService.ts:150-166 | repo, languages and releases pass through; the total is the byte sum; the shares are `LanguageShares`, one per language, so `LanguageSharesSpec` applies to the report |
| ReportsService.LanguageSharesSpec | apps/reports/src/services/githubRepoService.ts:152-158 | the shares are a permutation of the languages' entries, non-increasing in bytes, with equal byte counts in entry order, and the only such arrangement |
| ReportsService.LanguageSharesEntries | apps/reports/src/services/githubRepoService.ts:152-158 | every language appears among the shares with its bytes, and nothing else does |
| ReportsService.ShareBytesSort | apps/reports/src/services/githubRepoService.ts:158 | sorting keeps the byte sum |
| ReportsService.ShareBytesOfShares | apps/reports/src/services/githubRepoService.ts:150-157 | the shares' bytes add up to the byte total |
| ReportsService.SharesCoverTotal | apps/reports/src/services/githubRepoService.ts:150-166 | the report's shares add up to its `totalBytes` |
| ReportsService.LanguageColorsDistinct | apps/reports/src/services/githubRepoService.ts:247-266 | the colour table lists each language once |
| ReportsService.ColorOfListed | apps/reports/src/services/githubRepoService.ts:246-267 | each of the 18 listed languages gets its colour |
| ReportsService.ColorOfUnlisted | apps/reports/src/services/githubRepoService.ts:267 | every other language gets "#6e7681" |
| ReportsService.RepoReportKeyApart | apps/reports/src/services/githubRepoService.ts:202-215 | the report key is ["github","repo-report",owner,repo], determines its owner and repository, and differs from the repo key |
| NumberFormat.FormatNumber | apps/admin/src/services/githubUsersService.ts:207-215 | "M" iff at least 1,000,000, "K" from 1,000, and below 1,000 the integer text, which reads back to the number |
| NumberFormat.FormatBytes | apps/reports/src/services/githubRepoService.ts:220-228 | " MB" iff at least 1,048,576, " KB" from 1024, and otherwise the integer text then " B" |
| NumberFormat.UnitsMonotone | apps/reports/src/services/githubRepoService.ts:220-241 | a larger number never gets a smaller unit |
| QueryKeys.GitHubKey | apps/traffic/src/services/githubService.ts:170-180 | `[...["github", segment], ...args]` has "github", the segment, then the arguments |
| QueryKeys.GitHubKeyInjective | apps/traffic/src/services/githubService.ts:170-180 | two keys are equal iff their segments and arguments are |
| Records.Lookup | apps/traffic/src/services/githubService.ts:197 | `table[key]` is missing iff no entry has the key |
| Records.LookupEntry | apps/traffic/src/services/githubService.ts:186-197 | with distinct keys, each entry is found under its own key |
| Records.GetEntry | apps/traffic/src/services/githubService.ts:197 | `table[key] \|\| fallback` gives a listed non-empty value |
| Records.GetMissing | apps/traffic/src/services/githubService.ts:197 | `table[key] \|\| fallback` gives the fallback for an unlisted key |
| Records.Take | apps/traffic/src/services/githubService.ts:131 | `slice(0, n)` has min(len, n) elements, each the input's at the same position |
| TrafficHome.TimeAgoOf | apps/traffic/src/pages/TrafficHome.tsx:41-48 | minutes iff under an hour, hours iff one hour to a day, days from a day, each the floor of the elapsed time; a future time gives negative minutes; an invalid date gives "NaN" days |
| TrafficHome.TimeAgoText | apps/traffic/src/pages/TrafficHome.tsx:46-48 | the text ends in the unit letter followed by " ago" |
| TrafficHome.CountText | apps/traffic/src/pages/TrafficHome.tsx:46-48 | `${n}<unit> ago` ends in the unit letter and " ago" |
| TrafficHome.CountTextReadBack | apps/traffic/src/pages/TrafficHome.tsx:46-48 | `parseInt` of the text gives the count back |
| TrafficHome.TimeAgoTextReadBack | apps/traffic/src/pages/TrafficHome.tsx:46-48 | the displayed count reads back to the bucket's count; "NaNd ago" reads as NaN |
| TrafficHome.TimeAgoTextInjective | apps/traffic/src/pages/TrafficHome.tsx:46-48 | different buckets always show different texts |
| TrafficHome.TimeAgoMonotone | apps/traffic/src/pages/TrafficHome.tsx:42-48 | within one unit, a longer elapsed time never shows a smaller count |
| TrafficHome.StatCardsOf | apps/traffic/src/pages/TrafficHome.tsx:135-151 | missing stats show 0, 0, 0 and "N/A"; present stats show their counts, and "N/A" only for an empty last activity |
| TrafficHome.CardsOfFetchedStats | apps/traffic/src/pages/TrafficHome.tsx:135-151 | cards of fetched stats show the list lengths, the distinct authors and a relative time, never "N/A" |
| TrafficHome.ShortSha | apps/traffic/src/pages/TrafficHome.tsx:210 | `sha.slice(0, 7)` is the first min(7, len) characters |
| TrafficHome.DisplayAuthor | apps/traffic/src/pages/TrafficHome.tsx:206 | the GitHub login when present and non-empty, otherwise the git author name |
| TrafficHome.CommitRowOf | apps/traffic/src/pages/TrafficHome.tsx:181-211 | the title is the message up to its first newline, then the author, relative time, short SHA and link |
| TrafficHome.CommitTitleIsHeader | apps/traffic/src/pages/TrafficHome.tsx:203 | the title of "header\nbody" is exactly the header |
| TrafficHome.EventAction | apps/traffic/src/pages/TrafficHome.tsx:261 | the payload action when present and non-empty, otherwise "performed" |
| TrafficHome.EventRowOf | apps/traffic/src/pages/TrafficHome.tsx:241-263 | the badge shows the type's colour and label, then the time, actor, action and repository |
| TrafficHome.UnlistedEventBadge | apps/traffic/src/pages/TrafficHome.tsx:251-252 | an unlisted event type gets the default class and its name without "Event" |
| StableSort.Insert | apps/shell/src/remote-manifest.tsx:94 | inserting adds exactly one element |
| StableSort.SortBy | apps/shell/src/remote-manifest.tsx:94 | the sort is a permutation of its input |
| StableSort.InsertSorted | apps/shell/src/remote-manifest.tsx:94 | inserting into a sorted list keeps it sorted |
| StableSort.InsertWithKey | apps/shell/src/remote-manifest.tsx:94 | an inserted element comes before the equal-key elements already there |
| StableSort.SortByCorrect | apps/shell/src/remote-manifest.tsx:94 | the sort is sorted, a permutation, and keeps the input order of equal keys, as a stable `Array.prototype.sort` does |
| StableSort.StableSortUnique | apps/reports/src/services/githubRepoService.ts:158 | two sorted lists with the same elements for each key, in the same order, are equal, so any stable sort gives this result |
| StableSort.WithKey | apps/shell/src/remote-manifest.tsx:94 | the elements of one key, in order |
| StableSort.WithKeyNonEmpty | apps/shell/src/remote-manifest.tsx:94 | a key with elements occurs in the list |
| StableSort.SameKeyOrderEmpty | apps/shell/src/remote-manifest.tsx:94 | a list with the same per-key elements as another is empty iff the other is |
| Text.UpperChar | scripts/create-domain.mjs:31 | `toUpperCase` on one character: a lowercase letter becomes a capital, anything else is kept |
| Text.LowerChar | scripts/create-domain.mjs:25 | `toLowerCase` on one character: a capital becomes lowercase, anything else is kept |
| Text.TrimStart | scripts/commit-msg.mjs:52 | removes the leading whitespace and nothing more |
| Text.TrimEnd | scripts/commit-msg.mjs:52 | removes the trailing whitespace and nothing more |
| Text.Trim | scripts/commit-msg.mjs:52 | `trim` gives "" iff the text is all whitespace, and otherwise starts and ends with non-whitespace |
| Text.TrimFacts | scripts/commit-msg.mjs:52 | the trimmed text is empty iff the text is blank, and starts where the start-trim does |
| Text.TrimBlank | scripts/commit-msg.mjs:52 | an empty trim means a blank text |
| Text.TrimNonBlank | scripts/commit-msg.mjs:52 | a non-empty trim means a non-blank text |
| Text.TrimIdempotent | scripts/commit-msg.mjs:58 | trimming twice equals trimming once |
| Text.FindFrom | apps/traffic/src/services/githubService.ts:197 | the first match from a position, or none |
| Text.IndexOf | apps/traffic/src/services/githubService.ts:197 | the first match of a pattern, or none |
| Text.ReplaceFirst | apps/traffic/src/services/githubService.ts:197 | `replace` with a string replaces only the first match, or changes nothing when there is none |
| Text.ReplaceFirstCutsMatch | apps/traffic/src/services/githubService.ts:197 | the text is the part before the match, the match, and the part after; the replacement swaps only the match |
| Text.ReplaceAllChar | scripts/create-domain.mjs:437 | a global single-character replacement changes each occurrence and nothing else |
| Text.SplitOn | scripts/commit-msg.mjs:164 | `split` gives at least one piece and no piece contains the separator |
| Text.JoinSplit | scripts/commit-msg.mjs:164-166 | joining the pieces of a split with the same separator gives the text back |
| Text.SplitJoin | scripts/create-domain.mjs:30-32 | splitting a join of separator-free pieces gives the pieces back |
| Text.SplitNoSeparator | scripts/commit-msg.mjs:58 | text without the separator splits into itself |
| Text.SplitAtSeparator | scripts/commit-msg.mjs:58 | the first piece ends at the first separator |
| Text.SplitFirstPiece | scripts/commit-msg.mjs:58 | the first piece is a prefix, followed by the separator unless it is the whole text |
| Text.FirstLine | scripts/commit-msg.mjs:58 | `split("\n")[0]` is the text up to its first newline |
| Text.FirstLineOfLines | scripts/commit-msg.mjs:58 | the first line of "line\nrest" is line |
| Text.DigitChar | apps/traffic/src/pages/TrafficHome.tsx:46 | a digit's character is a digit character |
| Text.DigitValue | apps/traffic/src/pages/TrafficHome.tsx:46 | a digit character's value is below 10 and gives the character back |
| Text.NatToString | apps/traffic/src/pages/TrafficHome.tsx:46 | a natural number's text is non-empty digits without a leading zero |
| Text.IntToString | apps/reports/src/services/githubRepoService.ts:227 | an integer's text starts with "-" iff it is negative |
| Text.NatToStringValue | apps/traffic/src/pages/TrafficHome.tsx:46 | the digits of a number's text have its value |
| Text.LeadingDigits | scripts/create-domain.mjs:50 | `\d+` takes the longest run of digits |
| Text.LeadingDigitsOfDigits | scripts/create-domain.mjs:50 | a digit string is its own leading run |
| Text.LeadingDigitsOfConcat | scripts/create-domain.mjs:50 | the leading run stops at the first non-digit |
| Text.ParseIntOfNumberThen | scripts/create-domain.mjs:97 | `parseInt` of a number's text followed by a non-digit gives that number |
| Text.ParseIntRoundTrip | scripts/create-domain.mjs:97 | `parseInt` of a number's text gives that number |
| Text.ParseIntOfBlank | scripts/create-domain.mjs:97 | `parseInt` of blank text is NaN |

## Left out
- Network I/O is not modelled. This covers every `fetch*` call, the request headers, the non-2xx errors and `Promise.all`. The aggregations take the already-parsed lists, and the organisation lookup's outcome is an `Option`.
- Query caching is not modelled: `useQuery`, staleness, deduplication, `cacheService.ts`, `account.ts` and `AppProviders.tsx`. These delegate to `@tanstack/react-query`, whose code is not part of this model. Each hook is modelled only by its key and its `enabled` switch.
- Module federation, `lazy` loading, `App.tsx` and the bundler configurations are not modelled. A lazy route is modelled by what it resolves to, with the remote's route list as a parameter.
- The remote's page component is an opaque `Component` value; its rendering is not modelled.
- The mocked `trafficService.ts`, the static data of the pages and all JSX and styling are left out. Only the display fallbacks of the traffic page are modelled.
- The commitlint and ESLint configurations are not modelled. commitlint treats a capitalised subject as an error, whereas the hook only warns; the model follows the hook.
- The hook's `main` is modelled only through `CommitMsg.ExitCode` and the comment stripping. Its console output and `printHelp` are left out, and reading the file is a parameter that may be missing.
- The messages the hook prints are modelled as the `CommitMsg.Issue` datatype, with their texts attached by `CommitMsg.IssueTexts`.
- The generator's I/O is not modelled. This covers the readline prompts, the existence check of the app directory (the existing app names are a parameter), the file templates and the textual patching of the shell's files. The config file contents are a list of optional strings, one per app; None stands for an app without a config.
- `CreateDomain.PlanDomain` takes the default port as a parameter, because `getNextAvailablePort` reads the file system. `CreateDomain.NextAvailablePort` computes it from the same config contents.
- `NumberFormat.FormatNumber`: the digits that `toFixed(1)` prints are not modelled, because they need floating-point rounding. A scaled result carries the number, its unit and its suffix.
- `NumberFormat.FormatBytes`: the same holds for the " KB" and " MB" digits. Only the exact " B" text is modelled in full.
- `AdminService.RoleOf`: the numbers are integers. The source's floating-point inputs (a fractional or NaN count) are not modelled.
- `RemoteManifest.EffOrder`: a nav order is an integer in the model. A fractional order such as 99.5, or NaN, is not modelled; in the source 99.5 sorts after the unordered routes.
- `NumberFormat.FormatNumber`: the number is an integer in the model. Fractional and NaN inputs, whose `toString` prints "12.5" or "NaN", are not modelled.
- `NumberFormat.FormatBytes`: the byte count is an integer in the model. Fractional and NaN counts, which `bytes + " B"` prints as "12.5 B" or "NaN B", are not modelled.
- `AdminService.TotalContributions`: contribution counts are integers in the model. Fractional or NaN counts, and the floating-point rounding of the `reduce` sum, are not modelled.
- `ReportsService.TotalBytes`: byte counts are integers in the model. Fractional or NaN counts, and the floating-point rounding of the `reduce` sum, are not modelled.
- `NumberFormat.FormatNumber`: the copy in the reports service, lines 233-241 of its file, is identical and is modelled by the same function.
- `ReportsService.RepoReportOf`: the `percentage` field is not modelled. It is a floating-point `Math.round` and is NaN when the total is 0.
- `ReportsService.LanguageShares`: the entry order of `Object.entries` is taken as the order of the given list. JavaScript's ordering of integer-like keys is not modelled.
- `Records.Lookup`: only the listed keys are modelled. Inherited prototype keys such as "toString" are not, and neither are duplicate keys in a literal.
- `TrafficService.TrafficStatsOf`: the `new Date().toISOString()` fallback is the `now` parameter.
- `TrafficHome.TimeAgoOf`: `new Date()` and date parsing are left out. The elapsed milliseconds are an integer input, and an unparseable date is the `InvalidDate` case, which shows "NaNd ago".
- Date and locale formatting (`formatDate`, `toLocaleTimeString`) are not modelled.
- `Text.UpperChar`: case mapping covers ASCII letters only. Unicode case mapping can change a string's length and is not modelled.
- `Text.LowerChar`: also ASCII letters only.
- `CommitMsg.Validate`: lengths count Unicode scalar values, while JavaScript counts UTF-16 code units. The two differ for characters outside the Basic Multilingual Plane. The same holds for `Text.SplitOn` and `TrafficHome.ShortSha`.
- `Text.ParseIntRoundTrip`: the integers are unbounded. `parseInt` loses precision above 2^53, and that is not modelled.
- `Sidebar.ItemLinks`: a React `key` is modelled only as the link's path, with distinct keys for the shown items. React's reconciliation is not modelled.
