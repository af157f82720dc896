# project-manager, modelled in Dafny

`project-manager` is a command-line tool that keeps git checkouts in a fixed directory
layout and remembers where they are:

- `add` clones `alias:owner/repo` or a full git URL into `<baseDir>/<hostname>/<owner>/<repo>`;
- `scan` walks a directory tree and registers every git working tree it finds;
- `go` finds a registered project by keyword and prints a `cd` command for it;
- `list` shows the registry as a table or as a host / owner tree.

The registry is a cache directory holding one JSON file per host (`<hostname>.json`). Each
file has a list of records `{hostname, owner, repo, path, addedAt}`.

The model has one module per source file, plus three helper modules.

- **Helper modules.**
  - `Wrappers`: `Option` and `Result`.
  - `Strings`: the JavaScript string operations the code relies on. These are `startsWith`,
    `endsWith`, `includes`, ASCII `toLowerCase`, `padEnd` and `trim` with the JavaScript
    whitespace set, plus `path.join` as `a + "/" + b`.
  - `Seqs`: `Array.prototype.filter` with its laws.
- **`Config`** (src/config.ts).
  - Host lookup by alias and by hostname, with first-match semantics.
  - The default configuration, and the shallow merge of a parsed TOML configuration over it.
  - The in-place loop that resolves relative host base directories. This is a method proved
    against a functional specification.
- **`RepoUrl`**: the two regular expressions of src/commands/add.ts and src/commands/scan.ts.
  - `MatchAlias` models `^([^:@]+):([^/]+)\/([^/]+)$`.
  - `ParseUrl` models the unanchored, lazy `(?:https?:\/\/|git@)([^/:]+)[/:]([^/]+)\/([^/]+?)(?:\.git)?$`.
  - Both are proved equivalent to declarative grammars. This includes the leftmost-match
    rule and the laziness that keeps `.git` out of the repository name.
- **`Add`** (src/commands/add.ts).
  - `parseRepoUrl` with its two error paths.
  - `constructGitUrl`, `getTargetDir`, and the choice of clone URL.
  - A round trip: a constructed URL parses back to the identity it was built from.
- **`Cache`** (src/utils/cache.ts).
  - The store is a map from file names to partitions, plus the directory listing order.
  - Pure functions `Save`, `Lookup` and `AllProjects` specify the class `Registry`. The
    class's methods `SaveProjectInfo`, `GetProjectInfo` and `GetAllProjects` update or read
    its fields and are proved against them.
- **`Scan`** (src/commands/scan.ts).
  - The file system is an immutable tree of entries.
  - `WalkDir` states what a depth-bounded walk finds and which exception ends it.
  - The imperative `ScanDirectory` / `ScanEntries` / `ScanEntry` perform the walk over a
    `Registry` and are proved to save exactly the hits of `WalkDir`, in order.
- **`Go`** (src/commands/go.ts): keyword matching, and the empty / none / one / many outcome
  as a datatype.
- **`List`** (src/commands/list.ts).
  - The host and directory filters.
  - The table: column widths, padded lines and alignment.
  - The host / owner tree, built by an imperative grouping loop proved against a functional
    specification. The accumulator is a plain object `{}`, so a hostname or owner such as
    `constructor` or `toString` finds an inherited property there and the `push` throws a
    TypeError. The model has this failure as an outcome of its own.

Where the model takes environment input, that input is a parameter:

- the home directory;
- the parsed configuration file, or its absence;
- the directory tree and the remote URLs;
- the timestamp written into new records;
- the current directory used by `path.resolve`;
- the two display formatters of `list`.

## Model

| member | source | states |
|---|---|---|
| Config.DefaultConfig | src/config.ts:18-32 | the defaults: `<home>/workspace`, then the hosts `github` and `gitlab` in that order, both preferring SSH and with no base directory of their own |
| Config.FindHostByAlias | src/config.ts:69-74 | `None` exactly when no host has the alias; otherwise the first host in table order with that alias |
| Config.FindHostByHostname | src/config.ts:76-81 | `None` exactly when no host has the hostname; otherwise the first host in table order with that hostname |
| Config.FirstHost | src/config.ts:73 | the index `find` stops at: the first whose field equals the value, or none when no entry matches |
| Config.Assign | src/config.ts:50-53 | after assigning a key it looks up to the new value, and the table grows by at most that one key |
| Config.Spread | src/config.ts:50-53 | a key is in `{...base, ...over}` exactly when it is in `base` or in `over` |
| Config.Merge | src/config.ts:47-54 | the merged base directory is the file's when it sets one, else the default; a host key is present exactly when the defaults or the file name it |
| Config.AssignLookup | src/config.ts:50-53 | after assigning key `k`, looking up `k` gives the new value and every other key is unchanged |
| Config.AssignKeys | src/config.ts:50-53 | assigning an existing key keeps the key order; a new key is appended |
| Config.SpreadLookup | src/config.ts:50-53 | in `{...base, ...over}` a key takes its value from `over` when present there, else from `base` |
| Config.SpreadKeys | src/config.ts:50-53 | the keys of `{...base, ...over}`: those of `base` in order, then the new keys of `over` in order |
| Config.LookupAbsent | src/config.ts:50-53 | a key that is not in the table has no value |
| Config.ResolveBaseDir | src/config.ts:34-39 | an absolute directory is kept; a relative one made of plain path segments is placed under a root made of plain segments and ends with the input; the result is absolute when the root is |
| Config.ResolveHost | src/config.ts:57-60 | one host entry: alias, hostname and SSH flag are kept; a missing or empty base directory leaves the entry as it was; a non-empty one stays set, and an absolute one is kept as written |
| Config.Resolved | src/config.ts:56-61 | resolution keeps the root base directory and the host keys in order |
| Config.ResolveHostDirs | src/config.ts:56-61 | the in-place loop leaves exactly the configuration whose host base directories are resolved against the root |
| Config.GetConfig | src/config.ts:41-67 | without a parsed file, the defaults; with one, the resolved merge of the file over the defaults |
| Config.ResolvedHost | src/config.ts:57-60 | the loop keeps every host's key, alias, hostname and SSH flag; it rewrites a non-empty base directory and keeps an empty or missing one |
| Config.GetConfigHost | src/config.ts:47-61 | a host in the merged configuration comes from the file when the file names it, otherwise from the defaults, and its base directory is resolved |
| Config.LookupResolved | src/config.ts:56-61 | looking a key up after resolution is resolving what the key looked up before |
| RepoUrl.MatchAlias | src/commands/add.ts:24-25 | a match is an alias form: a non-empty alias without ':' or '@', then ':', then exactly one '/' between non-empty owner and repository |
| RepoUrl.MatchAliasComplete | src/commands/add.ts:24-25 | every alias form is matched, and its three groups are returned |
| RepoUrl.MatchAliasIff | src/commands/add.ts:24-25 | matching and the alias grammar agree in both directions |
| RepoUrl.MatchRepo | src/commands/add.ts:44 | the repository group is a non-empty segment without '/' |
| RepoUrl.MatchOwner | src/commands/add.ts:44 | the owner group and the repository group, when they match, are non-empty segments without '/' |
| RepoUrl.MatchHost | src/commands/add.ts:44 | the hostname group, when it matches, is a non-empty segment without '/' or ':' and the other groups are segments |
| RepoUrl.MatchTail | src/commands/add.ts:44 | the pattern anchored at a position: every group it returns is a well-formed segment |
| RepoUrl.RepoLayer | src/commands/add.ts:44 | the lazy group: a repository name with an optional `.git` suffix matches as that name |
| RepoUrl.RepoLayerSound | src/commands/add.ts:44 | a matched suffix is the repository name followed by `.git` or by nothing |
| RepoUrl.OwnerLayer | src/commands/add.ts:44 | `owner/rest` matches exactly when `rest` matches as a repository |
| RepoUrl.OwnerLayerSound | src/commands/add.ts:44 | a matched owner part is the text before the first '/' |
| RepoUrl.HostLayer | src/commands/add.ts:44 | a host followed by '/' or ':' matches exactly when the rest matches as `owner/repo` |
| RepoUrl.HostLayerSound | src/commands/add.ts:44 | a matched host is the text before the first '/' or ':' |
| RepoUrl.SchemeLayer | src/commands/add.ts:44 | after `http://`, `https://` or `git@`, the match is the host match of the rest |
| RepoUrl.SchemeLayerSound | src/commands/add.ts:44 | returns the length of the scheme the matched text starts with (one of the three), and the match is the host match of the rest |
| RepoUrl.MatchOwnerSound | src/commands/add.ts:44 | a matched `owner/repo` text is the owner, '/', the repository, and an optional `.git` |
| RepoUrl.MatchHostSound | src/commands/add.ts:44 | a matched host text splits into host, separator, owner, repository and optional `.git` |
| RepoUrl.MatchTailSound | src/commands/add.ts:44 | a match at a position is an instance of the URL grammar |
| RepoUrl.MatchTailComplete | src/commands/add.ts:44 | every instance of the URL grammar is matched, and its groups are returned |
| RepoUrl.MatchUrlAtIff | src/commands/add.ts:44-45 | the match at position `p` and the grammar at `p` agree in both directions |
| RepoUrl.NoMatchPastEnd | src/commands/add.ts:44-45 | no match starts past the end of the text |
| RepoUrl.FindUrlNone | src/commands/add.ts:44-45 | the search from `p` finds nothing exactly when no position from `p` on matches |
| RepoUrl.FindUrlLeftmost | src/commands/add.ts:44-45 | the search from `p` returns exactly the groups of the leftmost matching position |
| RepoUrl.FindUrl | src/commands/add.ts:44-45 | a found identity has a host without '/' or ':' and non-empty owner and repository without '/' |
| RepoUrl.ParseUrl | src/commands/add.ts:44-45 | as `FindUrl`, from the start of the text |
| RepoUrl.ParseUrlIff | src/commands/add.ts:44-45 | `url.match(urlPattern)` succeeds with groups `id` exactly when `id` is the leftmost match; it fails exactly when no position matches |
| RepoUrl.UrlNeedsScheme | src/commands/add.ts:47-49 | a text with neither ':' nor '@' never matches |
| RepoUrl.NoUrlFrom | src/commands/add.ts:44-45 | the position-by-position form of `UrlNeedsScheme` |
| Add.ParseRepoUrl | src/commands/add.ts:22-55 | owner and repository are segments; an alias result carries the host configuration whose hostname it reports; a URL result carries the host configuration looked up by its hostname |
| Add.ParseAliasInput | src/commands/add.ts:24-39 | an alias form with an unknown alias fails with `Unknown alias: <alias>`; with a known one it returns that host's hostname and configuration |
| Add.ParseUnknownAlias | src/commands/add.ts:27-32 | parsing fails with an unknown alias exactly when the input is an alias form whose alias no host has |
| Add.ParseUrlInput | src/commands/add.ts:42-54 | an input that is not an alias form but matches the URL grammar is parsed to those groups, with `isAlias` false |
| Add.ParseInvalid | src/commands/add.ts:47-49 | parsing fails with `Invalid repository URL` exactly when the input is neither an alias form nor contains a URL match |
| Add.ErrorMessage | src/commands/add.ts:30-31 | the two error texts: `Unknown alias: ` followed by the alias, and `Invalid repository URL` |
| Add.ConstructGitUrl | src/commands/add.ts:57-67 | an SSH URL starts with `git@` and an HTTPS URL with `https://`; both end with `/<repo>.git` |
| Add.ConstructGitUrlSplit | src/commands/add.ts:63-66 | the constructed URL is the scheme, the hostname, the separator (':' for SSH, '/' for HTTPS), the owner, '/', the repository and `.git` |
| Add.ConstructGitUrlParses | src/commands/add.ts:57-67 | a constructed URL parses back to the hostname, owner and repository it was built from |
| Add.SshUrlNotAlias | src/commands/add.ts:57-67 | a constructed SSH URL never matches the alias pattern of `parseRepoUrl` |
| Add.HttpsUrlNotAlias | src/commands/add.ts:57-67 | a constructed HTTPS URL never matches the alias pattern of `parseRepoUrl` |
| Add.ConstructGitUrlRoundTrip | src/commands/add.ts:22-67 | `parseRepoUrl(constructGitUrl(h, o, r, ssh))` is the non-alias result for `h`, `o`, `r` |
| Add.HostBaseDir | src/commands/add.ts:77 | the host's own base directory when it sets one; otherwise a path under the root base directory ending with `/<hostname>` |
| Add.TargetDir | src/commands/add.ts:69-79 | for plain path segments: the directory lies under the host's base directory and ends with `/<owner>/<repo>` |
| Add.JoinInjective | src/commands/add.ts:78 | joining a last segment without '/' is injective |
| Add.TargetDirInjective | src/commands/add.ts:69-79 | within one host, different owner / repository pairs made of plain segments get different directories |
| Add.DefaultTargetDirInjective | src/commands/add.ts:77-78 | without a host base directory, different identities made of plain segments get different directories |
| Add.ShouldUseSSH | src/commands/add.ts:109 | SSH is used exactly when a host configuration exists and its `preferSSH` is true |
| Add.CloneUrl | src/commands/add.ts:110-112 | a non-alias input is cloned from the URL as given; an alias clones over SSH exactly when SSH is preferred |
| Add.CloneUrlIdentifies | src/commands/add.ts:102-112 | the clone URL always parses back to the hostname, owner and repository that were parsed |
| Add.AliasExample | src/commands/add.ts:22-39 | `gh:owner/repo` under the defaults resolves to `github.com/owner/repo` |
| Add.AliasCloneExample | src/commands/add.ts:109-112 | its clone URL is `git@github.com:owner/repo.git` |
| Add.TargetDirExample | src/commands/add.ts:69-79 | its directory is `<home>/workspace/github.com/owner/repo` |
| Add.UnknownAliasExample | src/commands/add.ts:30-31 | `unknown:owner/repo` fails with an unknown alias |
| Add.HttpsUrlExample | src/commands/add.ts:66 | the HTTPS URL of `github.com/owner/repo` |
| Add.HttpsExample | src/commands/add.ts:43-54 | `https://github.com/owner/repo.git` parses with the `.git` removed |
| Add.InvalidExample | src/commands/add.ts:47-49 | `invalid-url` is rejected |
| Cache.CacheDir | src/utils/cache.ts:13 | the cache directory lies under the home directory and ends with `/.cache/vpm` |
| Cache.HostCacheFile | src/utils/cache.ts:19-21 | the partition file is the hostname followed by `.json` |
| Cache.HostCacheFileInjective | src/utils/cache.ts:19-21 | two hostnames share a partition file exactly when they are equal |
| Cache.FindIndex | src/utils/cache.ts:36-38 | -1 exactly when no record has the owner and repository; otherwise the first such index |
| Cache.Upsert | src/utils/cache.ts:35-44 | the record is present afterwards; a record for a new repository is appended; otherwise the first record with the same owner and repository is replaced in place |
| Cache.UpsertUnique | src/utils/cache.ts:35-44 | a partition with no repeated owner / repository keeps that property |
| Cache.UpsertIdempotent | src/utils/cache.ts:35-44 | saving the same record twice is saving it once |
| Cache.UpsertKeepsOthers | src/utils/cache.ts:40-44 | every other position of the partition is unchanged |
| Cache.UpsertFindOther | src/utils/cache.ts:36-44 | finding any other repository gives the same record as before |
| Cache.Lookup | src/utils/cache.ts:49-62 | a result exists exactly when the host's readable partition holds the owner and repository, and it is the first such record |
| Cache.Load | src/utils/cache.ts:27-33 | an existing, parseable partition file gives its records; a missing or corrupt file gives the empty list |
| Cache.Save | src/utils/cache.ts:23-47 | saving adds the record's partition file if it was missing, leaves it parsed and holding the record, changes no other file, and only extends the listing |
| Cache.SaveOnlyOwnPartition | src/utils/cache.ts:23-47 | saving writes only the record's own partition file |
| Cache.SaveIntoFresh | src/utils/cache.ts:27-33 | a missing or unreadable partition is replaced by a list holding just the new record |
| Cache.SaveWellFormed | src/utils/cache.ts:23-47 | every partition stays listed, and the listing has no duplicates |
| Cache.SaveThenLookup | src/utils/cache.ts:23-62 | a saved record is what `getProjectInfo` returns afterwards |
| Cache.SaveLookupOther | src/utils/cache.ts:23-62 | saving does not change what any other host / owner / repository looks up to |
| Cache.SaveIdempotent | src/utils/cache.ts:23-47 | saving the same record twice leaves the store as saving it once |
| Cache.SaveAll | src/utils/cache.ts:23-47 | saving records one after another never removes a partition file nor shortens the listing |
| Cache.SaveAllConcat | src/utils/cache.ts:23-47 | saving a sequence of records is saving them one after another |
| Cache.Gather | src/utils/cache.ts:70-76 | a listing without `.json` names contributes nothing |
| Cache.AllProjects | src/utils/cache.ts:64-81 | every returned record comes from a listed, readable `.json` partition file |
| Cache.GatherTruncates | src/utils/cache.ts:68-79 | an unreadable file ends the loop: what follows it in the listing is not returned |
| Cache.GatherConcat | src/utils/cache.ts:70-76 | over readable files, the result for two listing segments is the concatenation of their results |
| Cache.GatherSound | src/utils/cache.ts:70-76 | every returned record comes from a listed, readable `.json` file |
| Cache.SaveConsistent | src/utils/cache.ts:23-47 | saving keeps the store consistent |
| Cache.UniqueConcat | src/utils/cache.ts:74 | joining two project lists with nothing in common and no repeats inside keeps them repeat-free |
| Cache.UniqueReposOfHost | src/utils/cache.ts:36-38 | one host's partition without repeated owner / repository has no repeated project |
| Cache.GatherUnique | src/utils/cache.ts:64-81 | over a consistent store and a listing without duplicates, no project is returned twice |
| Cache.AllProjectsUnique | src/utils/cache.ts:64-81 | `getAllProjects` over a well-formed, consistent store returns every project at most once |
| Cache.Registry.SaveProjectInfo | src/utils/cache.ts:23-47 | the registry's files and listing become `Save` of the old state and the record |
| Cache.Registry.GetProjectInfo | src/utils/cache.ts:49-62 | returns the `Lookup` of the current state |
| Cache.Registry.GetAllProjects | src/utils/cache.ts:64-81 | the loop over the listing returns `AllProjects` of the current state |
| Scan.GitRepoInfo | src/commands/scan.ts:36-58 | no identity when git fails or prints nothing; otherwise the URL parse of the trimmed remote |
| Scan.RemoteWithNewline | src/commands/scan.ts:39-47 | a remote printed with its trailing newline still yields its hostname, owner and repository |
| Scan.Record | src/commands/scan.ts:86-92 | the saved record carries the parsed identity, the joined path and the scan's timestamp |
| Scan.Message | src/commands/scan.ts:105-109 | every level of the exception reads `Error scanning directory <dir>: …` |
| Scan.MessageEndsWithReason | src/commands/scan.ts:105-109 | the message ends with the text of the `readdir` error that started it |
| Scan.Explored | src/commands/scan.ts:77 | an entry is explored only when it is a directory and its name is not on the deny-list of lines 9-20 |
| Scan.WalkDir | src/commands/scan.ts:60-110 | every hit lies strictly below the scanned directory, so the root itself is never registered; a directory deeper than `maxDepth` yields nothing and does not fail; an exception is raised for the scanned directory itself |
| Scan.WalkEntries | src/commands/scan.ts:73-104 | every hit of the entry loop lies strictly below the scanned directory |
| Scan.Visit | src/commands/scan.ts:74-103 | a skipped entry contributes nothing; an explored git working tree contributes exactly its own hit (parsed identity, joined path) when its remote parses, nothing otherwise, and never fails; any other explored directory is walked one level deeper at the joined path; every hit lies below the directory |
| Scan.ScanDirectory | src/commands/scan.ts:60-110 | the hits and the exception are those of `WalkDir`, and the registry ends as saving the hits in order, or unchanged in a dry run |
| Scan.ScanEntries | src/commands/scan.ts:73-104 | the loop's hits and exception are those of `WalkEntries`; the registry holds the hits saved in order |
| Scan.ScanEntry | src/commands/scan.ts:74-103 | one pass of the loop body returns `Visit`'s hits and exception (skip; register exactly the working tree's own hit; or descend one level) and saves those hits unless in dry run |
| Scan.MaxDepth | src/commands/scan.ts:114 | the depth option defaults to 5 |
| Scan.IsDryRun | src/commands/scan.ts:114 | dry run only when the option is true |
| Scan.Scan | src/commands/scan.ts:112-139 | walks from depth 0 under the options' defaults; saves every hit unless in dry run, and fails with the walk's exception |
| Scan.Records | src/commands/scan.ts:84-92 | one record per hit, in hit order, all stamped with the same time |
| Scan.RecordsConcat | src/commands/scan.ts:86-92 | records of concatenated hits are the concatenated records |
| Scan.SkippedEntriesIrrelevant | src/commands/scan.ts:77 | entries that are not directories, or are on the deny-list, do not affect the walk |
| Scan.RepoNotDescended | src/commands/scan.ts:79-99 | nothing under a git working tree affects the walk |
| Scan.WalkDirDepth | src/commands/scan.ts:66-102 | the tree below `maxDepth` does not affect the walk |
| Scan.FailureStopsWalk | src/commands/scan.ts:73-109 | after a failing entry, the rest of the listing is not visited |
| Scan.NestedFailure | src/commands/scan.ts:102-109 | a readable directory fails exactly when a visited entry does, and the error is wrapped once more |
| Scan.WalkDirFailureBelow | src/commands/scan.ts:70-109 | the failing directory is the root or lies below it |
| Scan.WalkDirSound | src/commands/scan.ts:60-110 | every registered hit is a reachable working tree: an explored entry with a `.git` directory and a parseable remote, under a chain of readable, explored directories no deeper than `maxDepth`, at the joined path |
| Scan.WalkEntriesSound | src/commands/scan.ts:73-104 | every hit of the entry loop is reachable through one of the listed entries |
| Scan.VisitSound | src/commands/scan.ts:74-103 | every hit of one entry is that entry itself as a working tree, or reachable below it |
| Scan.WalkDirComplete | src/commands/scan.ts:60-110 | a walk that does not fail registers every reachable working tree |
| Scan.WalkEntriesComplete | src/commands/scan.ts:73-104 | a loop that does not fail registers every working tree reachable through its entries |
| Scan.VisitComplete | src/commands/scan.ts:74-103 | an entry that does not fail registers every working tree reachable through it |
| Scan.WalkDirExact | src/commands/scan.ts:60-110 | a walk that does not fail registers exactly the reachable working trees |
| Scan.WalkEntriesFinds | src/commands/scan.ts:73-104 | what an entry yields is registered as long as no earlier entry failed, even when a later one fails; in particular an explored working tree with a parseable remote is |
| Scan.TrimNewline | src/commands/scan.ts:47 | trimming a URL followed by a newline gives the URL back |
| Scan.Cut | src/commands/scan.ts:66-68 | truncating a tree keeps each entry's name, kind, `.git` marker and remote |
| Go.SearchText | src/commands/go.ts:12-13 | the search text holds the hostname, the owner and the repository, each at its place, separated by one space |
| Go.MatchProject | src/commands/go.ts:8-15 | a project matches exactly when the lower-cased keyword occurs in the lower-cased `hostname owner repo` |
| Go.Matches | src/commands/go.ts:53-55 | exactly the matching projects of the registry |
| Go.MatchesConcat | src/commands/go.ts:53-55 | matching keeps registry order: matching a concatenation is concatenating the matches |
| Go.EmptyKeywordMatchesAll | src/commands/go.ts:12-14 | the empty keyword matches every project |
| Go.MatchIgnoresKeywordCase | src/commands/go.ts:12-14 | lower-casing the keyword first changes nothing |
| Go.FieldMatch | src/commands/go.ts:12-14 | a keyword found in the hostname, owner or repository matches the project |
| Go.CrossFieldExample | src/commands/go.ts:12-14 | `user1 my` matches `github.com user1 my-repo` across the field boundary |
| Go.CdCommand | src/commands/go.ts:26-30 | the command is `cd "` + path + `"`, from which the path can be read back |
| Go.ExitCode | src/commands/go.ts:57-64 | exit code 1 exactly for the no-match outcome |
| Go.Go | src/commands/go.ts:41-102 | an empty registry warns; no match over a non-empty registry lists all projects and exits 1; one match navigates to it; several offer exactly the matches |
| Go.Select | src/commands/go.ts:93-96 | the emitted command names the chosen candidate's path |
| Go.MatchesSingleton | src/commands/go.ts:53-55 | when only one project matches, the matches are exactly that project |
| Go.NoneMatch | src/commands/go.ts:53-57 | when no project matches, the matches are empty |
| Go.SingleMatchNavigates | src/commands/go.ts:66-72 | a single matching project gives its `cd` command without a prompt |
| Go.AllMatch | src/commands/go.ts:53-55 | when every project matches, the matches are the whole registry |
| Go.AllMatchChoose | src/commands/go.ts:73-97 | two or more projects that all match are all offered, in order |
| Go.ManyMatchesExample | src/commands/go.ts:73-97 | `repo` matches `my-repo` and `his-repo`, and both are offered |
| Go.CaseInsensitiveExample | src/commands/go.ts:8-15 | `myrepo` finds `MyRepo` and navigates to its path |
| List.HostFilter | src/commands/list.ts:146-148 | an absent or empty host option keeps everything; otherwise exactly the records with that hostname |
| List.DropTrailingSlashes | src/commands/list.ts:150 | the result is a prefix of the input, only '/' characters are cut, the first character is kept, and a result longer than `/` does not end with '/' |
| List.ResolveDir | src/commands/list.ts:150 | `path.resolve(dir)`: an absolute directory, or a relative one joined under the current directory, with its trailing slashes dropped |
| List.TrailingSlashIgnored | src/commands/list.ts:150 | `--dir /a/b/` resolves to the same directory as `--dir /a/b` |
| List.DirFilter | src/commands/list.ts:149-154 | an absent or empty dir option keeps everything; otherwise exactly the records whose path starts with the resolved directory |
| List.Selected | src/commands/list.ts:145-154 | exactly the records that pass both filters |
| List.SelectedIsFilter | src/commands/list.ts:145-154 | the two filters compose into one order-preserving filter by their conjunction |
| List.DirPrefixExample | src/commands/list.ts:150-153 | the prefix test compares strings, not path components: `/a/bc` passes for `--dir /a/b` and for `--dir /a/b/` |
| List.Keep | src/commands/list.ts:145-154 | a project is kept exactly when it passes the host filter and the directory filter |
| List.Rows | src/commands/list.ts:74-80 | one row per project, with its cells in column order |
| List.ColumnWidth | src/commands/list.ts:39-58 | at least the label and every cell, and equal to one of them |
| List.ColumnWidthOf | src/commands/list.ts:39-58 | the width of one column over the header and the rows |
| List.TableWidths | src/commands/list.ts:39-58 | every row and the header fit; each width is the header label's length or some cell's length |
| List.Padded | src/commands/list.ts:74-80 | five cells, each starting with its text and at least as wide as its column |
| List.Line | src/commands/list.ts:61-80 | a line is never narrower than the five widths and the separators, and starts with its first cell's text |
| List.LineLayout | src/commands/list.ts:74-80 | in a line whose cells fit, each cell's text starts at its column: the widths of the cells before it plus two per separator |
| List.LineLength | src/commands/list.ts:74-80 | a line whose cells fit is exactly as wide as the five widths plus the four two-space separators |
| List.JoinFive | src/commands/list.ts:74-80 | five joined cells of known widths: the line's length, and where each cell's text begins |
| List.JoinCellsAt | src/commands/list.ts:74-80 | `join('  ')` (modelled by `JoinCells`) places each cell intact two characters after the previous one ends |
| List.JoinCellsLength | src/commands/list.ts:74-80 | the line `JoinCells` builds ends where its last cell ends |
| List.Rule | src/commands/list.ts:70 | the rule under the header is as long as the header and made of `─` |
| List.TableLines | src/commands/list.ts:28-84 | the header line, a rule exactly as long as the header, then one line per project in order, all with the same widths |
| List.BodyLines | src/commands/list.ts:73-83 | one line per row, in row order, each laid out with the table's widths |
| List.TableAligned | src/commands/list.ts:61-83 | the header, the rule and every row have the same length |
| List.GroupOf | src/commands/list.ts:97-122 | a group holds exactly the records with its key |
| List.GroupOfIsFilter | src/commands/list.ts:97-122 | a group keeps the input order: it is the filter of the input by its key |
| List.GroupOfAbsent | src/commands/list.ts:99-101 | a key that never occurs has no group |
| List.GroupKeys | src/commands/list.ts:97-109 | the group keys have no duplicates and are exactly the keys that occur in the input |
| List.GroupKeysPrefix | src/commands/list.ts:97-109 | groups come in order of first appearance: the keys of any prefix are a prefix of the keys |
| List.GroupMapSpec | src/commands/list.ts:97-106 | the accumulator holds exactly the keys that occur, each with the group `GroupOf` describes |
| List.NoClash | src/commands/list.ts:98-103 | when no key of the accumulator is an inherited property, no project's key is one |
| List.GroupBy | src/commands/list.ts:97-122 | the `reduce` throws exactly when some key is an inherited property of its accumulator; otherwise it builds the keys in first-appearance order and each key's group, as `GroupKeys` and `GroupMap` |
| List.BuildOwnerGroups | src/commands/list.ts:113-124 | the owner level of one host, as `OwnerGroups`; it fails exactly when an owner is an inherited property of a plain object |
| List.BuildHostGroup | src/commands/list.ts:109-124 | one host's subtree, as `HostGroupOf`; it fails exactly when one of its owners is an inherited property |
| List.BuildTree | src/commands/list.ts:97-135 | the tree `printTree` prints, as `Tree`; it throws exactly when a hostname or an owner is an inherited property such as `constructor` or `toString` |
| List.OwnerThrowsInHost | src/commands/list.ts:113-122 | a failing owner grouping inside one host makes the tree throw |
| List.NoOwnerThrows | src/commands/list.ts:109-122 | when no host's owner grouping fails, no owner of the input is an inherited property |
| List.OwnerGroups | src/commands/list.ts:113-124 | one owner group per owner key, in order |
| List.Tree | src/commands/list.ts:97-124 | one host group per host key, in order |
| List.TreeSound | src/commands/list.ts:97-135 | every project in the tree is an input project under its own hostname and owner |
| List.TreeComplete | src/commands/list.ts:97-135 | every input project appears in the tree |
| List.TreeUnique | src/commands/list.ts:97-135 | and in exactly one host group and one owner group |
| List.TreeLeafOrder | src/commands/list.ts:97-135 | within an owner group, projects keep their input order |
| List.ListProjects | src/commands/list.ts:138-172 | an empty selection only warns; otherwise the count and the table (the default format), or the tree of the selection; the tree form fails, and the error is rethrown, exactly when grouping the selection throws |
| Strings.Includes | src/commands/go.ts:14 | `includes` holds exactly when the pattern occurs at some position |
| Strings.PadEnd | src/commands/list.ts:62-66 | `padEnd` keeps the text as a prefix, pads to the width and never truncates |
| Strings.TrimStart | src/commands/scan.ts:47 | only leading whitespace is removed, and the result does not start with whitespace |
| Strings.TrimEnd | src/commands/scan.ts:47 | only trailing whitespace is removed, and the result does not end with whitespace |
| Strings.ToLower | src/commands/go.ts:13-14 | lower-casing keeps the length |
| Strings.ToLowerLowers | src/commands/go.ts:13-14 | lower-casing leaves no upper-case ASCII letter and changes no other character |
| Strings.Trim | src/commands/scan.ts:47 | `trim` never lengthens its input, and a non-empty result neither starts nor ends with whitespace |
| Strings.TrimSlice | src/commands/scan.ts:47 | what `trim` keeps is the slice of the input that starts right after the leading whitespace |
| Strings.TrimCutsWhitespace | src/commands/scan.ts:47 | everything `trim` cuts after the slice it keeps is whitespace |
| Strings.TrimTrailing | src/commands/scan.ts:47 | trimming removes added trailing whitespace and nothing else |
| Seqs.Filter | src/commands/go.ts:53-55 | the kept elements are exactly those satisfying the test |
| Seqs.FilterConcat | src/commands/go.ts:53-55 | filtering distributes over concatenation, so order is kept |
| Seqs.FilterFilter | src/commands/list.ts:145-154 | filtering twice is filtering once by the conjunction |
| Seqs.FilterOnly | src/commands/go.ts:53-55 | when exactly one element passes, the filter keeps that element alone |
| Seqs.FilterNone | src/commands/go.ts:53-57 | when no element passes, the filter keeps nothing |

## Left out

- `add()` itself is not modelled: it sequences I/O. Its parse, target-directory and clone-URL
  steps are modelled; the clone, `mkdir`, progress output and the `dryRun` skip of `mkdir` are not.
- Reading `~/.lgrm.toml` and parsing TOML are not modelled. The parsed file is an optional input
  (`None` for any failure, which returns the defaults). Parsed host entries are assumed to have
  all their required fields.
- The logger, `chalk` colouring, the `commander` wiring (src/index.ts), `inquirer`,
  `clipboardy`, `process.stdout.write` and `process.exit` are not modelled. What `go` ends in
  is the `GoOutcome` datatype.
- List.TreeOut: the model returns the tree `printTree` prints, not its indented, coloured text
  lines. When the tree form fails, the lines printed before the TypeError are not modelled.
- `formatDate` and `formatPath` are passed in as opaque functions. Locale date formatting and
  `path.relative` are not modelled.
- `path.join` and `path.resolve` are concatenation with `/` (`path.resolve` also drops trailing
  slashes) and do not normalise `..`, `.` or duplicate slashes. The path claims are therefore stated only for plain segments (non-empty,
  not `.` or `..`, no `/`), where the real `path.join` does not normalise either.
  `os.homedir()` and the current directory are parameters.
- Add.TargetDir: its placement claim, and the injectivity of Add.TargetDirInjective and
  Add.DefaultTargetDirInjective, hold only for plain segments. The real `getTargetDir`
  normalises other segments: `gh:../evil` clones into `<baseDir>/evil`, outside the host
  directory. It also maps different identities to one directory, for example owner / repository
  `o` / `.` and `.` / `o`, or `x` / `..` and `y` / `..`.
- List.DirFilter: `path.resolve(dir)` is modelled as joining under the current directory and
  dropping trailing slashes (`--dir /a/b/` filters like `--dir /a/b`). The other normalisations of
  `path.resolve` are not modelled: a `.` or `..` segment or a doubled `/` inside the option
  (`--dir /a/./b`, `--dir /a/x/../b`, `--dir /a//b`) is compared verbatim, so the model keeps fewer
  projects than the program does for such options.
- Config.ResolveBaseDir: the claim that a relative directory lands under the root holds only for
  plain segments; a relative `../x` escapes the root in the real `path.join`.
- List.ColumnWidth: widths are counted in characters, while JavaScript's `length` counts UTF-16
  code units. The two agree only on the Basic Multilingual Plane. An emoji in a cell counts as
  2 in the source and 1 in the model.
- Strings.PadEnd: `padEnd` pads to a width in characters rather than in UTF-16 code units, for
  the same reason.
- List.TableAligned: alignment is proved for character counts. For text outside the Basic
  Multilingual Plane the source measures code units, and alignment on screen depends on the
  terminal in any case.
- The file system is an immutable tree. Real `fs.stat` / `readdir` / `readFile` /
  `writeFile`, `ensureCacheDir` and symbolic links are not modelled; a symbolic link is only an
  entry whose directory flag is false. The `readdir` order of the cache directory is an
  input sequence, and a newly created partition file is appended to it.
- JSON is not modelled: a partition is parsed records or `Corrupt`. A file holding valid JSON
  that is not an array is not modelled.
- Case folding is ASCII only. Full Unicode `toLowerCase` is not modelled.
- `Object.entries` / `Object.values` are taken in insertion order. Integer-like keys, which
  JavaScript orders first, are not modelled.
- The `foundRepos` counter in `scan` is never incremented, so its summary always reports 0
  repositories. It is output text only and is not modelled.
- async/await is not modelled: every await in the core is sequential.
- One timestamp `now` stands for every `new Date().toISOString()` of a scan.
- Scan.ScanEntry: an exception thrown by `saveProjectInfo` during a scan is not modelled. Neither
  is a failure of `git` other than a missing remote: both give no identity.
- Cache.HostCacheFile: a hostname containing `/` would name a file in a subdirectory. The
  model treats the file name as the hostname followed by `.json`.
- The code and its tests disagree on `go`. tests/go.test.ts expects `process.chdir` to be called
  with the project path, but src/commands/go.ts only prints `cd "<path>"` (and copies it to the
  clipboard). The model follows the code.
- src/commands/scan.ts calls `logger.group`, which src/utils/logger.ts does not define. The
  model assumes the group runs its callback.
- src/commands/list.ts:70 shows the rule character as mis-decoded bytes (`â”€`). The model uses
  the character those bytes encode, `─` (U+2500). If the file really holds the three characters
  `â”€`, the program prints a rule three times as long as the header, and the rule clause of
  List.TableAligned holds only for the substituted `─`.
