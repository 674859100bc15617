# js.org cleanup: the cnames_active registry engine

The js.org cleanup bot works on `cnames_active.js`, the file that maps every
js.org subdomain to its target. This project models the core of that bot:

- reading the file into a registry of entries;
- writing a perfectly formatted file back;
- probing every subdomain over HTTP and HTTPS;
- contacting the owners of failing GitHub Pages targets;
- rendering the cleanup issue list and reading it back;
- deciding the two pull requests, one for formatting and one for removal.

The bot exists in three generations, and each is modelled:

- the current code (`src/util`, `src/robot`);
- the older `src` code;
- the first version at the repository root.

Their differences become parameters (`Probe.Version`, `Legacy.Dialect`) or
separate members.

A JavaScript object used as a dictionary is `JsObjects.JsObject`. It keeps
the enumeration order of `for…in` and `Object.keys`: array-index keys
first, in ascending numeric order, then every other key in insertion order.
An entry is `Entries.Entry`, the `cnameObject` record of src/util/types.js.
A registry is an object of entries.

Regular expressions are written out as recognisers over `seq<char>`, such
as `Grammar.MatchEntry`, `Legacy.Exec` and `Github.Exec`. Each recogniser
follows the expression's own choices: the leftmost match, greedy or lazy
groups as written, and `/i` as ASCII case folding. There is no separate
regular-expression semantics to compare them with. What is proved is that
the recognisers make those choices: `Legacy.ExecIsLeftmost` (leftmost
start), `Grammar.ValueEndGreedy`, `Legacy.ValueCloseIsLast`,
`Legacy.KeyCloseIsLast` and `Github.LastOwnerEnd` (greedy groups), and
`Github.FirstOwnerStart` (leftmost start with the longest owner).

Loops in the source are methods with loop invariants. Each method is proved
equal to a specification function, and the properties are lemmas about that
function. Examples:

- `Validate.ProbeAll` with `Validate.Run`;
- `Issues.AttemptTargetIssues` with `Issues.ContactFrom`;
- `Generate.SortKeys`, an in-place insertion sort on an array.

The network, the GitHub API and the cache files are inputs:

- how each request ends (`Validate.Network`);
- what `octokit.issues.create` returns (`Issues.Creator`);
- the body of an issue (`fetch`);
- the cached objects (`Option` values).

Each operation returns what it would write or propose.

## Model

| member | source | states |
|---|---|---|
| JsObjects.Set | src/util/cnames.js:92-95 | `o[k] = v` sets the value, keeps the key order for an existing key, and appends a new non-index key at the end of the order |
| JsObjects.Delete | src/cnames.js:199-201 | `delete o[k]` removes exactly `k`; every other entry is unchanged |
| JsObjects.Spread | src/robot/issues.js:121 | `{...a, ...b}` holds the entries of both objects, and `b` wins where they share a key |
| JsObjects.KeysAreTheDomain | src/util/cnames.js:131 | `Object.keys` lists every key exactly once and nothing else |
| JsObjects.AssignKeys | src/cnames.js:80-85 | assigning pairs in turn gives exactly the assigned names as keys |
| JsObjects.AssignLastWins | src/cnames.js:80-85 | a key holds the value of its last assignment |
| JsObjects.DecimalValueInjective | src/util/cnames.js:131 | two array-index keys with the same numeric value are the same key, so the index run of the key order is unambiguous |
| Text.Lower | src/util/cnames.js:55 | `toLowerCase` on ASCII letters: the length is kept and each character is mapped on its own |
| Text.SplitJoin | src/util/cnames.js:20 | splitting, at `\n`, a join of pieces without `\n` gives the pieces back |
| Text.JoinSplit | src/util/cnames.js:33 | joining the pieces of `split('\n')` at `\n` gives the text back |
| Text.TrimPadded | src/util/cnames.js:84 | `trim` of spaces, a word and a comment keeps the word and the comment without its trailing whitespace |
| Text.LexLeTotal | src/util/cnames.js:132 | the order `sort` uses relates any two keys |
| Text.LexLeAntisymmetric | src/util/cnames.js:132 | two keys each ordered before the other are equal |
| Text.LexLeTransitive | src/util/cnames.js:132 | the order `sort` uses is transitive |
| Grammar.MatchedFields | src/util/cnames.js:42 | a key matched by the entry pattern holds only `[a-z0-9-_.]` characters (any case), and the value holds no `"` |
| Grammar.ValueEnd | src/util/cnames.js:42 | the end the greedy `([^"]*)['"]` picks lies in the searched range, is a quote, and the rest of the line after it matches the tail |
| Grammar.ValueEndGreedy | src/util/cnames.js:42 | that end is the largest such quote, and when none is picked no quote in the range is followed by a matching tail |
| Grammar.MatchTail | src/util/cnames.js:42 | the optional third group of the entry pattern, when present, starts with `//` |
| Grammar.NormaliseKey | src/util/cnames.js:55-58 | a normalised key has no upper-case letter |
| Grammar.DropTrailingSlashes | src/util/cnames.js:61 | the result is a prefix of the target that does not end in `/` |
| Grammar.DropProtocol | src/util/cnames.js:64-65 | the result is a suffix of the target |
| Grammar.RenderedMarker | src/util/cnames.js:84 | a present marker group is rendered, and an absent or empty one gives no tag |
| Grammar.RenderMarker | src/util/cnames.js:84 | a rendered marker starts with `// noCF` |
| Grammar.RenderMarkerKeepsComment | src/util/cnames.js:84 | a marker `//`, spaces, `nocf` in any case and a comment renders as `// noCF` followed by the comment without its trailing whitespace |
| Grammar.RenderMarkerCanonical | src/util/cnames.js:84 | a marker the generator wrote renders unchanged |
| Grammar.NoCFForced | src/util/cnames.js:86-90 | sub-sub-domains and the Vercel target always get a marker, a present marker is kept, and no other entry gets one |
| Grammar.DropPathLeavesPages | src/util/cnames.js:72-74 | after the path rule, a path remains only for a GitHub Pages project |
| Grammar.PagesFolded | src/util/cnames.js:72 | being a GitHub Pages project path does not depend on case |
| Grammar.LowerHostKeeps | src/util/cnames.js:80-81 | lowering the host keeps the target free of a trailing `/` and of non-Pages paths, and leaves no upper-case letter in the host |
| Grammar.VercelKeeps | src/util/cnames.js:77 | the Vercel rewrite keeps the target's shape invariants |
| Grammar.NormaliseTargetShape | src/util/cnames.js:61-81 | every normalised target has no trailing `/`, a lower-case host, and a path only when it is a GitHub Pages project |
| Parse.FindVarLine | src/util/cnames.js:23-29 | the first line that is exactly the declaration (trailing blanks allowed), or -1 exactly when there is none |
| Parse.FindClosingLine | src/util/cnames.js:32-39 | the first line after the declaration where the closing comment and `}` begin, or -1 exactly when there is none |
| Parse.ParseCNAMEsFile | src/util/cnames.js:16-101 | the method returns the parse that `Parse.Parse` defines: null without a declaration or a closing, otherwise the lines strictly between them read in order |
| Parse.ReadRange | src/util/cnames.js:44-96 | the line loop builds the object that `Parse.ReadLines` specifies |
| Parse.ReadWarnings | src/util/cnames.js:48-51 | a 1-based line number is warned about exactly when its line does not match, and warnings come in line order |
| Parse.ReadKeys | src/util/cnames.js:44-96 | the keys read are exactly the keys of the lines that match |
| Parse.ReadLastWins | src/util/cnames.js:92-95 | when several lines give the same key, the last of them wins |
| Parse.ReadAll | src/util/cnames.js:44-96 | lines that all match, with no key repeated, give exactly their records and no warning |
| Parse.ParseLineShape | src/util/cnames.js:54-95 | every record read is a `{ target, noCF }` record with a lower-case key, and has a marker whenever the key has a dot or the target is Vercel's |
| Generate.FindBlock | src/util/cnames.js:114-119 | one `exec` of the lazy block pattern: the match starts at the first `/*` and ends at the first `*/` after it, or there is none |
| Generate.CommentBlocks | src/util/cnames.js:114-119 | every block found starts with `/*`, ends with `*/` and is at least five characters long |
| Generate.ExtractBlocks | src/util/cnames.js:114-119 | the `exec` loop collects exactly the blocks `Generate.CommentBlocks` defines |
| Generate.SortSeq | src/util/cnames.js:132 | the sorted keys are in order and are a permutation of the input |
| Generate.SortedUnique | src/util/cnames.js:132 | a sorted arrangement of given strings is unique, so `sort` has one possible result |
| Generate.SortKeys | src/util/cnames.js:132 | the in-place sort leaves the array sorted and a permutation of what it held |
| Generate.SortedKeyArray | src/util/cnames.js:131-132 | `Object.keys` copied into an array and sorted gives `Generate.SortedKeys` |
| Generate.SortedKeys | src/util/cnames.js:131-132 | the keys in ascending order, each once, and exactly the keys of the registry |
| Generate.EntryLines | src/util/cnames.js:136-140 | one line per key in key order, with the comma left off only on the last line |
| Generate.EntryList | src/util/cnames.js:135-140 | the `push` loop builds exactly `Generate.EntryLines` |
| Generate.GenerateCNAMEsFile | src/util/cnames.js:109-148 | the method returns the text that `Generate.GenerateText` defines |
| Generate.GenerateAborts | src/util/cnames.js:122-127 | generation returns null exactly when the reference text has fewer than two comment blocks |
| Generate.GeneratedOrder | src/util/cnames.js:131-140 | the entry lines name every key exactly once, in strictly ascending order |
| Generate.GenerateReadsRecords | src/util/cnames.js:136-143 | only each entry's target and noCF tag reach the text |
| Regenerate.GeneratedBlocks | src/util/cnames.js:143 | the first two comment blocks of a generated text are the header and footer it was built from |
| Regenerate.GeneratedKeepsBlocks | src/util/cnames.js:114-143 | a generated text has the same two comment blocks as its reference file |
| Regenerate.LayoutLines | src/util/cnames.js:143 | the lines of a generated text are the header's lines, a blank line, the declaration, the entries, the footer's lines, `}` and an empty last line |
| Regenerate.FooterCloses | src/util/cnames.js:33 | the indented footer followed by `}` is where the parser finds the closing |
| Regenerate.ParsedLayout | src/util/cnames.js:23-39 | when at least one entry line is laid out and no line of the header comment is the `var cnames_active = {` declaration, parsing a laid-out text starts right after the declaration and stops right before the footer: exactly around the entry lines |
| Regenerate.ParseOfGenerated | src/util/cnames.js:16-101 | for a non-empty registry of canonical entries and a reference whose header comment has no line that is the declaration, parsing a text generated from canonical entries reads every entry back as its `{ target, noCF }` record and warns about no line |
| Regenerate.RegenerateIsIdentity | src/util/cnames.js:16-148 | for a non-empty registry of canonical entries and a reference whose header comment has no line that is the declaration, generating from the parse of a generated file, with that file as reference, reproduces it byte for byte |
| Regenerate.GenerateFromRecords | src/util/cnames.js:131-143 | generating from the records a text was generated from, with that text as reference, gives the text |
| RoundTrip.LineMatches | src/util/cnames.js:42 | a generated entry line matches the entry pattern, with the key, target and tail that were written |
| RoundTrip.TailReadsBack | src/util/cnames.js:42 | the tail after the closing quote gives back the marker that was written |
| RoundTrip.MarkerReadsBack | src/util/cnames.js:84 | re-rendering a marker the generator wrote gives it back |
| RoundTrip.NoCFReadsBack | src/util/cnames.js:84-90 | re-deriving the noCF tag of a canonical entry gives back its own tag |
| RoundTrip.EntryLineReadsBack | src/util/cnames.js:139 | every generated line of a canonical entry parses back to that entry's key, target and marker |
| Legacy.Exec | src/cnames.js:77-80 | one `exec` from `lastIndex`: a match ends after `lastIndex`, within the text, and its groups are well formed |
| Legacy.ExecIsLeftmost | src/cnames.js:77-80 | no match starts between `lastIndex` and the match found, and null means that no later start matches |
| Legacy.ValueCloseIsLast | src/cnames.js:77 | the greedy `(.*)` of the value ends at the last quote on the line after which the tail matches |
| Legacy.KeyCloseIsLast | src/cnames.js:77 | the greedy `(.*)` of the key ends at the last quote after which the rest of the pattern matches |
| Legacy.GetCNAMEs | src/cnames.js:57-93 | a cached registry is returned as it is; otherwise the object the `exec` loop builds, as `Legacy.Scan` defines |
| Legacy.ScanAssigns | src/cnames.js:80-85 | the loop stores the matches in the order `exec` finds them |
| Legacy.ScanLastWins | src/cnames.js:80-85 | the registry has exactly the matched keys, each with the value and comment of its last match |
| Legacy.MarkedStored | src/cnames.js:81-84 | src/cnames.js stores the value verbatim, renders a matched `// nocf` group, and stores no tag without one |
| Legacy.MarkedComment | src/cnames.js:83 | the stored tag of a marked line is `// noCF` and the comment after the tag, trimmed at its end |
| Legacy.RawStored | cnames.js:49-56 | the root reader stores the value verbatim and keeps the text after the value, from its first non-blank, as the noCF tag |
| Legacy.LoweredEntries | src/cnames.js:131 | `Object.entries(…).map(…)` gives one pair per key, in key order, with the key lowered and the entry unchanged |
| Legacy.LowerKeysNames | src/cnames.js:131 | the lowered registry has exactly the lowered names as keys |
| Legacy.LowerKeysLastWins | src/cnames.js:131 | keys equal up to case collapse into one, which holds the entry of the last of them in key order |
| Legacy.LowerKeysAgree | src/cnames.js:131 | lowering keys that are already lower case keeps every entry |
| Legacy.GenerateCNAMEsFile | src/cnames.js:101-149 | the src generator lays out the registry with lowered keys exactly as the current generator does |
| Legacy.LowercaseGeneratesAsCurrent | src/cnames.js:131-144 | for a registry whose keys are already lower case, the src generator and the current one write the same text |
| Probe.DecimalStringValue | src/cnames.js:169 | the status rendered by `${resp.status}` reads back as the number |
| Probe.TestUrl | src/cnames.js:156-178 | a failure is reported as a non-empty reason |
| Probe.PassesIffAccepted | src/cnames.js:156-178 | a probe passes exactly when every check holds |
| Probe.EmptyBodyIsWhitespace | src/cnames.js:175 | a body is empty after `toLowerCase().trim()` exactly when it is all whitespace |
| Probe.TimeoutReasonCheck | src/cnames.js:163 | the timeout reason is recognised as a timeout |
| Probe.RequestReasonCheck | src/cnames.js:164 | a request-error reason is recognised as a request failure |
| Probe.StatusReasonCheck | src/cnames.js:168-170 | a status reason is recognised as a bad status |
| Probe.RedirectReasonCheck | src/cnames.js:171-173 | a redirect reason is recognised as a foreign redirect |
| Probe.EmptyBodyReasonCheck | src/cnames.js:175-177 | an empty-body reason is recognised as an empty body |
| Probe.ReasonNamesFirstFailure | src/robot/cnames.js:54-79 | a failed probe's reason names the first check that failed, and every earlier check passed |
| Probe.StrictnessOrder | src/robot/cnames.js:69-73 | what src/cnames.js passes the robot passes, and what the robot passes the root version passes |
| Probe.ApexRedirect | src/robot/cnames.js:70-71 | a redirect to the apex `https://js.org` fails src/cnames.js and passes the robot |
| Probe.RootIgnoresBody | cnames.js:72-85 | the root version reports only request errors and bad statuses: `!resp.text()` tests a promise |
| Probe.ProbeUrl | src/robot/cnames.js:114-116 | the URLs are `http(s)://<k>.js.org`, and the apex key gives `http(s)://js.org` with no leading dot |
| Probe.ProbeUrlInjective | src/robot/cnames.js:114-116 | different subdomains are probed at different URLs |
| Validate.Judged | src/robot/cnames.js:132-151 | a failure records both reasons and `failed = true`, a success only `failed = false`; target, noCF, issue and contact are unchanged |
| Validate.Result | src/robot/cnames.js:119-124 | a cached key takes its cached entry, any other key a fresh verdict |
| Validate.ProbeAll | src/robot/cnames.js:106-155 | the probing loop computes the tests, cache writes and failure count that `Validate.Run` defines |
| Validate.ProbeEntry | src/robot/cnames.js:128-151 | both probes of a subdomain and the entry updated with their verdict |
| Validate.Partition | src/robot/cnames.js:158-165 | the split loop computes the `failed`/`passed` pair that `Validate.Split` defines |
| Validate.SplitFailed | src/cnames.js:260-267 | `failed` holds the keys with a truthy `failed` flag, each with its entry unchanged |
| Validate.SplitPassed | src/cnames.js:260-267 | `passed` holds the other keys, each with its entry unchanged |
| Validate.DeleteAll | src/cnames.js:198-201 | deleting each key of a list leaves exactly the other keys, with their entries |
| Validate.DevRestrict | src/cnames.js:197-202 | the development restriction loop computes `Validate.Restricted` |
| Validate.FirstTenRemain | cnames.js:106-111 | with the development flag set, exactly the first ten keys in key order remain, with their entries |
| Validate.ValidateCNAMEs | src/cnames.js:185-270 | `validateCNAMEs` of src/cnames.js and src/robot/cnames.js: the split of the run over the restricted registry, with its cache writes and failure count |
| Validate.ValidateCNAMEsRoot | cnames.js:91-177 | the root `validateCNAMEs` fails an entry only when both probes fail, and returns only `failed` |
| RunFacts.StepRecords | src/cnames.js:221-253 | one turn records the result for its key and changes no other entry |
| RunFacts.RunValues | src/cnames.js:208-257 | the run gives every key from its position on its result |
| RunFacts.RunCounts | src/cnames.js:205-257 | the failure counter grows by the failed keys, and the cache is written once per key the cache did not hold |
| RunFacts.RunWritesAgree | src/cnames.js:255-256 | each cache write is the results recorded so far |
| RunFacts.AgreeingCacheSameResults | src/cnames.js:221-226 | a cache whose entries agree with a fresh run gives every key the fresh run's result |
| RunFacts.ResumeFromWrite | src/cnames.js:221-256 | a run resumed from any cache write of an uninterrupted run records the same tests and counts the same failures |
| RunFacts.PartitionExact | src/cnames.js:260-267 | `failed` holds exactly the validated keys with a truthy flag and `passed` the others, each with its validated entry |
| RunFacts.PartitionCovers | src/robot/cnames.js:158-167 | the two parts are disjoint and together hold every validated key |
| RunFacts.ValidationVerdicts | src/robot/cnames.js:86-168 | every key ends in `failed` exactly when its recorded result is a failure, and in `passed` otherwise |
| RunFacts.FailedPartIsFailing | cnames.js:169-176 | the failed part holds exactly the keys whose result is a failure |
| RunFacts.ValidationCount | src/robot/cnames.js:103-155 | the failure counter is the size of `failed` |
| Github.LastOwnerEnd | src/robot/issues.js:79-80 | the longest `(\S+)` from a start that `.github.io` can follow |
| Github.FirstOwnerStart | src/robot/issues.js:79-80 | the leftmost start from which the pattern matches, with the longest owner from there |
| Github.ExecMatchesSomewhere | src/robot/issues.js:79-81 | `exec` returns null exactly when the pattern matches nowhere |
| Github.ExternalTarget | src/robot/issues.js:202-208 | a target without `github`, such as an external domain, is not a GitHub Pages target |
| Github.GithubPagesRoot | src/robot/issues.js:88-89 | `<o>.github.io` gives owner `o` and repository `<o>.github.io` |
| Github.GithubPagesPath | src/robot/issues.js:88-89 | `<o>.github.io/<r>` gives owner `o` and repository `r`, when `r` does not contain `github` |
| Issues.AttemptTargetIssues | src/robot/issues.js:39-127 | the loop computes the `pending`, `contact`, cache writes and attempted issues that `Issues.ContactFrom` defines |
| Issues.AttemptOne | src/robot/issues.js:61-121 | one turn routes a cached entry by its flag without writing, and otherwise attempts, routes and writes `{...pending, ...contact}` |
| Issues.AttemptFresh | src/robot/issues.js:78-118 | a fresh attempt calls `octokit.issues.create` exactly for a GitHub Pages target and records its outcome in the entry |
| ContactFacts.ContactSides | src/robot/issues.js:54-122 | `pending` holds exactly the failed keys whose recorded entry has a falsy `contact` flag, `contact` those with a truthy one, each with that entry |
| ContactFacts.ContactPartition | issues.js:74-142 | every failed key ends in exactly one of `pending` and `contact`, and nothing else does |
| ContactFacts.CachedRouted | src/robot/issues.js:62-72 | a cached entry goes, as it is, to `contact` when its flag is truthy and to `pending` otherwise |
| ContactFacts.ExternalPending | src/robot/issues.js:81-85 | a fresh entry whose target is not on GitHub Pages is pending with `contact` false and nothing else changed |
| ContactFacts.UnopenedPending | src/robot/issues.js:107-110 | a fresh GitHub Pages entry whose issue could not be opened is pending with `contact` false |
| ContactFacts.OpenedContact | src/robot/issues.js:111-117 | a fresh GitHub Pages entry whose issue was opened is in `contact`, with the issue and `contact` true |
| ContactFacts.AttemptedExactly | src/robot/issues.js:94-104 | issues are attempted exactly for the fresh GitHub Pages entries |
| ContactFacts.TurnConsistent | src/robot/issues.js:120-121 | one turn keeps every side and cache write consistent with the recorded entries, and writes exactly when its key is not cached |
| ContactFacts.SameOutcomesSameSides | issues.js:74-142 | two runs whose every turn records the same entry end with the same `pending` and `contact` |
| ContactFacts.ResumeFromSnapshot | issues.js:141 | every cache write holds entries of the run, there is one write per key, and a run resumed from any write ends with the same `pending` and `contact` |
| IssueList.EntriesToList | src/robot/issues.js:134-142 | one item per key in key order, each the heading, the Issue line only when there is an issue, then the HTTP and HTTPS lines |
| IssueList.ItemLinesOf | issues.js:159 | a listable item is exactly its heading, the optional Issue line, the HTTP line and the HTTPS line |
| IssueList.HeadingMatches | src/robot/issues.js:306 | a heading with a non-empty subdomain and a target without whitespace matches the scan pattern, with those groups |
| IssueList.MatchIsHeading | src/robot/issues.js:306 | a line matches only when it is such a heading |
| IssueList.ScanMembers | src/robot/issues.js:306-307 | a name is found exactly when some line matches with it as its subdomain, and at most one name comes from each line |
| IssueList.LinesNewline | src/robot/issues.js:306 | joining two texts at a newline joins their lines, as `^` and `$` split them |
| IssueList.IndentedScan | src/robot/issues.js:306 | lines that start with two spaces yield no names |
| IssueList.ItemScan | src/robot/issues.js:306-307 | scanning one listable item finds exactly its subdomain |
| IssueList.ListRoundTrip | src/robot/issues.js:139 | scanning the list of a registry, joined at newlines, recovers its keys in order |
| IssueList.ParseIssueEntries | src/robot/issues.js:287-316 | a cached issue number returns its names and writes nothing; otherwise the body is scanned and the cache, or `{}`, is written with the names added |
| Pulls.PerfectCNAMEsFile | src/robot/prs.js:31-84 | the method returns the decision that `Pulls.RobotPerfection` defines |
| Pulls.RobotPerfectionCases | src/robot/prs.js:42-61 | the robot stops exactly when parsing or generation gives null, opens no pull request exactly when the generated text is the file, and otherwise proposes the generated text |
| Pulls.GeneratedIsPerfect | src/robot/prs.js:56-61 | a file the generator wrote from a non-empty registry of normalised entries, with a reference whose header comment has no line that is the declaration, is already perfect |
| Pulls.PerfectIsIdempotent | src/robot/prs.js:31-84 | when a file has at least one entry, its entries are already normalised and its header comment has no line that is the declaration, the file its pull request proposes is already perfect |
| Pulls.PerfectCNAMEsFileSrc | src/prs.js:30-65 | `getCNAMEs(file)` or its cache, then generation with lowered keys, then the loose comparison |
| Pulls.SrcPullsUndefined | src/prs.js:46-53 | a file without two comment blocks makes src/prs.js ask for a pull request whose file is `undefined` |
| Pulls.GuardedCompare | src/robot/prs.js:48-61 | with the null guard, a pull request always carries a text that differs from the file, no pull request is opened exactly for an equal text, and a missing text stops |
| Pulls.SrcGuardedStops | src/prs.js:46-53 | with the guard of src/robot/prs.js:49, the src pipeline stops on a file with fewer than two comment blocks instead of proposing an `undefined` file |
| Pulls.PerfectCNAMEsFileRoot | prs.js:38-56 | no pull request exactly when the generated text equals the file, and otherwise a pull request with the generated text |
| Pulls.Placeholders | src/robot/prs.js:128-131 | the `reduce` builds the object that `Pulls.PlaceholdersFrom` defines |
| Pulls.PlaceholderKeys | src/robot/prs.js:128-131 | the issue's names become exactly one empty entry per distinct name |
| Pulls.PlaceholderCount | src/robot/prs.js:132 | the logged count is the number of distinct names |
| Pulls.Without | src/robot/prs.js:148-156 | the filtering loop builds the object that `Pulls.KeptFrom` defines |
| Pulls.WithoutContents | src/prs.js:141-148 | the new registry holds exactly the keys not dropped, each with its entry unchanged |
| Pulls.RemovedCount | src/robot/prs.js:157 | the logged removal count is the number of keys of the registry that were dropped |
| Pulls.StillFailing | src/robot/prs.js:137-140 | the still-bad part holds exactly the placeholder keys whose probe result fails |
| Pulls.MainCleanupPull | src/robot/prs.js:91-163 | a cached pull request short-circuits; a failed parse abandons; otherwise the still-failing keys are those validation fails, exactly the other keys are kept unchanged, the count is the keys removed, and the proposal is the text generated from the kept registry |
| Pulls.MainCleanupPullSrc | src/prs.js:101-153 | a cached result short-circuits, a failed lock abandons, and otherwise exactly the keys the issue does not list are kept unchanged and the file is generated from them with lowered keys |
| Pulls.MainCleanupPullRoot | prs.js:104-128 | the root registry keeps exactly the keys the issue does not list, each unchanged |

## Left out

- Network, timers and the URL parser: how each request ends, including the response's origin, is an input.
- GitHub API: downloading the file, `issues.create`/`get`/`lock` and `createPullRequest` are inputs or outcomes. The pull-request URL returned and the issue and pull-request bodies are not modelled.
- Cache files: caches are optional objects passed in, and writes are returned. The `removeCache` purges are not modelled.
- Logging, the progress strings, counters used only for logging, confirmation prompts and templates are not modelled.
- `string.js` `format` is not part of this model. The URLs of all three `validateCNAMEs` versions are built as src/robot/cnames.js:114-116 builds them.
- Fetching a missing file (`if (!file)`) is left to the caller: the file is an input.
- Text.Lower: models `toLowerCase` on ASCII letters only, so it is wrong for any other letter. Keys the current grammar accepts are ASCII, but two other uses are not covered: target hosts lowered by `Grammar.LowerHost` (src/util/cnames.js:80-81) may hold any character but `"`, and the keys lowered by `Legacy.LowerKeys` (src/cnames.js:131) come from the `(.*)` group of src/cnames.js:77. For example, JavaScript lowers `CAFÉ.github.io` to `café.github.io`, and the model gives `cafÉ.github.io`. JavaScript can also change the length (`"İ".toLowerCase()` has two code units).
- JsObjects.Set: `o["__proto__"] = v` sets the prototype in JavaScript and adds no own key. Both entry grammars accept the key `__proto__`, so a line with that key is read into no entry and left out of the generated file in JavaScript. The model stores it as an ordinary key, so the two differ for that key.
- Regenerate.ParsedLayout, Regenerate.ParseOfGenerated, Regenerate.RegenerateIsIdentity, Pulls.GeneratedIsPerfect, Pulls.PerfectIsIdempotent: these round trips are stated only for registries with at least one entry and for a header comment (the first `/* … */` block) with no line that is the `var cnames_active = {` declaration. For an empty registry, src/util/cnames.js:143 writes a blank line between the braces, and the parser warns about that line. For the header `/*\nvar cnames_active = {\n  "a": "b"\n*/`, src/util/cnames.js:23 takes the header's line as the declaration. Lines 44-53 then read `"a": "b"` as an extra entry and warn about the header's remaining lines, so the regenerated text differs from the file.
- Generate.SortSeq: orders by code point, which is JavaScript's UTF-16 order only for characters in the Basic Multilingual Plane.
- Validate.Result: `cname in cache` follows the prototype chain in JavaScript; the model looks only at the cache's own keys.
- Issues.AttemptTargetIssues: the source updates the entries of `failed` in place, so `failed` and the returned sides share entry objects. The model returns new entry values and does not capture that aliasing.
- Validate.ValidateCNAMEs: the source also updates the input entries in place; the model returns the updated entries instead.
- Pulls.Placeholders: the `{}` placeholder has no target. The model gives it the empty target, which validation never reads.
- Pulls.PerfectCNAMEsFileRoot: the root prs.js imports `getCNAMEsFile` and `generateCNAMEsFile` from cnames.js, which exports only `getCNAMEs` and `validateCNAMEs` (cnames.js:180). It also imports `parseIssueEntries` from issues.js, which exports only `robotDisclaimer` and `createIssue` (issues.js:280). Calls to those names throw. The decision is modelled over the file and the generated text taken as inputs.
- Pulls.MainCleanupPullRoot: as written, the root `mainCleanupPull` throws at prs.js:105 (`getCNAMEsFile` is not exported) and would throw again at prs.js:111 (`parseIssueEntries` is not exported), so none of its filter or generation runs. The member models the evidently intended steps: the file and the issue's names are inputs, the registry is the root `getCNAMEs` of that file (or its cache), and the filter of prs.js:114-123 runs over it. The generation step after it is not modelled.
- Pulls.MainCleanupPull: the key order of `newCNAMEs` is not stated, because generation sorts the keys.
- IssueList.ListRoundTrip: holds only for keys and targets without whitespace and for one-line probe reasons and issue URLs. These are the lines the scan pattern accepts.
- src/robot/cache.js reads `cache/` (line 13) but writes `src/cache/` (line 29), so a robot run may never read back its own writes. The model takes every cache read as an input and does not tie it to earlier writes.

## Findings

| source | as written | input that shows it | evidently intended | confidence | as-written member | corrected member |
|---|---|---|---|---|---|---|
| src/prs.js:46-53 | the result of `generateCNAMEsFile` is not checked, and `undefined == file` is false, so a pull request is requested with an `undefined` file (also prs.js:38-44) | a `cnames_active.js` with fewer than two `/* … */` blocks | stop without a pull request, as src/robot/prs.js:49 does | not executed | Pulls.SrcPullsUndefined | Pulls.GuardedCompare |
