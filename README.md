# touchdrawerscraper1 in Dafny

A model of the record-processing core of the Touch Football Australia scraper
actor. Each of the actor's three programs reads rendered pages and pushes
records to a dataset:

- **the draw-page scraper** (`src/scraper.js`) reads every fixture of a
  competition draw into a match record. Per fixture it cleans the status
  lozenge text, tests it against the four completion keywords, parses each
  score as the first standalone run of digits, and promotes the match to
  completed when a score was observed. A fixture is kept only when both team
  names are present. When the fixture list `ul.l-grid` appears, the page
  yields one `match` record per kept fixture, or exactly one `error` record
  when none is kept; when it never appears, the unguarded wait throws, the
  failed-request handler only logs, and nothing is pushed.
- **the team discovery** (`src/discover.js`) reads the search page's result
  cards into team options. The first accepted card with each `href` wins, and
  an `href` counts as seen only once its card is accepted. Each name comes
  from a three-step fallback and is whitespace-cleaned. URLs are made
  absolute. Nameless cards are dropped, and at most 20 options are kept. The
  page then yields a `team-options` record and the option a run would follow,
  or one `error` record.
- **the legacy three-stage crawler** (`src/main-old.js`) works through three
  stages:
  - `search`: deduplicates team candidates by URL, then enqueues the chosen
    team's page as `team-selection`;
  - `team-selection`: enqueues the first draw/squad/roster link as
    `scrape-draw`, or scrapes the current page itself;
  - `scrape-draw`: reads players by a table strategy, with an element strategy
    as fallback.
- **the entry point** (`src/main.js`) decides from the input which program
  runs, or exits the actor and throws.

The browser is abstracted. Each `querySelector` result is a field of a
datatype: `None` where the element is absent, otherwise its text content. A
`querySelectorAll` result is a sequence in document order. `Actor.pushData`
and `requestQueue.addRequest` append to the `seq` field of a `Crawl.Dataset`
or a `Crawl.RequestQueue` object.

Each extraction loop is a method with loop invariants, proved equal to a
specification function such as `Scraper.KeptMatches`, `Discover.Results` or
`LegacyRouter.Unique`. The lemmas and the functions' own postconditions state
the promised properties of those functions. Each request handler's
postcondition gives, stage by stage, the exact records and jobs it appends,
in terms of the same functions.

Modules:
- `Wrappers`: `Option`.
- `Text`: the JavaScript string operations the callbacks use: `\s`, `trim`,
  `replace(/\s+/g, ' ')`, `split`, `includes`, `replace(str, '')`,
  `\b(\d+)\b` and `parseInt`.
- `Indices` and `Dedup`: order-preserving filtering and first-occurrence
  deduplication.
- `Crawl`: jobs, the dataset, the request queue and the index choice.
- `Scraper`, `Discover`, `LegacyRouter` and `Launcher`: one module per
  program.

Behaviour of the code worth knowing, each stated by a member:
- The completion rule is exactly "a keyword matched or any score was read"
  (`Scraper.Completion`). The code has no rule about the kickoff time:
  `datetime` and the kickoff text are only copied into the record. An
  observed 0-0 therefore counts as a result (`Scraper.ObservedNilAllCompletes`).
- Status cleaning turns every whitespace run between two words, newlines
  included, into one space; only the runs at either end are deleted. A
  lozenge reading `F\nin\tal` gives the status
  `F in al`, not `Final` (`Scraper.StatusKeepsSeparators`).
- In the legacy crawler, `links.find` stops at the first anchor whose `href`
  or text mentions a draw. If that anchor has no `href`, the found link is
  empty, and the current page is scraped even when a later anchor has a usable
  `href` (`LegacyRouter.HreflessMentionShadows`).

## Model

| member | source | states |
|---|---|---|
| Text.Trim | src/scraper.js:61 | `trim()` leaves no whitespace at either end and never lengthens the string |
| Text.TrimSlice | src/scraper.js:61 | the trimmed string is a contiguous slice of the original |
| Text.TrimMembers | src/scraper.js:61 | every character of the trimmed string occurs in the original |
| Text.TrimVisible | src/scraper.js:101 | trimming removes only whitespace: the non-whitespace characters survive, in order |
| Text.TrimKeepsSpacing | src/discover.js:152 | trimming a single-spaced, plain-spaced string keeps it so |
| Text.Collapse | src/scraper.js:100 | `replace(/\s+/g, ' ')` leaves only plain spaces and no two adjacent whitespace characters; the result is empty exactly when the input is, starts with whitespace exactly when the input does, and is never longer |
| Text.CollapseVisible | src/scraper.js:100 | collapsing changes only whitespace: the other characters survive, in order |
| Text.Clean | src/discover.js:152 | the clean-up yields a string with no outer whitespace, no whitespace pair and no whitespace other than the plain space |
| Text.CleanVisible | src/discover.js:152-155 | cleaning keeps the non-whitespace characters, so it yields "" exactly for an all-whitespace name |
| Text.CollapseRun | src/scraper.js:100 | a whitespace run between a part that does not end in whitespace and one that does not start with it becomes exactly one space, the parts collapsed on their own |
| Text.CollapseNoSpace | src/scraper.js:100 | a string without whitespace is left unchanged by the collapse |
| Text.CleanTwoRuns | src/scraper.js:99-101 | three whitespace-free words with whitespace runs between them clean to the words joined by single spaces |
| Text.NewlineBecomesSpace | src/scraper.js:99 | a newline between two newline-free parts becomes a space and nothing else changes |
| Text.CleanRun | src/discover.js:152 | two whitespace-free words with any whitespace run between them clean to the words joined by a single space |
| Text.CollapseJoin | src/scraper.js:100 | a split right after a non-whitespace character is not inside a run, so `replace(/\s+/g, ' ')` acts on each side on its own |
| Text.CollapseKeeps | src/scraper.js:100 | a phrase that starts and ends with a visible character and that the replace leaves as it is, found in a string, is still found after the replace |
| Text.WordSurvives | src/scraper.js:100-109 | a word of lower-case letters found in a string is still found after the whitespace replace |
| Text.PhraseSurvives | src/scraper.js:100-109 | two lower-case words joined by one space, found in a string, are still found after the whitespace replace |
| Text.TrimStartSpaces | src/scraper.js:100 | the greedy `\s+` of the whitespace replace, started on a whitespace run in front of a part that does not start with whitespace, consumes exactly that run |
| Text.TextOf | src/scraper.js:74 | an optional element's trimmed text is trimmed, and "" when the element is absent |
| Text.NewlinesToSpaces | src/scraper.js:99 | `replace(/\n/g, ' ')` keeps the length, turns each newline into a space and changes no other character |
| Text.ToLower | src/scraper.js:105 | lower-casing keeps the length and whitespace positions, maps each letter A–Z to its lower-case letter (code point plus 32) and changes no other character |
| Text.Contains | src/scraper.js:106-109 | `includes` finds the pattern only when it fits in the string, and always finds a prefix of the string |
| Text.StartsWithPointwise | src/discover.js:106 | `startsWith` holds exactly when the prefix fits and agrees with the string position by position |
| Text.IndexOf | src/discover.js:126 | the first occurrence of the pattern, and `None` exactly when there is none |
| Text.RemoveFirst | src/discover.js:126 | `replace(str, '')` leaves the string unchanged when the pattern is absent; otherwise, putting the pattern back at its first position gives the original |
| Text.Split | src/discover.js:128 | `split('\n')` yields at least one piece, no piece contains the separator, and joining the pieces with it gives back the input |
| Text.FirstLine | src/scraper.js:61 | `split('\n')[0]` has no newline and is the whole string or the part before its first newline |
| Text.FirstNonEmptyTrimmed | src/discover.js:128-129 | the first line that is non-empty once trimmed, trimmed, with every earlier line blank; "" exactly when every line is blank |
| Text.FirstBoundedRun | src/scraper.js:123 | the leftmost digit run with a word boundary on both sides, and `None` exactly when there is none |
| Text.DecimalString | src/scraper.js:125 | a numeral is all digits, with no leading zero |
| Text.DecimalValue | src/scraper.js:125 | `parseInt(d, 10)` of k digits is below 10^k, and at least 10^(k-1) when the first digit is not 0 |
| Text.DecimalRoundTrip | src/scraper.js:125 | `parseInt(…, 10)` reads back the value of every numeral |
| Text.LeadingZeros | src/scraper.js:125 | leading zeros do not change the value `parseInt` reads |
| Text.AllZeros | src/scraper.js:125 | a run of zeros reads as 0 |
| Indices.Selected | src/scraper.js:148-164 | the positions a filter keeps are all flagged, strictly increasing, and include every flagged position |
| Indices.Pick | src/main-old.js:88-93 | the entries at the chosen positions, in that order |
| Indices.PickSelectedSnoc | src/main-old.js:88-93 | a filter step appends the current entry exactly when its flag is set |
| Indices.Present | src/scraper.js:148-164 | the present values, each taken from a present entry at a strictly increasing position |
| Indices.PresentSnoc | src/scraper.js:149 | pushing one more outcome appends its value exactly when it has one |
| Indices.PresentStep | src/scraper.js:148-164 | a walk over the outcomes that reads the next one extends the present values by its value exactly when it has one |
| Dedup.Kept | src/discover.js:95-103 | the kept positions are exactly the first valid occurrences of their keys, in increasing order |
| Dedup.KeptKeysDistinct | src/discover.js:101 | no two kept positions share a key |
| Dedup.FirstOccurrenceKept | src/main-old.js:88-92 | every valid key is carried by a kept position no later than any occurrence of it |
| Dedup.SeenStep | src/discover.js:163 | the seen-set check accepts exactly the first valid occurrence, and the seen set grows by the key exactly on acceptance |
| Dedup.KeptCount | src/main-old.js:86-93 | the deduplicated list has exactly one entry per distinct key of a valid entry |
| Crawl.Dataset.Push | src/scraper.js:175 | `Actor.pushData` appends the record and changes nothing else |
| Crawl.Dataset.constructor | src/scraper.js:4 | the dataset starts empty |
| Crawl.RequestQueue.constructor | src/main-old.js:17 | a freshly opened queue holds no job |
| Crawl.RequestQueue.AddRequest | src/main-old.js:132-138 | `addRequest` appends the job and changes nothing else |
| Crawl.ChooseIndex | src/discover.js:196-207 | the requested index when it lies in `[0, n)`, index 0 when it is missing or out of range; always a valid index |
| Scraper.DateOf | src/scraper.js:61 | the date is trimmed and holds no newline; "" without a title element |
| Scraper.StatusOf | src/scraper.js:96-101 | the cleaned status has no outer whitespace, no whitespace pair, no newline and no whitespace other than the plain space; "" without a lozenge |
| Scraper.ScoreOf | src/scraper.js:113-137 | a score is read exactly when the element is there and holds a digit run bounded by word boundaries; its value is that of the leftmost such run; no element, no score |
| Scraper.SaysCompleted | src/scraper.js:103-109 | whenever the lower-cased status holds "full time", "final", "complete" or "finished", the test passes: collapsing whitespace cannot hide a keyword |
| Scraper.KeywordsSurvive | src/scraper.js:103-109 | each of the four keywords, found in a string, is still found after `replace(/\s+/g, ' ')` |
| Scraper.Completion | src/scraper.js:92-146 | completed exactly when a keyword matched or a score was read; a read score always completes the match with a non-empty status; the status differs from the cleaned lozenge text only when that text is "" and a score was read, and is then "Full Time" |
| Scraper.Normalise | src/scraper.js:58-146 | the record carries the scores as read and is completed by the completion rule; the date, round, kickoff time, team names and venue are trimmed, the date has no newline, and the status is trimmed, single-spaced and newline-free (the match URLs and `datetime` are copied as they are) |
| Scraper.MatchOf | src/scraper.js:148-164 | a fixture yields a match exactly when both trimmed team names are non-empty, and the match carries those names |
| Scraper.ReadStatus | src/scraper.js:92-110 | the status step yields the cleaned lozenge text, and completion exactly when a lozenge is there and its lower-cased text contains one of the four keywords |
| Scraper.ReadScore | src/scraper.js:117-127 | the score step for one side yields `ScoreOf` of its element |
| Scraper.ExtractFixture | src/scraper.js:58-164 | the step-by-step fixture body yields `MatchOf` of the fixture |
| Scraper.Outcomes | src/scraper.js:58 | one outcome per fixture, in document order |
| Scraper.NamesBothTeams | src/scraper.js:148 | `homeTeam && awayTeam` holds only when both team elements are present |
| Scraper.KeptMatches | src/scraper.js:56-167 | the `matchesData` list: no more matches than fixtures, each naming both teams |
| Scraper.ExtractMatches | src/scraper.js:54-168 | the callback's loop returns exactly the kept matches, in document order |
| Scraper.MatchRecords | src/scraper.js:174-191 | one `match` record per match, in the same order, each naming the page URL |
| Scraper.PushMatches | src/scraper.js:174-192 | the push loop appends exactly those records to the dataset |
| Scraper.HandleDrawScraping | src/scraper.js:50-51 | when the fixture list never appears the dataset is left unchanged (the wait throws before any push); otherwise n > 0 kept matches append exactly n `match` records in order and none appends exactly one `error` record with the page URL (src/scraper.js:172-201) |
| Scraper.HandleRequest | src/scraper.js:30-43 | a `scrape-draw` request whose page shows the fixture list appends one `match` record per kept match, in order, or the single `error` record when none is kept; a page without the list, or any other stage, leaves the dataset unchanged |
| Scraper.StatusKeepsSeparators | src/scraper.js:96-101 | a newline and a tab between three whitespace-free words each become one space: `F\nin\tal` cleans to `F in al` |
| Scraper.CompletionRule | src/scraper.js:139-146 | a kept match is completed exactly when a keyword matched or a score was read; so an uncompleted match has both scores null |
| Scraper.NothingInEmpty | src/scraper.js:105-109 | an empty status matches no completion keyword |
| Scraper.StatusKeptOrSynthesised | src/scraper.js:143-145 | a non-empty status is kept verbatim; the status changes only from "" to "Full Time", and only for a completed match; the final status stays clean |
| Scraper.FullTimeIsClean | src/scraper.js:144 | the synthesised "Full Time" is itself a clean status |
| Scraper.ObservedNilAllCompletes | src/scraper.js:139-146 | an observed 0-0 with no lozenge is completed with status "Full Time", and both zeros are kept |
| Scraper.NoNumberNoScore | src/scraper.js:113-137 | without a score element, or with one holding no digit, the score stays null and never defaults to 0 |
| Scraper.KeptMatchesExactly | src/scraper.js:148-164 | each kept match is the match of its fixture and names both teams; kept fixtures are in document order; every fixture naming both teams is kept |
| Discover.AbsoluteUrl | src/discover.js:105-108 | the option URL starts with "http" and ends with the `href`; it is the `href` itself exactly when the `href` starts with "http", and the site's host followed by the `href` otherwise |
| Discover.AbsoluteUrlIdempotent | src/discover.js:105-108 | making an absolute URL absolute again changes nothing |
| Discover.RawName | src/discover.js:110-133 | the name before clean-up, from the three-step fallback, is trimmed |
| Discover.LozengeLines | src/discover.js:124-128 | the lines after the lozenge text is cut out: at least one, none holding a newline |
| Discover.TeamNameOf | src/discover.js:152 | the option name is trimmed, single-spaced and uses only plain spaces |
| Discover.NamelessIffBlank | src/discover.js:152-155 | a card is nameless exactly when its raw name has no non-whitespace character |
| Discover.OptionOf | src/discover.js:164-169 | an option's name is trimmed, single-spaced and plain-spaced; its URL starts with "http" and ends with the card's `href`; the competition and result type are trimmed, the result type "" without a lozenge |
| Discover.Results | src/discover.js:174 | `slice(0, 20)`: a prefix of the accepted options of at most 20, and all of them when there are fewer than 20 |
| Discover.Hrefs | src/discover.js:98 | one `href` per card, in order |
| Discover.Validity | src/discover.js:98-155 | one flag per card: the card has an `href` and a non-empty name |
| Discover.Options | src/discover.js:164-169 | one option per card, in order |
| Discover.Valid | src/discover.js:98-155 | a card is usable exactly when it has an `href` and its raw name holds a visible character |
| Discover.AcceptedIndices | src/discover.js:95-103 | the accepted positions are usable cards, in increasing order, with pairwise different `href`s |
| Discover.Accepted | src/discover.js:163-169 | `teamOptions` before the slice: the option of each accepted card, in document order |
| Discover.ReadTeamName | src/discover.js:112-152 | the `let teamName` reassignments yield `TeamNameOf` of the card |
| Discover.ReadCard | src/discover.js:97-170 | a card yields an option exactly when it has an `href`, the `href` is not yet seen and the name is non-empty; that option is the card's |
| Discover.ExtractTeamOptions | src/discover.js:90-175 | the callback's walk returns exactly the first min(20, k) accepted options, in document order |
| Discover.WalkStep | src/discover.js:101-164 | one card of the walk grows the seen set and the options exactly by an accepted card |
| Discover.HandleSearch | src/discover.js:179-223 | with results, appends one `team-options` record carrying the requested index and picks the option `ChooseIndex` gives; without, appends one `error` record carrying the team name and picks nothing |
| Discover.HandleRequest | src/discover.js:39-48 | a `search` request appends exactly one record: `team-options` with the results and the job's requested index, or the `error` record with the page URL and the job's team name when there are no results; any other stage leaves the dataset unchanged |
| Discover.AcceptedExactly | src/discover.js:97-171 | a card is accepted exactly when it has an `href`, its name is non-empty, and no earlier valid card has its `href`; the result type plays no part |
| Discover.ResultsArePrefix | src/discover.js:174 | the results are the first min(20, k) of the k accepted options, in document order, each the option of its card |
| Discover.ResultsDistinct | src/discover.js:95-103 | no two results come from cards with the same `href` |
| Discover.ResultNamesClean | src/discover.js:152-155 | every result name is non-empty, trimmed, single-spaced and plain-spaced |
| Discover.TruncatesAfterDedup | src/discover.js:174 | with at least 20 distinct valid `href`s there are exactly 20 results: deduplication happens before truncation |
| Discover.NamelessDoesNotShadow | src/discover.js:155-163 | a nameless card is not accepted and does not block a later named card with the same `href` |
| Discover.LozengeFallback | src/discover.js:120-129 | without `dl` text but with a lozenge, the name is the first non-blank line after the lozenge text is cut out, and empty exactly when every such line is blank |
| LegacyRouter.CandidateOf | src/main-old.js:73-82 | an element yields a candidate exactly when its anchor has an `href` and its own or its anchor's trimmed text is non-empty; the element's text takes priority and the anchor's trimmed text is the name when the element's is blank; the URL is the anchor's `href` |
| LegacyRouter.CandidateOutcomes | src/main-old.js:72 | one outcome per search element, in order |
| LegacyRouter.LinkOf | src/main-old.js:73 | an anchor element is its own link; any other element's link is its first descendant anchor |
| LegacyRouter.Candidates | src/main-old.js:70-83 | the pushed `teamOptions`: no more than the elements, each with a URL and a non-empty trimmed name |
| LegacyRouter.ReadCandidate | src/main-old.js:73-82 | the forEach body yields `CandidateOf` of the element |
| LegacyRouter.CollectCandidates | src/main-old.js:70-83 | the walk collects exactly the candidates, in document order |
| LegacyRouter.CandidatesNamed | src/main-old.js:74-80 | every candidate has a URL and a non-empty trimmed name |
| LegacyRouter.Urls | src/main-old.js:89 | one URL per candidate, in order |
| LegacyRouter.AllValid | src/main-old.js:88 | every candidate takes part in the deduplication |
| LegacyRouter.Unique | src/main-old.js:85-95 | the deduplicated list is no longer than the candidates, draws only from them, and no two entries share a URL |
| LegacyRouter.UniqueByUrl | src/main-old.js:85-93 | the seen-set walk returns exactly the first occurrence of each URL, in order |
| LegacyRouter.UniqueIsFirstOccurrences | src/main-old.js:85-95 | the deduplicated list is a subsequence of the candidates at increasing positions, with pairwise-distinct URLs, each the first occurrence of its URL |
| LegacyRouter.UniqueCoversEveryUrl | src/main-old.js:85-95 | every URL's first candidate survives, so there is one entry per distinct URL |
| LegacyRouter.SearchResults | src/main-old.js:68-96 | every search result has a URL and a non-empty trimmed name, and no two share a URL |
| LegacyRouter.HandleSearch | src/main-old.js:100-148 | with results, appends one `team-options` record and enqueues exactly one `team-selection` job for the chosen candidate; without, appends one `error` record and enqueues nothing |
| LegacyRouter.FirstDrawLink | src/main-old.js:161-167 | `links.find` gives the first anchor whose lower-cased `href` or text mentions "draw", "squad" or "roster", and `None` exactly when no anchor does |
| LegacyRouter.BlankNeverMentions | src/main-old.js:162-167 | the `href &&` and `text &&` guards: the empty string never mentions a draw, so an anchor with neither `href` nor text is never a draw link |
| LegacyRouter.MentionIgnoresCase | src/main-old.js:163-166 | the test lower-cases its input first, so upper- and lower-case spellings of a word are treated alike |
| LegacyRouter.HandleTeamSelection | src/main-old.js:159-184 | a found draw link with an `href` is enqueued as `scrape-draw` and nothing is pushed; otherwise nothing is enqueued and the current page is scraped |
| LegacyRouter.DrawLink | src/main-old.js:159-169 | the link found is the `href` of the first anchor whose `href` or text mentions a draw, squad or roster; none exactly when no anchor mentions one |
| LegacyRouter.HreflessMentionShadows | src/main-old.js:162-171 | a mentioning anchor without `href` ends the search with an empty link, so later draw links are not followed |
| LegacyRouter.OrUnknown | src/main-old.js:208-209 | a missing field becomes the non-empty "Unknown"; a present one is kept |
| LegacyRouter.RowPlayer | src/main-old.js:201-212 | a row yields a player exactly when it has cells and a trimmed name other than "", "Name" and "Player"; a non-empty trimmed position or jersey is kept as read, a missing one becomes "Unknown" |
| LegacyRouter.ElementPlayer | src/main-old.js:218-226 | an element yields a player exactly when its name is non-empty, with position and jersey "Unknown" |
| LegacyRouter.RowOutcomes | src/main-old.js:201 | one outcome per row, in order |
| LegacyRouter.ElementOutcomes | src/main-old.js:218 | one outcome per player element, in order |
| LegacyRouter.TablePlayers | src/main-old.js:199-213 | the table strategy's players: no more than the rows, none named "", "Name" or "Player" |
| LegacyRouter.FallbackPlayers | src/main-old.js:217-227 | the fallback strategy's players: no more than the elements, each named, with position and jersey "Unknown" |
| LegacyRouter.TableWalk | src/main-old.js:199-213 | the table walk collects exactly the table players, in order |
| LegacyRouter.FallbackWalk | src/main-old.js:217-227 | the element walk collects exactly the fallback players, in order |
| LegacyRouter.ExtractPlayers | src/main-old.js:194-231 | the callback returns the table players, or the fallback players when there are none |
| LegacyRouter.Prefix | src/main-old.js:252 | `substring(0, n)` is the prefix of exactly n characters of a longer string, and the whole string when it has at most n |
| LegacyRouter.Players | src/main-old.js:194-231 | every player has a non-empty name, position and jersey number; no player is found only when both strategies find nobody |
| LegacyRouter.RosterRecord | src/main-old.js:235-254 | a roster record with the page URL exactly when players were found; otherwise the no-data record with the page URL, its note, and a prefix of the page body of at most 2000 characters |
| LegacyRouter.HandleDrawScraping | src/main-old.js:233-254 | exactly one record is appended: the roster when players were found, the no-data record otherwise |
| LegacyRouter.FallbackOnlyWhenTableEmpty | src/main-old.js:216 | the fallback strategy decides the players only when the table strategy found nobody |
| LegacyRouter.TablePlayersNamed | src/main-old.js:199-213 | every table player has a trimmed name other than "", "Name" and "Player", and a non-empty position and jersey number |
| LegacyRouter.FallbackPlayersNamed | src/main-old.js:216-228 | every fallback player has a non-empty name, and position and jersey "Unknown" |
| LegacyRouter.SampleBounded | src/main-old.js:245-253 | the no-data record's sample is a prefix of the page body of at most 2000 characters, exactly 2000 when the body is that long |
| LegacyRouter.HandleRequest | src/main-old.js:44-50 | `search` appends the `team-options` record and enqueues the chosen candidate as `team-selection`, or appends the `error` record and enqueues nothing; `team-selection` enqueues a found draw link as `scrape-draw` and pushes nothing, or scrapes the page into its roster record; `scrape-draw` appends the roster record; any other stage changes nothing |
| Launcher.InferRunMode | src/main.js:12-28 | a truthy `mode` is used as it is; otherwise `drawerUrl` gives "scraper"; otherwise "discover" exactly when both `startUrl` and `teamName` are truthy; otherwise the missing-input error |
| Launcher.Truthy | src/main.js:14-18 | JS truthiness of an input field: an absent field and "" are false, any other string true |
| Launcher.Launch | src/main.js:12-43 | the scraper runs exactly for mode "scraper" or an inferred draw URL; discovery exactly for mode "discover" or inferred start URL and team name; the unknown-mode error exactly for any other explicit mode |
| Launcher.ExplicitModeWins | src/main.js:12-14 | with a truthy `mode` the other fields are not consulted |
| Launcher.DrawerUrlFirst | src/main.js:15-17 | without `mode`, a `drawerUrl` selects the scraper whatever `startUrl` and `teamName` hold |
| Launcher.InferenceNeverUnknown | src/main.js:14-43 | without `mode` the unknown-mode error never arises; the missing-input error arises exactly when neither inference applies |

## Left out

- The Apify and Crawlee lifecycle: `Actor.init` and `Actor.exit`, `Actor.getInput`, `openRequestQueue`, the crawler that pumps the queue, and its retries.
- The error handlers (src/scraper.js:40-43, src/discover.js:50-57, src/main-old.js:53-55). They run on browser failures, which the model does not have.
- Browser waits and timeouts, except the outcome of the unguarded `ul.l-grid` wait in src/scraper.js:50, which `DrawPage.listPresent` records. DOM querying is replaced by input datatypes that hold the selector results.
- Scraper.HandleDrawScraping and Scraper.HandleRequest: a missing fixture list leaves the dataset unchanged; the thrown timeout and the log line of the failed-request handler (src/scraper.js:40-43) are not modelled, nor are the crawler's retries of the failed request.
- Selector matching itself. Which elements `ul.l-grid > li`, `tr, .player-row, .player-item` and the other selectors match is given, not computed.
- The seeding of each program's first request (src/scraper.js:19-25, src/discover.js:19-34, src/main-old.js:19-34). This includes `encodeURIComponent` and `teamName.toLowerCase()`.
- The input checks that throw before crawling (src/scraper.js:10-12, src/discover.js:10-12, src/main-old.js:10-12).
- `Date.now()` unique keys and the `scrapedAt` timestamp, which are clock reads. The model's jobs carry no `uniqueKey`, and its roster record carries no `scrapedAt`.
- Console logging. This includes the "non-team result" message at src/discover.js:157-161, which filters nothing.
- The dynamic `import()` and the re-throw in src/main.js:35-54. `Launcher.Launch` returns the chosen program instead of loading it.
- Launcher.Launch: its error outcomes stand for the sequence `await Actor.exit()` then `throw` (src/main.js:22-23 and 41-42); the actor's exit itself is not modelled.
- The `type` tag of each pushed record. Each record kind is a datatype constructor instead. Note that the legacy no-data record is tagged `roster` in the code.
- Text handling approximations:
  - `toLowerCase` is modelled on ASCII letters only; other letters keep their case.
  - A string is a sequence of `char`, not of UTF-16 code units.
  - `parseInt` is modelled without a size limit, so it never yields a float.
- `link.href` property resolution by the browser is taken as given. `href` is "" for an anchor without one.
- The `selectedTeamIndex` input is modelled as an optional integer. Non-numeric JavaScript values, which the comparisons would coerce, are not modelled.
- `dateTime` stores the `datetime` attribute, where `None` stands for the attribute's `null`. A missing `time` element gives "".
