/**
 * The legacy three-stage crawler (src/main-old.js): a `search` page yields
 * team candidates, deduplicated by URL, and enqueues the chosen team's page;
 * a `team-selection` page enqueues its draw/squad/roster link or is scraped
 * itself; a `scrape-draw` page yields a roster of players.
 */
module LegacyRouter {
  import opened Wrappers
  import opened Text
  import Indices
  import Dedup
  import Crawl

  /** An anchor: its resolved `href` ("" when it has none) and its text content. */
  datatype Anchor = Anchor(href: string, text: string)

  /**
   * One element matched by the search-result selectors: whether it is itself
   * an anchor, its own `href` and text, and its first descendant anchor.
   */
  datatype SearchElement = SearchElement(isAnchor: bool, href: string, text: string, innerAnchor: Option<Anchor>)

  /** A team candidate found on the search page. */
  datatype Candidate = Candidate(name: string, url: string)

  /**
   * One `tr, .player-row, .player-item` row: how many cells it has, and the
   * text of its name, position and jersey elements (`None` when absent).
   */
  datatype Row = Row(cellCount: nat, nameText: Option<string>, positionText: Option<string>, jerseyText: Option<string>)

  /** One `.player, [data-player], div[class*="player"]` element: the text of its name element. */
  datatype PlayerElement = PlayerElement(nameText: Option<string>)

  datatype Player = Player(name: string, position: string, jerseyNumber: string)

  /** What the three stages push to the dataset. */
  datatype Record =
    | TeamOptions(options: seq<Candidate>, instructions: string)
    | SearchError(message: string, pageUrl: string, note: string)
    | Roster(players: seq<Player>, teamUrl: string)
    | NoPlayers(message: string, pageUrl: string, note: string, pageHtmlSample: string)

  /** A rendered page, as the three stages query it. */
  datatype Page = Page(
    url: string,
    searchElements: seq<SearchElement>,
    anchors: seq<Anchor>,
    rows: seq<Row>,
    playerElements: seq<PlayerElement>,
    bodyHtml: string)

  const Instructions := "Review the team options above and provide the selectedTeamIndex (0-based) in your input to proceed with team selection"
  const NoResultsMessage := "No search results found"
  const NoResultsNote := "Check the HTML structure of the search results page"
  const NoPlayersMessage := "No player data found"
  const NoPlayersNote := "The page structure may need custom selectors"
  const Unknown := "Unknown"
  const SampleLength := 2000

  // ---------------------------------------------------------------------------
  // Search stage
  // ---------------------------------------------------------------------------

  /** The anchor an element stands for: itself when it is one, else its first descendant anchor. */
  function LinkOf(e: SearchElement): (a: Option<Anchor>)
    ensures e.isAnchor ==> a.Some? && a.value.href == e.href && a.value.text == e.text
    ensures !e.isAnchor ==> a == e.innerAnchor
  {
    if e.isAnchor then Some(Anchor(e.href, e.text)) else e.innerAnchor
  }

  /**
   * The candidate an element yields: none without an anchor with an `href`;
   * otherwise named by the element's trimmed text, or the anchor's when that
   * is empty, and none when both are empty.
   */
  function CandidateOf(e: SearchElement): (c: Option<Candidate>)
    ensures c.Some? <==> LinkOf(e).Some? && LinkOf(e).value.href != "" &&
                         (Trim(e.text) != "" || Trim(LinkOf(e).value.text) != "")
    ensures c.Some? ==> c.value.url == LinkOf(e).value.href && c.value.name != "" && Trimmed(c.value.name)
    ensures c.Some? && Trim(e.text) != "" ==> c.value.name == Trim(e.text)
    ensures c.Some? && Trim(e.text) == "" ==> c.value.name == Trim(LinkOf(e).value.text)
  {
    match LinkOf(e)
    case None => None
    case Some(link) =>
      if link.href == "" then None
      else
        var text := if Trim(e.text) != "" then Trim(e.text) else Trim(link.text);
        if text == "" then None else Some(Candidate(text, link.href))
  }

  function CandidateOutcomes(es: seq<SearchElement>): (r: seq<Option<Candidate>>)
    ensures |r| == |es| && forall i :: 0 <= i < |es| ==> r[i] == CandidateOf(es[i])
  {
    seq(|es|, i requires 0 <= i < |es| => CandidateOf(es[i]))
  }

  /** The candidates of the search page, in document order, before deduplication. */
  function Candidates(es: seq<SearchElement>): (r: seq<Candidate>)
    ensures |r| <= |es|
    ensures forall t :: 0 <= t < |r| ==> r[t].url != "" && r[t].name != "" && Trimmed(r[t].name)
  {
    var outs := CandidateOutcomes(es);
    var idx := Indices.Selected(Indices.Flags(outs));
    var r := Indices.Present(outs);
    assert forall t :: 0 <= t < |r| ==> CandidateOf(es[idx[t]]) == Some(r[t]);
    r
  }

  /** The forEach body for one element. */
  method ReadCandidate(element: SearchElement) returns (found: Option<Candidate>)
    ensures found == CandidateOf(element)
  {
    found := None;
    var link := if element.isAnchor then Some(Anchor(element.href, element.text)) else element.innerAnchor;
    if link.Some? && link.value.href != "" {
      var text := Trim(element.text);
      if text == "" {
        text := Trim(link.value.text);
      }
      if text != "" {
        found := Some(Candidate(text, link.value.href));
      }
    }
  }

  /** The `resultElements.forEach` walk that collects candidates. */
  method CollectCandidates(es: seq<SearchElement>) returns (teamOptions: seq<Candidate>)
    ensures teamOptions == Candidates(es)
  {
    ghost var outs := CandidateOutcomes(es);
    teamOptions := [];
    for i := 0 to |es|
      invariant teamOptions == Indices.Present(outs[..i])
    {
      var found := ReadCandidate(es[i]);
      if found.Some? {
        teamOptions := teamOptions + [found.value];
      }
      Indices.PresentStep(outs, i, outs[i]);
    }
    assert outs[..|es|] == outs;
  }

  /** Every collected candidate has a URL and a non-empty trimmed name. */
  lemma CandidatesNamed(es: seq<SearchElement>)
    ensures forall c :: c in Candidates(es) ==> c.url != "" && c.name != "" && Trimmed(c.name)
  {
    var outs := CandidateOutcomes(es);
    var cs := Candidates(es);
    forall c | c in cs ensures c.url != "" && c.name != "" && Trimmed(c.name) {
      var t :| 0 <= t < |cs| && cs[t] == c;
      var idx := Indices.Selected(Indices.Flags(outs));
      assert outs[idx[t]] == Some(c);
    }
  }

  function Urls(cs: seq<Candidate>): (r: seq<string>)
    ensures |r| == |cs| && forall i :: 0 <= i < |cs| ==> r[i] == cs[i].url
  {
    seq(|cs|, i requires 0 <= i < |cs| => cs[i].url)
  }

  /** Every candidate takes part in the deduplication. */
  function AllValid(n: nat): (r: seq<bool>)
    ensures |r| == n && forall i :: 0 <= i < n ==> r[i]
  {
    seq(n, _ => true)
  }

  /** The positions the URL deduplication keeps: the first candidate with each URL. */
  function UniquePositions(cs: seq<Candidate>): seq<nat> {
    Dedup.Kept(Urls(cs), AllValid(|cs|))
  }

  /** The candidates with duplicate URLs removed, the first occurrence winning. */
  function Unique(cs: seq<Candidate>): (r: seq<Candidate>)
    ensures |r| <= |cs| && forall t :: 0 <= t < |r| ==> r[t] in cs
    ensures forall t, u :: 0 <= t < u < |r| ==> r[t].url != r[u].url
  {
    Dedup.KeptKeysDistinct(Urls(cs), AllValid(|cs|));
    Indices.Pick(cs, UniquePositions(cs))
  }

  /** The `uniqueResults` walk: a candidate is kept when its URL has not been seen. */
  method UniqueByUrl(cs: seq<Candidate>) returns (uniqueResults: seq<Candidate>)
    ensures uniqueResults == Unique(cs)
  {
    ghost var urls, valid := Urls(cs), AllValid(|cs|);
    ghost var flags := Dedup.FirstFlags(urls, valid);
    uniqueResults := [];
    var seenUrls: set<string> := {};
    for i := 0 to |cs|
      invariant seenUrls == Dedup.SeenKeys(urls, valid, i)
      invariant uniqueResults == Indices.Pick(cs, Indices.Selected(flags[..i]))
    {
      Dedup.SeenStep(urls, valid, i);
      Indices.PickSelectedSnoc(cs, flags, i);
      if cs[i].url !in seenUrls {
        seenUrls := seenUrls + {cs[i].url};
        uniqueResults := uniqueResults + [cs[i]];
      }
    }
    assert flags[..|cs|] == flags;
  }

  /**
   * The deduplicated list is the subsequence of the candidates at the
   * positions where a URL first occurs: order is kept and no two share a URL.
   */
  lemma UniqueIsFirstOccurrences(cs: seq<Candidate>)
    ensures var idx := UniquePositions(cs);
            var r := Unique(cs);
            && |r| == |idx|
            && (forall t :: 0 <= t < |r| ==> idx[t] < |cs| && r[t] == cs[idx[t]])
            && (forall t, u :: 0 <= t < u < |r| ==> idx[t] < idx[u])
            && (forall t, u :: 0 <= t < u < |r| ==> r[t].url != r[u].url)
            && (forall t :: 0 <= t < |r| ==> forall j :: 0 <= j < idx[t] ==> cs[j].url != r[t].url)
  {
    var idx := UniquePositions(cs);
    Dedup.KeptKeysDistinct(Urls(cs), AllValid(|cs|));
    forall t | 0 <= t < |idx| ensures forall j :: 0 <= j < idx[t] ==> cs[j].url != cs[idx[t]].url {
      assert Dedup.FirstValid(Urls(cs), AllValid(|cs|), idx[t]);
    }
  }

  /** Every URL among the candidates survives, carried by its first candidate; so there is one entry per distinct URL. */
  lemma UniqueCoversEveryUrl(cs: seq<Candidate>)
    ensures forall i :: 0 <= i < |cs| && (forall j :: 0 <= j < i ==> cs[j].url != cs[i].url) ==> cs[i] in Unique(cs)
    ensures |Unique(cs)| == |set i | 0 <= i < |cs| :: cs[i].url|
  {
    var urls, valid := Urls(cs), AllValid(|cs|);
    var idx := UniquePositions(cs);
    forall i | 0 <= i < |cs| && (forall j :: 0 <= j < i ==> cs[j].url != cs[i].url)
      ensures cs[i] in Unique(cs)
    {
      assert Dedup.FirstValid(urls, valid, i);
      var t :| 0 <= t < |idx| && idx[t] == i;
      assert Unique(cs)[t] == cs[i];
    }
    Dedup.KeptCount(urls, valid);
    assert Dedup.ValidKeys(urls, valid) == set i | 0 <= i < |cs| :: cs[i].url;
  }

  /** The page callback of the search stage. */
  function SearchResults(es: seq<SearchElement>): (r: seq<Candidate>)
    ensures forall t :: 0 <= t < |r| ==> r[t].url != "" && r[t].name != "" && Trimmed(r[t].name)
    ensures forall t, u :: 0 <= t < u < |r| ==> r[t].url != r[u].url
  {
    CandidatesNamed(es);
    Unique(Candidates(es))
  }

  /**
   * The search stage: with results, one `team-options` record and one
   * `team-selection` job for the chosen candidate (the requested index when
   * in range, the first otherwise); without, one `error` record and no job.
   */
  method HandleSearch(page: Page, selectedTeamIndex: Option<int>,
                      dataset: Crawl.Dataset<Record>, queue: Crawl.RequestQueue)
    modifies dataset, queue
    ensures var rs := SearchResults(page.searchElements);
            if |rs| > 0 then
              && dataset.items == old(dataset.items) + [TeamOptions(rs, Instructions)]
              && queue.jobs == old(queue.jobs) +
                 [Crawl.Job(rs[Crawl.ChooseIndex(|rs|, selectedTeamIndex)].url, "team-selection", None, None)]
            else
              && dataset.items == old(dataset.items) + [SearchError(NoResultsMessage, page.url, NoResultsNote)]
              && queue.jobs == old(queue.jobs)
  {
    var teamOptions := CollectCandidates(page.searchElements);
    var results := UniqueByUrl(teamOptions);
    if |results| > 0 {
      dataset.Push(TeamOptions(results, Instructions));
      var teamToSelect: Candidate;
      if selectedTeamIndex.Some? {
        if selectedTeamIndex.value >= 0 && selectedTeamIndex.value < |results| {
          teamToSelect := results[selectedTeamIndex.value];
        } else {
          teamToSelect := results[0];
        }
      } else {
        teamToSelect := results[0];
      }
      queue.AddRequest(Crawl.Job(teamToSelect.url, "team-selection", None, None));
    } else {
      dataset.Push(SearchError(NoResultsMessage, page.url, NoResultsNote));
    }
  }

  // ---------------------------------------------------------------------------
  // Team-selection stage
  // ---------------------------------------------------------------------------

  /** The lower-cased text mentions one of the three words. */
  predicate MentionsDraw(s: string) {
    var t := ToLower(s);
    Contains(t, "draw") || Contains(t, "squad") || Contains(t, "roster")
  }

  /** The anchor's lower-cased `href` or text mentions a draw, squad or roster. */
  predicate IsDrawLink(a: Anchor) {
    MentionsDraw(a.href) || MentionsDraw(a.text)
  }

  /** The `href &&` and `text &&` guards: an empty string mentions nothing, so a bare anchor is never a draw link. */
  lemma BlankNeverMentions(a: Anchor)
    ensures !MentionsDraw("")
    ensures a.href == "" && a.text == "" ==> !IsDrawLink(a)
  {
  }

  /** The test lower-cases first, so it does not depend on the case of the input. */
  lemma MentionIgnoresCase(s: string)
    ensures MentionsDraw(ToLower(s)) == MentionsDraw(s)
  {
    assert ToLower(ToLower(s)) == ToLower(s);
  }

  /** `links.find(...)`: the position of the first anchor that is a draw link. */
  function FirstDrawLink(anchors: seq<Anchor>): (r: Option<nat>)
    ensures r.Some? ==> r.value < |anchors| && IsDrawLink(anchors[r.value])
    ensures r.Some? ==> forall j :: 0 <= j < r.value ==> !IsDrawLink(anchors[j])
    ensures r.None? <==> forall j :: 0 <= j < |anchors| ==> !IsDrawLink(anchors[j])
  {
    if anchors == [] then None
    else if IsDrawLink(anchors[0]) then Some(0)
    else
      match FirstDrawLink(anchors[1..])
      case None =>
        assert forall j :: 0 < j < |anchors| ==> anchors[j] == anchors[1..][j - 1];
        None
      case Some(k) =>
        assert forall j :: 0 < j < |anchors| ==> anchors[j] == anchors[1..][j - 1];
        Some(k + 1)
  }

  /** The page callback of the team-selection stage: the first draw link's `href`, if there is one. */
  function DrawLink(anchors: seq<Anchor>): (r: Option<string>)
    ensures r.None? <==> forall j :: 0 <= j < |anchors| ==> !IsDrawLink(anchors[j])
    ensures r.Some? ==>
              exists k :: 0 <= k < |anchors| && IsDrawLink(anchors[k]) && r.value == anchors[k].href &&
                          forall j :: 0 <= j < k ==> !IsDrawLink(anchors[j])
  {
    match FirstDrawLink(anchors)
    case None => None
    case Some(k) => Some(anchors[k].href)
  }

  /**
   * The team-selection stage: a draw link with an `href` becomes a
   * `scrape-draw` job; otherwise the current page is scraped for players.
   */
  method HandleTeamSelection(page: Page, dataset: Crawl.Dataset<Record>, queue: Crawl.RequestQueue)
    modifies dataset, queue
    ensures var link := DrawLink(page.anchors);
            if link.Some? && link.value != "" then
              && queue.jobs == old(queue.jobs) + [Crawl.Job(link.value, "scrape-draw", None, None)]
              && dataset.items == old(dataset.items)
            else
              && queue.jobs == old(queue.jobs)
              && dataset.items == old(dataset.items) + [RosterRecord(page)]
  {
    var drawLink := DrawLink(page.anchors);
    if drawLink.Some? && drawLink.value != "" {
      queue.AddRequest(Crawl.Job(drawLink.value, "scrape-draw", None, None));
    } else {
      HandleDrawScraping(page, dataset);
    }
  }

  /**
   * An anchor whose text mentions a draw but that has no `href` stops the
   * search: later draw links are not looked at and the current page is
   * scraped instead.
   */
  lemma HreflessMentionShadows(anchors: seq<Anchor>, k: nat)
    requires k < |anchors| && anchors[k].href == "" && MentionsDraw(anchors[k].text)
    requires forall j :: 0 <= j < k ==> !IsDrawLink(anchors[j])
    ensures DrawLink(anchors) == Some("")
  {
  }

  // ---------------------------------------------------------------------------
  // Draw-scraping stage
  // ---------------------------------------------------------------------------

  function OrUnknown(s: string): (r: string)
    ensures r != "" && (s != "" ==> r == s)
  {
    if s == "" then Unknown else s
  }

  /** A table row's player: a row with cells and a name other than the header words "Name" and "Player". */
  function RowPlayer(row: Row): (p: Option<Player>)
    ensures p.Some? <==> row.cellCount > 0 && TextOf(row.nameText) !in {"", "Name", "Player"}
    ensures p.Some? ==> p.value.name == TextOf(row.nameText) && Trimmed(p.value.name)
    ensures p.Some? ==> p.value.position != "" && p.value.jerseyNumber != ""
    ensures p.Some? && TextOf(row.positionText) == "" ==> p.value.position == Unknown
    ensures p.Some? && TextOf(row.jerseyText) == "" ==> p.value.jerseyNumber == Unknown
    ensures p.Some? && TextOf(row.positionText) != "" ==> p.value.position == TextOf(row.positionText)
    ensures p.Some? && TextOf(row.jerseyText) != "" ==> p.value.jerseyNumber == TextOf(row.jerseyText)
  {
    var name := TextOf(row.nameText);
    if row.cellCount > 0 && name != "" && name != "Name" && name != "Player" then
      Some(Player(name, OrUnknown(TextOf(row.positionText)), OrUnknown(TextOf(row.jerseyText))))
    else None
  }

  /** A player element's player: any non-empty name, with position and jersey unknown. */
  function ElementPlayer(e: PlayerElement): (p: Option<Player>)
    ensures p.Some? <==> TextOf(e.nameText) != ""
    ensures p.Some? ==> p.value == Player(TextOf(e.nameText), Unknown, Unknown)
  {
    var name := TextOf(e.nameText);
    if name != "" then Some(Player(name, Unknown, Unknown)) else None
  }

  function RowOutcomes(rows: seq<Row>): (r: seq<Option<Player>>)
    ensures |r| == |rows| && forall i :: 0 <= i < |rows| ==> r[i] == RowPlayer(rows[i])
  {
    seq(|rows|, i requires 0 <= i < |rows| => RowPlayer(rows[i]))
  }

  function ElementOutcomes(es: seq<PlayerElement>): (r: seq<Option<Player>>)
    ensures |r| == |es| && forall i :: 0 <= i < |es| ==> r[i] == ElementPlayer(es[i])
  {
    seq(|es|, i requires 0 <= i < |es| => ElementPlayer(es[i]))
  }

  /** The players of the table strategy, in document order. */
  function TablePlayers(rows: seq<Row>): (r: seq<Player>)
    ensures |r| <= |rows|
    ensures forall t :: 0 <= t < |r| ==> r[t].name != "" && r[t].name != "Name" && r[t].name != "Player"
  {
    var outs := RowOutcomes(rows);
    var idx := Indices.Selected(Indices.Flags(outs));
    var r := Indices.Present(outs);
    assert forall t :: 0 <= t < |r| ==> RowPlayer(rows[idx[t]]) == Some(r[t]);
    r
  }

  /** The players of the fallback strategy, in document order. */
  function FallbackPlayers(es: seq<PlayerElement>): (r: seq<Player>)
    ensures |r| <= |es|
    ensures forall t :: 0 <= t < |r| ==> r[t].name != "" && r[t].position == Unknown && r[t].jerseyNumber == Unknown
  {
    var outs := ElementOutcomes(es);
    var idx := Indices.Selected(Indices.Flags(outs));
    var r := Indices.Present(outs);
    assert forall t :: 0 <= t < |r| ==> ElementPlayer(es[idx[t]]) == Some(r[t]);
    r
  }

  /** The page callback of the draw-scraping stage: the table players, or the fallback players when there are none. */
  function Players(page: Page): (r: seq<Player>)
    ensures forall p :: p in r ==> p.name != "" && p.position != "" && p.jerseyNumber != ""
    ensures |r| == 0 ==> |TablePlayers(page.rows)| == 0 && |FallbackPlayers(page.playerElements)| == 0
  {
    TablePlayersNamed(page.rows);
    FallbackPlayersNamed(page.playerElements);
    var table := TablePlayers(page.rows);
    if |table| > 0 then table else FallbackPlayers(page.playerElements)
  }

  /** The two `forEach` walks, the second only when the first found nobody. */
  method ExtractPlayers(page: Page) returns (players: seq<Player>)
    ensures players == Players(page)
  {
    players := TableWalk(page.rows);
    if |players| == 0 {
      players := FallbackWalk(page.playerElements);
    }
  }

  /** The walk over the table rows. */
  method TableWalk(rows: seq<Row>) returns (players: seq<Player>)
    ensures players == TablePlayers(rows)
  {
    ghost var outs := RowOutcomes(rows);
    players := [];
    for i := 0 to |rows|
      invariant players == Indices.Present(outs[..i])
    {
      var row := rows[i];
      ghost var found: Option<Player> := None;
      if row.cellCount > 0 {
        var name := TextOf(row.nameText);
        if name != "" && name != "Name" && name != "Player" {
          var player := Player(name, OrUnknown(TextOf(row.positionText)), OrUnknown(TextOf(row.jerseyText)));
          players := players + [player];
          found := Some(player);
        }
      }
      assert found == outs[i];
      Indices.PresentStep(outs, i, outs[i]);
    }
    assert outs[..|rows|] == outs;
  }

  /** The walk over the player elements. */
  method FallbackWalk(es: seq<PlayerElement>) returns (players: seq<Player>)
    ensures players == FallbackPlayers(es)
  {
    ghost var outs := ElementOutcomes(es);
    players := [];
    for i := 0 to |es|
      invariant players == Indices.Present(outs[..i])
    {
      var name := TextOf(es[i].nameText);
      ghost var found: Option<Player> := None;
      if name != "" {
        players := players + [Player(name, Unknown, Unknown)];
        found := Some(Player(name, Unknown, Unknown));
      }
      assert found == outs[i];
      Indices.PresentStep(outs, i, outs[i]);
    }
    assert outs[..|es|] == outs;
  }

  /** `s.substring(0, n)`. */
  function Prefix(s: string, n: nat): (r: string)
    ensures |r| == if |s| <= n then |s| else n
    ensures r == s[..|r|]
    ensures |s| <= n ==> r == s
  {
    if |s| <= n then s else s[..n]
  }

  /** The record the draw-scraping stage pushes for a page. */
  function RosterRecord(page: Page): (r: Record)
    ensures r.Roster? <==> |Players(page)| > 0
    ensures r.Roster? ==> r.players == Players(page) && r.teamUrl == page.url
    ensures r.NoPlayers? ==> r.message == NoPlayersMessage && r.pageUrl == page.url && r.note == NoPlayersNote
    ensures r.NoPlayers? ==> |r.pageHtmlSample| <= SampleLength && |r.pageHtmlSample| <= |page.bodyHtml| &&
                             r.pageHtmlSample == page.bodyHtml[..|r.pageHtmlSample|]
  {
    var players := Players(page);
    if |players| > 0 then Roster(players, page.url)
    else NoPlayers(NoPlayersMessage, page.url, NoPlayersNote, Prefix(page.bodyHtml, SampleLength))
  }

  /** The draw-scraping stage: exactly one record, a roster or a no-data record. */
  method HandleDrawScraping(page: Page, dataset: Crawl.Dataset<Record>)
    modifies dataset
    ensures dataset.items == old(dataset.items) + [RosterRecord(page)]
  {
    var playerData := ExtractPlayers(page);
    if |playerData| > 0 {
      dataset.Push(Roster(playerData, page.url));
    } else {
      var pageHtml := page.bodyHtml;
      dataset.Push(NoPlayers(NoPlayersMessage, page.url, NoPlayersNote, Prefix(pageHtml, SampleLength)));
    }
  }

  /** The fallback strategy is consulted only when the table strategy found nobody. */
  lemma FallbackOnlyWhenTableEmpty(page: Page)
    ensures |TablePlayers(page.rows)| > 0 ==> Players(page) == TablePlayers(page.rows)
    ensures |TablePlayers(page.rows)| == 0 ==> Players(page) == FallbackPlayers(page.playerElements)
  {
  }

  /** Every table player has a real name, and a missing position or jersey number reads "Unknown". */
  lemma TablePlayersNamed(rows: seq<Row>)
    ensures forall p :: p in TablePlayers(rows) ==>
              p.name !in {"", "Name", "Player"} && Trimmed(p.name) && p.position != "" && p.jerseyNumber != ""
  {
    var outs := RowOutcomes(rows);
    var table := TablePlayers(rows);
    forall p | p in table
      ensures p.name !in {"", "Name", "Player"} && Trimmed(p.name) && p.position != "" && p.jerseyNumber != ""
    {
      var t :| 0 <= t < |table| && table[t] == p;
      var idx := Indices.Selected(Indices.Flags(outs));
      assert outs[idx[t]] == Some(p);
    }
  }

  /** Every fallback player has a non-empty name and an unknown position and jersey number. */
  lemma FallbackPlayersNamed(es: seq<PlayerElement>)
    ensures forall p :: p in FallbackPlayers(es) ==> p.name != "" && p.position == Unknown && p.jerseyNumber == Unknown
  {
    var outs := ElementOutcomes(es);
    var fallback := FallbackPlayers(es);
    forall p | p in fallback ensures p.name != "" && p.position == Unknown && p.jerseyNumber == Unknown {
      var t :| 0 <= t < |fallback| && fallback[t] == p;
      var idx := Indices.Selected(Indices.Flags(outs));
      assert outs[idx[t]] == Some(p);
    }
  }

  /** A no-data record carries at most the first 2000 characters of the page body. */
  lemma SampleBounded(page: Page)
    requires RosterRecord(page).NoPlayers?
    ensures var sample := RosterRecord(page).pageHtmlSample;
            |sample| <= SampleLength && sample == page.bodyHtml[..|sample|]
            && (|page.bodyHtml| >= SampleLength ==> |sample| == SampleLength)
  {
  }

  // ---------------------------------------------------------------------------
  // Dispatch
  // ---------------------------------------------------------------------------

  /** The request handler: the three stages go to their handlers; any other stage does nothing. */
  method HandleRequest(job: Crawl.Job, page: Page, dataset: Crawl.Dataset<Record>, queue: Crawl.RequestQueue)
    modifies dataset, queue
    ensures job.stage == "search" ==>
              var rs := SearchResults(page.searchElements);
              if |rs| > 0 then
                && dataset.items == old(dataset.items) + [TeamOptions(rs, Instructions)]
                && queue.jobs == old(queue.jobs) +
                   [Crawl.Job(rs[Crawl.ChooseIndex(|rs|, job.selectedTeamIndex)].url, "team-selection", None, None)]
              else
                && dataset.items == old(dataset.items) + [SearchError(NoResultsMessage, page.url, NoResultsNote)]
                && queue.jobs == old(queue.jobs)
    ensures job.stage == "team-selection" ==>
              var link := DrawLink(page.anchors);
              if link.Some? && link.value != "" then
                && queue.jobs == old(queue.jobs) + [Crawl.Job(link.value, "scrape-draw", None, None)]
                && dataset.items == old(dataset.items)
              else
                && queue.jobs == old(queue.jobs)
                && dataset.items == old(dataset.items) + [RosterRecord(page)]
    ensures job.stage == "scrape-draw" ==>
              dataset.items == old(dataset.items) + [RosterRecord(page)] && queue.jobs == old(queue.jobs)
    ensures job.stage !in {"search", "team-selection", "scrape-draw"} ==>
              dataset.items == old(dataset.items) && queue.jobs == old(queue.jobs)
  {
    if job.stage == "search" {
      HandleSearch(page, job.selectedTeamIndex, dataset, queue);
    } else if job.stage == "team-selection" {
      HandleTeamSelection(page, dataset, queue);
    } else if job.stage == "scrape-draw" {
      HandleDrawScraping(page, dataset);
    }
  }
}
